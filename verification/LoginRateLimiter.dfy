/**
 LoginRateLimiter as code: the per-address slices share their backing arrays with their own
 compacted prefixes. The class refines the maps of LimiterSpec.
 */
module LoginRateLimiter {
  import opened Wrappers
  import opened LimiterSpec

  // A Go slice that starts its backing array: the first `len` slots of `arr`.
  datatype Slice = Slice(arr: array<int>, len: nat)

  // valid := attempts[:0]; for each t: if t.After(cut) { valid = append(valid, t) }
  // The writes land at or before the slot being read, so the slots still to be read keep
  // their values; the slots past the result are not touched.
  method Compact(s: Slice, cut: int) returns (valid: Slice)
    requires s.len <= s.arr.Length
    modifies s.arr
    ensures valid.arr == s.arr && valid.len <= s.len
    ensures valid.arr[..valid.len] == Later(old(s.arr[..s.len]), cut)
    ensures valid.arr[valid.len..] == old(s.arr[..])[valid.len..]
  {
    var k := 0;
    ghost var was := s.arr[..s.len];
    for i := 0 to s.len
      invariant k <= i
      invariant s.arr[..k] == LaterUpTo(was, i, cut)
      invariant forall j | k <= j < s.arr.Length :: s.arr[j] == old(s.arr[j])
    {
      var t := s.arr[i];
      if t > cut {
        s.arr[k] := t;
        k := k + 1;
      }
    }
    valid := Slice(s.arr, k);
  }

  // append: in place while there is capacity, otherwise into a larger array.
  method Append(s: Slice, t: int) returns (r: Slice)
    requires s.len <= s.arr.Length
    modifies s.arr
    ensures r.len == s.len + 1 <= r.arr.Length
    ensures r.arr[..r.len] == old(s.arr[..s.len]) + [t]
    ensures r.arr == s.arr || fresh(r.arr)
    ensures r.arr != s.arr ==> s.arr[..] == old(s.arr[..])
  {
    if s.len < s.arr.Length {
      s.arr[s.len] := t;
      return Slice(s.arr, s.len + 1);
    }
    var capacity :| capacity > s.len;
    var arr := new int[capacity];
    for i := 0 to s.len
      invariant arr[..i] == s.arr[..i]
      invariant s.arr[..] == old(s.arr[..])
    {
      arr[i] := s.arr[i];
    }
    arr[s.len] := t;
    r := Slice(arr, s.len + 1);
  }

  // Compaction followed by the admission is the call.
  lemma TwoHalves(cfg: Config, before: Lists, ip: string, now: int, mid: Lists, allowed: bool, after: Lists)
    requires mid == before[ip := StillCounted(cfg, before, ip, now)]
    requires allowed <==> |mid[ip]| < cfg.maxAttempts
    requires after == if allowed then mid[ip := mid[ip] + [now]] else mid
    ensures allowed <==> Allows(cfg, before, ip, now)
    ensures after == AfterCall(cfg, before, ip, now)
  {
  }

  // A cleanup pass is done for every address but those of `rest`.
  ghost predicate CleanedBut(before: Lists, lists: Lists, rest: set<string>, cut: int) {
    && lists.Keys <= before.Keys
    && (forall ip | ip in rest && ip in lists :: lists[ip] == before[ip])
    && (forall ip | ip in before && ip !in rest :: ip in lists <==> Later(before[ip], cut) != [])
    && (forall ip | ip in lists && ip !in rest :: lists[ip] == Later(before[ip], cut))
  }

  lemma CleanedNone(before: Lists, cut: int)
    ensures CleanedBut(before, before, before.Keys, cut)
  {
  }

  lemma CleanedOne(before: Lists, lists: Lists, rest: set<string>, ip: string, cut: int)
    requires CleanedBut(before, lists, rest, cut) && ip in rest && ip in lists
    ensures var valid := Later(lists[ip], cut);
            CleanedBut(before, if valid == [] then lists - {ip} else lists[ip := valid], rest - {ip}, cut)
  {
  }

  lemma CleanedAll(cfg: Config, before: Lists, lists: Lists, at: int)
    requires CleanedBut(before, lists, {}, at - cfg.window)
    ensures lists == AfterClean(cfg, before, at)
  {
    assert forall ip :: ip in lists <==> ip in AfterClean(cfg, before, at);
  }

  class LoginRateLimiter {
    ghost var Lists: Lists            // the times of each address, in order
    ghost var Repr: set<array<int>>   // the backing arrays, and those dropped since
    ghost var Owner: map<array<int>, string>
    var attempts: map<string, Slice>
    const maxAttempts: int
    const window: int

    // Each slice holds its list within the limit, in an array that belongs to its address alone.
    ghost predicate Valid()
      reads this, Repr
    {
      attempts.Keys == Lists.Keys && forall ip | ip in attempts :: Holds(ip, attempts[ip], Lists[ip])
    }

    // All is well but for one address.
    ghost predicate ValidBut(ip: string)
      reads this, Repr
    {
      attempts.Keys == Lists.Keys && forall i | i in attempts && i != ip :: Holds(i, attempts[i], Lists[i])
    }

    ghost predicate Holds(ip: string, s: Slice, ts: seq<int>)
      reads this, Repr
    {
      && s.arr in Repr && s.arr in Owner && Owner[s.arr] == ip
      && s.len <= s.arr.Length && s.len <= Max(0, maxAttempts) && s.arr[..s.len] == ts
    }

    constructor (maxAttempts: int, window: int)
      ensures Valid() && Lists == map[] && Repr == {}
      ensures this.maxAttempts == maxAttempts && this.window == window
    {
      attempts, Lists, Repr, Owner := map[], map[], {}, map[];
      this.maxAttempts, this.window := maxAttempts, window;
    }

    // The slice of `ip` uses an array of the limiter's, or one made since.
    twostate predicate Owned(ip: string)
      reads this
    {
      ip in attempts && (attempts[ip].arr in old(Repr) || fresh(attempts[ip].arr))
    }

    // attempts[ip] = s
    method Install(ip: string, s: Slice, ghost ts: seq<int>)
      requires ValidBut(ip) && Holds(ip, s, ts)
      modifies this`attempts, this`Lists
      ensures Valid() && Lists == old(Lists)[ip := ts] && attempts == old(attempts)[ip := s]
    {
      attempts, Lists := attempts[ip := s], Lists[ip := ts];
    }

    // attempts[ip] = valid
    method Prune(ip: string, cut: int)
      requires Valid() && ip in attempts
      modifies this`attempts, this`Lists, attempts[ip].arr
      ensures Valid() && Lists == old(Lists)[ip := Later(old(Lists[ip]), cut)]
      ensures attempts.Keys == old(attempts.Keys) && attempts[ip].arr == old(attempts[ip].arr)
    {
      var valid := Compact(attempts[ip], cut);
      Install(ip, valid, Later(Lists[ip], cut));
    }

    // attempts[ip] = append(valid, now)
    method Push(ip: string, now: int)
      requires Valid() && ip in attempts && attempts[ip].len < maxAttempts
      modifies this`attempts, this`Lists, this`Repr, this`Owner, attempts[ip].arr
      ensures Valid() && fresh(Repr - old(Repr)) && Lists == old(Lists)[ip := old(Lists[ip]) + [now]]
    {
      var grown := Append(attempts[ip], now);
      Repr, Owner := Repr + {grown.arr}, Owner[grown.arr := ip];
      Install(ip, grown, Lists[ip] + [now]);
    }

    method Adopt(ip: string)
      requires Valid() && ip !in attempts
      modifies this`attempts, this`Lists, this`Repr, this`Owner
      ensures Valid() && fresh(Repr - old(Repr)) && Owned(ip)
      ensures Lists == old(Lists)[ip := []]
    {
      var none := new int[0];
      Repr, Owner := Repr + {none}, Owner[none := ip];
      Install(ip, Slice(none, 0), []);
    }

    // The compaction at the head of isAllowed. A key that is absent reads as the nil slice,
    // which shares its array with nobody and has nothing to compact.
    method Refresh(ip: string, now: int)
      requires Valid()
      modifies this`attempts, this`Lists, this`Repr, this`Owner, Repr
      ensures Valid() && fresh(Repr - old(Repr)) && Owned(ip)
      ensures Lists == old(Lists)[ip := StillCounted(Config(maxAttempts, window), old(Lists), ip, now)]
    {
      if ip in attempts {
        Prune(ip, now - window);
      } else {
        Adopt(ip);
      }
    }

    // The check and the admission that follow it.
    method Admit(ip: string, now: int) returns (allowed: bool)
      requires Valid() && ip in attempts
      modifies this`attempts, this`Lists, this`Repr, this`Owner, attempts[ip].arr
      ensures Valid() && fresh(Repr - old(Repr))
      ensures allowed <==> |old(Lists[ip])| < maxAttempts
      ensures Lists == if allowed then old(Lists)[ip := old(Lists[ip]) + [now]] else old(Lists)
    {
      assert |Lists[ip]| == attempts[ip].len;
      if attempts[ip].len >= maxAttempts {
        return false;
      }
      Push(ip, now);
      allowed := true;
    }

    // `now` was read before the lock was taken.
    method IsAllowed(ip: string, now: int) returns (allowed: bool)
      requires Valid()
      modifies this`attempts, this`Lists, this`Repr, this`Owner, Repr
      ensures Valid() && fresh(Repr - old(Repr))
      ensures allowed <==> Allows(Config(maxAttempts, window), old(Lists), ip, now)
      ensures Lists == AfterCall(Config(maxAttempts, window), old(Lists), ip, now)
    {
      ghost var before := Lists;
      Refresh(ip, now);
      ghost var refreshed := Lists;
      allowed := Admit(ip, now);
      TwoHalves(Config(maxAttempts, window), before, ip, now, refreshed, allowed, Lists);
    }

    method Drop(ip: string)
      requires Valid()
      modifies this`attempts, this`Lists
      ensures Valid() && Lists == old(Lists) - {ip} && attempts.Keys == old(attempts.Keys) - {ip}
    {
      attempts, Lists := attempts - {ip}, Lists - {ip};
    }

    // The body of the cleaner's loop.
    method PruneOrDrop(ip: string, cut: int, ghost before: Lists, ghost rest: set<string>)
      requires Valid() && ip in attempts && ip in rest && CleanedBut(before, Lists, rest, cut)
      modifies this`attempts, this`Lists, Repr
      ensures Valid() && old(attempts.Keys) - {ip} <= attempts.Keys
      ensures CleanedBut(before, Lists, rest - {ip}, cut)
    {
      CleanedOne(before, Lists, rest, ip, cut);
      Prune(ip, cut);
      if attempts[ip].len == 0 {
        Drop(ip);
      }
    }

    // One pass of the cleaner, walking the map in any order.
    method Cleanup(now: int)
      requires Valid()
      modifies this`attempts, this`Lists, Repr
      ensures Valid() && Lists == AfterClean(Config(maxAttempts, window), old(Lists), now)
    {
      ghost var before := Lists;
      var rest := attempts.Keys;
      CleanedNone(before, now - window);
      while rest != {}
        invariant Valid() && rest <= attempts.Keys
        invariant CleanedBut(before, Lists, rest, now - window)
        decreases rest
      {
        var ip :| ip in rest;
        PruneOrDrop(ip, now - window, before, rest);
        rest := rest - {ip};
      }
      CleanedAll(Config(maxAttempts, window), before, Lists, now);
    }
  }
}
