/**
 How long ASR log entries live: the logger files an entry under the UTC day of its
 timestamp, the cleaner removes whole days. Times are nanoseconds since the epoch.
 */
module LogRetention {
  import opened Wrappers

  const HOUR: int := 3_600_000_000_000
  const DAY: int := 24 * HOUR

  function DayOf(t: int): (d: int)
    ensures d * DAY <= t < (d + 1) * DAY
  {
    t / DAY
  }

  // A name in the base directory: one that parses as a date, or any other.
  datatype Name = Day(n: int) | Other(text: string)

  // An entry on disk, as `engine`/`requestID` in the directory of its day, and when it was written.
  datatype Record = Record(engine: string, requestID: string, stamp: int, at: int)

  datatype Node = File | Dir(records: set<Record>)

  type Tree = map<Name, Node>

  // A directory is past retention when its date is before now.AddDate(0, 0, -days).
  predicate Expired(name: Name, node: Node, now: int, days: int) {
    node.Dir? && name.Day? && name.n * DAY < now - days * DAY
  }

  // What one turn of the cleaner's loop does to a name. A RemoveAll that fails may have got part
  // of the way: `left` is what it has not removed.
  function Visited(tree: Tree, n: Name, now: int, days: int, left: Option<set<Record>>): Tree {
    if n !in tree || !Expired(n, tree[n], now, days) then tree
    else if left.None? then tree - {n}
    else tree[n := Dir(tree[n].records * left.value)]
  }

  // The outcome of one pass with nobody else at work.
  function Cleaned(tree: Tree, now: int, days: int, left: map<Name, set<Record>>): Tree {
    map n | n in tree && (!Expired(n, tree[n], now, days) || n in left) ::
      if Expired(n, tree[n], now, days) then Dir(tree[n].records * left[n]) else tree[n]
  }

  // MkdirAll
  function Made(tree: Tree, d: Name): Tree {
    if d in tree then tree else tree[d := Dir({})]
  }

  function Filed(tree: Tree, r: Record): Tree
    requires Day(DayOf(r.stamp)) in tree ==> tree[Day(DayOf(r.stamp))].Dir?
  {
    var d := Day(DayOf(r.stamp));
    tree[d := Dir((if d in tree then tree[d].records else {}) + {r})]
  }

  class LogDir {
    var tree: Tree

    // writeEntry: a stamp that does not parse is replaced by the current time. A plain file in
    // the place of the day's directory makes it give up, as does any failure of MkdirAll; a
    // failure to write the entry leaves the directory.
    method WriteEntry(engine: string, requestID: string, stamp: Option<int>, now: int, mkdirFails: bool, writeFails: bool)
        returns (ok: bool)
      modifies this
      ensures var t := if stamp.Some? then stamp.value else now;
              var d := Day(DayOf(t));
              var made := !mkdirFails && !(d in old(tree) && old(tree)[d].File?);
              && ok == (made && !writeFails)
              && tree == if ok then Filed(old(tree), Record(engine, requestID, t, now))
                         else if made then Made(old(tree), d) else old(tree)
      // Whatever fails, nothing that was there is lost or changed but for the new entry.
      ensures forall n | n in old(tree) && old(tree)[n].File? :: n in tree && tree[n] == File
      ensures forall n | n in old(tree) && old(tree)[n].Dir? ::
        n in tree && tree[n].Dir? && old(tree)[n].records <= tree[n].records
      ensures forall n, r | n in tree && tree[n].Dir? && r in tree[n].records ::
        (n in old(tree) && old(tree)[n].Dir? && r in old(tree)[n].records) || (ok && r.requestID == requestID && r.at == now)
    {
      var t := if stamp.Some? then stamp.value else now;
      var dir := Day(DayOf(t));
      if mkdirFails || (dir in tree && tree[dir].File?) {
        return false;
      }
      if dir !in tree {
        tree := tree[dir := Dir({})];
      }
      if writeFails {
        return false;
      }
      tree := tree[dir := Dir(tree[dir].records + {Record(engine, requestID, t, now)})];
      ok := true;
    }

    // One pass over the names in the base directory, in any order. `left` has the names
    // RemoveAll fails on.
    method Clean(now: int, days: int, listFails: bool, left: map<Name, set<Record>>)
      modifies this
      ensures tree == if listFails then old(tree) else Cleaned(old(tree), now, days, left)
      // A plain file stays, and so does a directory whose name is no date.
      ensures forall n | n in old(tree) && (n.Other? || old(tree)[n].File?) :: n in tree && tree[n] == old(tree)[n]
      ensures tree.Keys <= old(tree).Keys
    {
      if listFails {
        return;
      }
      var entries := tree.Keys;
      while entries != {}
        invariant entries <= tree.Keys <= old(tree).Keys
        invariant forall n | n in entries :: tree[n] == old(tree)[n]
        invariant forall n | n in old(tree) && n !in entries ::
          n in tree <==> n in Cleaned(old(tree), now, days, left)
        invariant forall n | n in tree && n !in entries :: tree[n] == Cleaned(old(tree), now, days, left)[n]
        decreases entries
      {
        var n :| n in entries;
        entries := entries - {n};
        if tree[n].Dir? && n.Day? && n.n * DAY < now - days * DAY {
          if n in left {
            tree := tree[n := Dir(tree[n].records * left[n])];
          } else {
            tree := tree - {n};
          }
        }
      }
    }
  }

  ghost predicate Holds(tree: Tree, r: Record) {
    exists n :: n in tree && tree[n].Dir? && r in tree[n].records
  }

  // Every entry is in the directory of its day.
  ghost predicate Placed(tree: Tree) {
    forall n, r | n in tree && tree[n].Dir? && r in tree[n].records :: n == Day(DayOf(r.stamp))
  }

  // ---- one pass ----

  // Exactly which entries an undisturbed pass removes.
  lemma CleanRemoves(tree: Tree, now: int, days: int, left: map<Name, set<Record>>, r: Record)
    requires Placed(tree) && Holds(tree, r)
    ensures Placed(Cleaned(tree, now, days, left))
    ensures var d := Day(DayOf(r.stamp));
            Holds(Cleaned(tree, now, days, left), r)
            <==> d.n * DAY >= now - days * DAY || (d in left && r in left[d])
  {
    var n :| n in tree && tree[n].Dir? && r in tree[n].records;
    var cleaned := Cleaned(tree, now, days, left);
    if Holds(cleaned, r) {
      var m :| m in cleaned && cleaned[m].Dir? && r in cleaned[m].records;
      assert m == n;
    }
    if n in cleaned && r in cleaned[n].records {
      assert Holds(cleaned, r);
    }
  }

  // A pass never removes an entry of age (days - 1) * 24h or less.
  lemma NotTooEarly(tree: Tree, now: int, days: int, left: map<Name, set<Record>>, r: Record)
    requires Placed(tree) && Holds(tree, r) && now - r.stamp <= (days - 1) * DAY
    ensures Holds(Cleaned(tree, now, days, left), r)
  {
    CleanRemoves(tree, now, days, left, r);
    assert (days - 1) * DAY == days * DAY - DAY;
  }

  // What a pass that can remove leaves behind is at most days * 24h old.
  lemma NotTooLate(tree: Tree, now: int, days: int, r: Record)
    requires Placed(tree) && Holds(tree, r) && Holds(Cleaned(tree, now, days, map[]), r)
    ensures now - r.stamp <= days * DAY
  {
    CleanRemoves(tree, now, days, map[], r);
  }

  // ---- the cleaner beside the writer ----

  // A pass in progress: the time it took for its cutoff, and the names it has yet to visit.
  datatype State = State(tree: Tree, cutoffAt: int, rest: set<Name>)

  // The writer may file entries between any two turns of the cleaner's loop, also into a
  // directory that was removed a moment ago.
  datatype Event =
    | Write(r: Record)
    | Begin(at: int)
    | Visit(n: Name, at: int, left: Option<set<Record>>)

  function Time(e: Event): int {
    match e
    case Write(r) => r.at
    case Begin(at) => at
    case Visit(n, at, left) => at
  }

  // One goroutine cleans: a pass begins when the last one is through.
  predicate Enabled(s: State, e: Event) {
    match e
    case Write(r) => true
    case Begin(at) => s.rest == {}
    case Visit(n, at, left) => n in s.rest
  }

  // The base directory holds nothing but directories.
  function Run(es: seq<Event>, days: int): (s: State)
    ensures forall n | n in s.tree :: s.tree[n].Dir?
  {
    if es == [] then State(map[], 0, {})
    else
      var s := Run(es[..|es| - 1], days);
      match es[|es| - 1]
      case Write(r) => s.(tree := Filed(s.tree, r))
      case Begin(at) => s.(cutoffAt := at, rest := s.tree.Keys)
      case Visit(n, at, left) => s.(tree := Visited(s.tree, n, s.cutoffAt, days, left), rest := s.rest - {n})
  }

  // The turns of a pass over `names`.
  function Visits(names: seq<Name>, at: int, left: map<Name, set<Record>>): seq<Event> {
    if names == [] then []
    else
      var n := names[|names| - 1];
      Visits(names[..|names| - 1], at, left) + [Visit(n, at, if n in left then Some(left[n]) else None)]
  }

  function CleanedAmong(tree: Tree, names: seq<Name>, now: int, days: int, left: map<Name, set<Record>>): Tree {
    map n | n in tree && (n !in names || !Expired(n, tree[n], now, days) || n in left) ::
      if n in names && Expired(n, tree[n], now, days) then Dir(tree[n].records * left[n]) else tree[n]
  }

  lemma {:induction false} VisitsClean(es: seq<Event>, names: seq<Name>, at: int, days: int, left: map<Name, set<Record>>)
    ensures var s := Run(es + [Begin(at)] + Visits(names, at, left), days);
            s.tree == CleanedAmong(Run(es, days).tree, names, at, days, left) && s.cutoffAt == at
  {
    if names == [] {
      assert es + [Begin(at)] + [] == es + [Begin(at)];
      assert (es + [Begin(at)])[..|es|] == es;
    } else {
      var names', n := names[..|names| - 1], names[|names| - 1];
      var begun := es + [Begin(at)];
      var e := Visit(n, at, if n in left then Some(left[n]) else None);
      VisitsClean(es, names', at, days, left);
      assert begun + Visits(names, at, left) == begun + Visits(names', at, left) + [e];
      RunVisit(begun + Visits(names', at, left), e, days);
      assert names == names' + [n];
      VisitOneMore(Run(es, days).tree, names', n, at, days, left);
    }
  }

  lemma RunVisit(es: seq<Event>, e: Event, days: int)
    requires e.Visit?
    ensures var s := Run(es, days);
            Run(es + [e], days) == s.(tree := Visited(s.tree, e.n, s.cutoffAt, days, e.left), rest := s.rest - {e.n})
  {
    assert (es + [e])[..|es|] == es;
  }

  lemma VisitOneMore(tree: Tree, names: seq<Name>, n: Name, now: int, days: int, left: map<Name, set<Record>>)
    ensures Visited(CleanedAmong(tree, names, now, days, left), n, now, days, if n in left then Some(left[n]) else None)
         == CleanedAmong(tree, names + [n], now, days, left)
  {
  }

  // A pass that nothing comes between, in whatever order it visits the names, is Clean.
  lemma UndisturbedPass(es: seq<Event>, names: seq<Name>, at: int, days: int, left: map<Name, set<Record>>)
    requires forall n | n in Run(es, days).tree :: n in names
    ensures Run(es + [Begin(at)] + Visits(names, at, left), days).tree == Cleaned(Run(es, days).tree, at, days, left)
  {
    VisitsClean(es, names, at, days, left);
  }

  ghost predicate Legal(es: seq<Event>, days: int) {
    es == [] || (Legal(es[..|es| - 1], days) && Enabled(Run(es[..|es| - 1], days), es[|es| - 1]))
  }

  ghost predicate InOrder(es: seq<Event>) {
    forall i, j | 0 <= i < j < |es| :: Time(es[i]) <= Time(es[j])
  }

  ghost predicate AllRemoved(es: seq<Event>) {
    forall i | 0 <= i < |es| && es[i].Visit? :: es[i].left.None?
  }

  lemma {:induction false} RunIsPlaced(es: seq<Event>, days: int)
    ensures Placed(Run(es, days).tree)
  {
    if es != [] { RunIsPlaced(es[..|es| - 1], days); }
  }

  lemma HoldsFiled(tree: Tree, w: Record, r: Record)
    requires Day(DayOf(w.stamp)) in tree ==> tree[Day(DayOf(w.stamp))].Dir?
    ensures Holds(Filed(tree, w), r) <==> Holds(tree, r) || r == w
  {
    var filed, d := Filed(tree, w), Day(DayOf(w.stamp));
    if Holds(filed, r) && r != w {
      var n :| n in filed && filed[n].Dir? && r in filed[n].records;
      assert n in tree && r in tree[n].records;
    }
    if Holds(tree, r) {
      var n :| n in tree && tree[n].Dir? && r in tree[n].records;
      assert n in filed && filed[n].Dir? && r in filed[n].records;
    }
    assert d in filed && w in filed[d].records;
  }

  // Exactly when a visit removes an entry.
  lemma HoldsVisited(tree: Tree, n: Name, now: int, days: int, left: Option<set<Record>>, r: Record)
    requires Placed(tree)
    ensures Holds(Visited(tree, n, now, days, left), r) <==>
      && Holds(tree, r)
      && (n == Day(DayOf(r.stamp)) && DayOf(r.stamp) * DAY < now - days * DAY ==> left.Some? && r in left.value)
  {
    var visited, d := Visited(tree, n, now, days, left), Day(DayOf(r.stamp));
    if Holds(visited, r) {
      var m :| m in visited && visited[m].Dir? && r in visited[m].records;
      assert m in tree && tree[m].Dir? && r in tree[m].records;
    }
    if Holds(tree, r) {
      assert d in tree && tree[d].Dir? && r in tree[d].records;
      if n != d || DayOf(r.stamp) * DAY >= now - days * DAY || (left.Some? && r in left.value) {
        assert d in visited && visited[d].Dir? && r in visited[d].records;
      }
    }
  }

  // An entry written before pass k began is young enough for that pass, or the pass is still
  // on its way to the entry's day.
  lemma {:induction false} SurvivorsAreYoung(es: seq<Event>, days: int, k: nat, r: Record)
    requires Legal(es, days) && InOrder(es) && AllRemoved(es)
    requires k < |es| && es[k].Begin? && r.at < es[k].at && Holds(Run(es, days).tree, r)
    ensures var s := Run(es, days);
            es[k].at - r.stamp <= days * DAY || (s.cutoffAt == es[k].at && Day(DayOf(r.stamp)) in s.rest)
    decreases |es|
  {
    var es', e := es[..|es| - 1], es[|es| - 1];
    var before := Run(es', days);
    RunIsPlaced(es', days);
    if k == |es'| {
      assert Day(DayOf(r.stamp)) in before.tree;
    } else {
      assert es'[k] == es[k] && Time(es[k]) <= Time(e);
      assert AllRemoved(es') by {
        forall i | 0 <= i < |es'| && es'[i].Visit? ensures es'[i].left.None? { assert es[i] == es'[i]; }
      }
      match e {
        case Write(w) => HoldsFiled(before.tree, w, r);
        case Begin(at) =>
        case Visit(n, at, left) => HoldsVisited(before.tree, n, before.cutoffAt, days, left, r);
      }
      SurvivorsAreYoung(es', days, k, r);
    }
  }

  // With a pass begun in the last hour before x and by now through, an entry written before it
  // began is at most days * 24h + 1h old at x.
  lemma AgeIsBounded(es: seq<Event>, days: int, k: nat, r: Record, x: int)
    requires Legal(es, days) && InOrder(es) && AllRemoved(es)
    requires k < |es| && es[k].Begin? && x - HOUR <= es[k].at <= x && Run(es, days).rest == {}
    requires Holds(Run(es, days).tree, r) && r.at < es[k].at
    ensures x - r.stamp <= days * DAY + HOUR
  {
    SurvivorsAreYoung(es, days, k, r);
  }

  // And no run, whatever removals fail, loses an entry before a pass begins, or is under way as
  // the entry is written, that finds it more than (days - 1) * 24h old.
  lemma {:induction false} KeptLongEnough(es: seq<Event>, days: int, i: nat)
    requires Legal(es, days) && i < |es| && es[i].Write?
    requires Run(es[..i], days).rest == {} || Run(es[..i], days).cutoffAt - es[i].r.stamp <= (days - 1) * DAY
    requires forall j | i < j < |es| && es[j].Begin? :: es[j].at - es[i].r.stamp <= (days - 1) * DAY
    ensures var s := Run(es, days);
            && Holds(s.tree, es[i].r)
            && (s.rest == {} || s.cutoffAt - es[i].r.stamp <= (days - 1) * DAY)
    decreases |es|
  {
    var es', e, r := es[..|es| - 1], es[|es| - 1], es[i].r;
    var before := Run(es', days);
    RunIsPlaced(es', days);
    assert (days - 1) * DAY == days * DAY - DAY;
    if i == |es'| {
      HoldsFiled(before.tree, r, r);
    } else {
      assert es'[..i] == es[..i];
      KeptLongEnough(es', days, i);
      match e
      case Write(w) => HoldsFiled(before.tree, w, r);
      case Begin(at) =>
      case Visit(n, at, left) => HoldsVisited(before.tree, n, before.cutoffAt, days, left, r);
    }
  }
}
