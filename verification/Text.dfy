/**
 Text as sequences of Unicode code points, with the parts of Go's `strings` and `unicode`
 packages the service uses.
 */
module Text {

  // unicode.IsSpace: the White_Space property.
  predicate IsSpace(c: char) {
    || '\U{0009}' <= c <= '\U{000D}'
    || c == ' '
    || c == '\U{0085}'
    || c == '\U{00A0}'
    || c == '\U{1680}'
    || '\U{2000}' <= c <= '\U{200A}'
    || c == '\U{2028}'
    || c == '\U{2029}'
    || c == '\U{202F}'
    || c == '\U{205F}'
    || c == '\U{3000}'
  }

  // The cutset " \t\n\r".
  predicate IsBlank(c: char) {
    c == ' ' || c == '\t' || c == '\n' || c == '\r'
  }

  // The cutset " \t".
  predicate IsTabOrSpace(c: char) {
    c == ' ' || c == '\t'
  }

  predicate All(s: string, p: char -> bool) {
    forall i | 0 <= i < |s| :: p(s[i])
  }

  // Where the first n characters end once the cutset is dropped from their right.
  function End(s: string, n: nat, cut: char -> bool): (e: nat)
    requires n <= |s|
    ensures e <= n && (forall i | e <= i < n :: cut(s[i])) && (e > 0 ==> !cut(s[e - 1]))
  {
    if n == 0 || !cut(s[n - 1]) then n else End(s, n - 1, cut)
  }

  // Where the characters from i on start once the cutset is dropped from their left.
  function Begin(s: string, i: nat, cut: char -> bool): (b: nat)
    requires i <= |s|
    ensures i <= b <= |s| && (forall j | i <= j < b :: cut(s[j])) && (b < |s| ==> !cut(s[b]))
    decreases |s| - i
  {
    if i == |s| || !cut(s[i]) then i else Begin(s, i + 1, cut)
  }

  function TrimRight(s: string, cut: char -> bool): string {
    s[..End(s, |s|, cut)]
  }

  function TrimLeft(s: string, cut: char -> bool): string {
    s[Begin(s, 0, cut)..]
  }

  function TrimSpace(s: string): string {
    TrimRight(TrimLeft(s, IsSpace), IsSpace)
  }

  // A split that stops at a character outside the cutset is the one trimming finds.
  lemma TrimRightOf(a: string, b: string, cut: char -> bool)
    requires All(b, cut) && (a != "" ==> !cut(a[|a| - 1]))
    ensures TrimRight(a + b, cut) == a
  {
    var s := a + b;
    var e := End(s, |s|, cut);
    assert forall i | |a| <= i < |s| :: s[i] == b[i - |a|];
    assert a != "" ==> s[|a| - 1] == a[|a| - 1];
    assert e == |a|;
    assert s[..|a|] == a;
  }

  lemma TrimLeftOf(a: string, b: string, cut: char -> bool)
    requires All(a, cut) && (b != "" ==> !cut(b[0]))
    ensures TrimLeft(a + b, cut) == b
  {
    var s := a + b;
    assert forall i | 0 <= i < |a| :: s[i] == a[i];
    assert b != "" ==> s[|a|] == b[0];
    assert Begin(s, 0, cut) == |a|;
    assert s[|a|..] == b;
  }

  lemma TrimSpaceIsSlice(s: string) returns (b: nat, e: nat)
    ensures b == Begin(s, 0, IsSpace) && e == b + End(s[b..], |s[b..]|, IsSpace)
    ensures e <= |s| && TrimSpace(s) == s[b..e] && (b < e ==> !IsSpace(s[e - 1]))
  {
    b := Begin(s, 0, IsSpace);
    e := b + End(s[b..], |s[b..]|, IsSpace);
  }

  // strings.Contains
  predicate Contains(s: string, key: string) {
    exists i :: 0 <= i <= |s| && key <= s[i..]
  }

  // config.TruncateRunesTail
  function Tail(s: string, max: nat): string {
    if |s| <= max then s else s[|s| - max..]
  }
}
