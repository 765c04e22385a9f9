/**
 How a transcript is assembled: the context join, the choice of result in Transcribe, and
 the dictation sessions a client runs by sending each result back as the next context.
 */
module Transcript {
  import opened Text

  const NO_SPEECH := "[NO_SPEECH]"

  predicate IsCJK(r: char) {
    || '\U{4E00}' <= r <= '\U{9FFF}'
    || '\U{3400}' <= r <= '\U{4DBF}'
    || '\U{3000}' <= r <= '\U{303F}'
    || '\U{FF00}' <= r <= '\U{FFEF}'
    || '\U{3040}' <= r <= '\U{309F}'
    || '\U{30A0}' <= r <= '\U{30FF}'
    || '\U{AC00}' <= r <= '\U{D7AF}'
  }

  const PUNCTUATION :=
    "\U{FF0C}\U{3002}\U{FF01}\U{FF1F}\U{FF1B}\U{FF1A}\U{3001},.!?;:\U{2026}\U{2014}\U{00B7}\"'"
    + "\U{FF09}\U{300D}\U{3011}\U{300B}\U{3009}\U{201C}\U{201D}\U{2018}\U{2019}"

  predicate IsPunctuation(r: char) {
    r in PUNCTUATION
  }

  predicate NeedsSpace(last: char, first: char) {
    !IsSpace(last) && !IsPunctuation(last) && !IsCJK(last) && !IsCJK(first)
  }

  function Join(context: string, text: string): string {
    if context == "" || text == "" then context + text
    else if NeedsSpace(context[|context| - 1], text[0]) then context + " " + text
    else context + text
  }

  // ---- the join is a monoid ----

  // What the join puts between two texts.
  function Seam(a: string, b: string): string
    requires a != "" && b != ""
  {
    if NeedsSpace(a[|a| - 1], b[0]) then " " else ""
  }

  lemma JoinIsSeam(a: string, b: string)
    requires a != "" && b != ""
    ensures Join(a, b) == a + Seam(a, b) + b
  {
    assert a + "" + b == a + b;
  }

  lemma JoinUnit(a: string)
    ensures Join("", a) == a == Join(a, "")
  {
  }

  // One seam each, whichever side is joined first.
  lemma SeamsAreIndependent(a: string, b: string, c: string)
    requires a != "" && b != "" && c != ""
    ensures Join(a + Seam(a, b) + b, c) == a + Seam(a, b) + b + Seam(b, c) + c
    ensures Join(a, b + Seam(b, c) + c) == a + Seam(a, b) + b + Seam(b, c) + c
  {
    var s, t := Seam(a, b), Seam(b, c);
    assert Seam(a + s + b, c) == t && Seam(a, b + t + c) == s;
    JoinIsSeam(a + s + b, c);
    JoinIsSeam(a, b + t + c);
    assert a + s + (b + t + c) == a + s + b + t + c;
  }

  lemma JoinIsAssociative(a: string, b: string, c: string)
    ensures Join(Join(a, b), c) == Join(a, Join(b, c))
  {
    if a == "" {
      JoinUnit(b);
      JoinUnit(Join(b, c));
    } else if b == "" {
      JoinUnit(a);
      JoinUnit(c);
    } else if c == "" {
      JoinUnit(b);
      JoinUnit(Join(a, b));
    } else {
      JoinIsSeam(a, b);
      JoinIsSeam(b, c);
      SeamsAreIndependent(a, b, c);
    }
  }

  function JoinAll(texts: seq<string>): string {
    if texts == [] then "" else Join(JoinAll(texts[..|texts| - 1]), texts[|texts| - 1])
  }

  lemma {:induction false} JoinAllConcat(a: seq<string>, b: seq<string>)
    ensures JoinAll(a + b) == Join(JoinAll(a), JoinAll(b))
    decreases |b|
  {
    if b == [] {
      assert a + b == a;
      JoinUnit(JoinAll(a));
    } else {
      var b', last := b[..|b| - 1], b[|b| - 1];
      assert (a + b)[..|a + b| - 1] == a + b';
      JoinAllConcat(a, b');
      JoinIsAssociative(JoinAll(a), JoinAll(b'), last);
    }
  }

  // A way of bracketing a sequence of utterances.
  datatype Grouping = Utterance(text: string) | Group(left: Grouping, right: Grouping) {
    function Leaves(): seq<string> {
      match this
      case Utterance(text) => [text]
      case Group(l, r) => l.Leaves() + r.Leaves()
    }

    function Value(): string {
      match this
      case Utterance(text) => text
      case Group(l, r) => Join(l.Value(), r.Value())
    }
  }

  // Any grouping of the same utterances gives the same transcript.
  lemma {:induction false} GroupingIsIrrelevant(g: Grouping)
    ensures g.Value() == JoinAll(g.Leaves())
    decreases g
  {
    match g
    case Utterance(text) =>
      assert [text][..0] == [];
      JoinUnit(text);
    case Group(l, r) =>
      GroupingIsIrrelevant(l);
      GroupingIsIrrelevant(r);
      JoinAllConcat(l.Leaves(), r.Leaves());
  }

  // ---- what a reader sees between two utterances ----

  // An ASCII letter or digit.
  predicate IsAlnum(c: char) {
    'a' <= c <= 'z' || 'A' <= c <= 'Z' || '0' <= c <= '9'
  }

  // A unified ideograph, kana or a Hangul syllable.
  predicate IsEastAsian(c: char) {
    || '\U{3400}' <= c <= '\U{4DBF}' || '\U{4E00}' <= c <= '\U{9FFF}'
    || '\U{3040}' <= c <= '\U{30FF}' || '\U{AC00}' <= c <= '\U{D7AF}'
  }

  predicate NotSpace(c: char) {
    c != ' '
  }

  // strings.Split(s, " "), for s without a space at either end.
  function SplitAtSpaces(s: string): seq<string> {
    if s == "" then []
    else
      var e := End(s, |s|, NotSpace);
      if e == 0 then [s] else SplitAtSpaces(s[..e - 1]) + [s[e..]]
  }

  // A word and a word are one space apart.
  lemma WordsAreSpaced(context: string, word: string)
    requires context != "" && word != "" && IsAlnum(context[|context| - 1]) && IsAlnum(word[0])
    ensures Join(context, word) == context + " " + word
  {
    var last := context[|context| - 1];
    assert !IsPunctuation(last);
  }

  lemma SplitOffLast(s: string, word: string)
    requires s != "" && word != "" && All(word, NotSpace)
    ensures SplitAtSpaces(s + " " + word) == SplitAtSpaces(s) + [word]
  {
    var t := s + " " + word;
    assert t[|s|] == ' ';
    assert forall i | |s| < i < |t| :: t[i] == word[i - |s| - 1];
    assert End(t, |t|, NotSpace) == |s| + 1;
    assert t[..|s|] == s && t[|s| + 1..] == word;
  }

  lemma SplitOne(word: string)
    requires word != "" && All(word, NotSpace)
    ensures SplitAtSpaces(word) == [word]
  {
    assert End(word, |word|, NotSpace) == 0;
  }

  predicate IsWord(word: string) {
    word != "" && All(word, IsAlnum)
  }

  predicate EndsInWord(s: string) {
    s != "" && IsAlnum(s[|s| - 1])
  }

  lemma OneMoreWord(s: string, word: string)
    requires EndsInWord(s) && IsWord(word)
    ensures SplitAtSpaces(Join(s, word)) == SplitAtSpaces(s) + [word] && EndsInWord(Join(s, word))
  {
    WordsAreSpaced(s, word);
    SplitOffLast(s, word);
    assert (s + " " + word)[|s| + |word|] == word[|word| - 1];
  }

  // s is a transcript whose words are `words`.
  predicate Spells(s: string, words: seq<string>) {
    SplitAtSpaces(s) == words && if words == [] then s == "" else EndsInWord(s)
  }

  lemma SpellsOneMore(s: string, words: seq<string>, word: string)
    requires Spells(s, words) && IsWord(word)
    ensures Spells(Join(s, word), words + [word])
  {
    if words == [] {
      JoinUnit(word);
      SplitOne(word);
    } else {
      OneMoreWord(s, word);
    }
  }

  predicate AreWords(words: seq<string>) {
    forall i | 0 <= i < |words| :: IsWord(words[i])
  }

  lemma LastWord(words: seq<string>)
    requires words != [] && AreWords(words)
    ensures AreWords(words[..|words| - 1]) && IsWord(words[|words| - 1])
    ensures words == words[..|words| - 1] + [words[|words| - 1]]
  {
  }

  // Dictating words and splitting the transcript at its spaces gives the words back: there is
  // one space between any two, and nowhere else.
  lemma {:induction false} WordsComeBack(words: seq<string>)
    requires AreWords(words)
    ensures Spells(JoinAll(words), words)
  {
    if words != [] {
      LastWord(words);
      WordsComeBack(words[..|words| - 1]);
      SpellsOneMore(JoinAll(words[..|words| - 1]), words[..|words| - 1], words[|words| - 1]);
    }
  }

  function Concat(texts: seq<string>): string {
    if texts == [] then "" else Concat(texts[..|texts| - 1]) + texts[|texts| - 1]
  }

  // No space next to an ideograph, kana or Hangul, whichever side it is on.
  lemma EastAsianIsUnspaced(context: string, text: string)
    requires context != "" && text != ""
    requires IsEastAsian(context[|context| - 1]) || IsEastAsian(text[0])
    ensures Join(context, text) == context + text
  {
  }

  // So dictating such text is plain concatenation.
  lemma {:induction false} EastAsianIsConcatenated(texts: seq<string>)
    requires forall i | 0 <= i < |texts| :: All(texts[i], IsEastAsian)
    ensures JoinAll(texts) == Concat(texts)
  {
    if texts != [] {
      var before, text := texts[..|texts| - 1], texts[|texts| - 1];
      EastAsianIsConcatenated(before);
      if JoinAll(before) != "" && text != "" {
        EastAsianIsUnspaced(JoinAll(before), text);
      }
    }
  }

  // Nothing is put after white space, a quote, a closing bracket or a mark that ends or
  // interrupts a sentence.
  lemma BreakIsUnspaced(context: string, text: string)
    requires context != ""
    requires var last := context[|context| - 1];
      || last in " \t\n\r\U{00A0}\U{3000}"
      || last in ",.!?;:\"'" || last in "\U{FF0C}\U{3002}\U{FF01}\U{FF1F}\U{FF1B}\U{FF1A}\U{3001}"
      || last in "\U{2026}\U{2014}\U{00B7}" || last in "\U{FF09}\U{300D}\U{3011}\U{300B}\U{3009}"
      || last in "\U{201C}\U{201D}\U{2018}\U{2019}"
    ensures Join(context, text) == context + text
  {
  }

  // ---- truncation ----

  lemma TailOfConcat(a: string, b: string, m: nat)
    ensures Tail(Tail(a, m) + b, m) == Tail(a + b, m)
  {
    if |a| > m {
      var d := |a| - m;
      assert (a + b)[d..] == a[d..] + b;
      assert (a + b)[|b| + d..] == (a + b)[d..][|b|..];
    }
  }

  lemma TailKeepsLast(s: string, m: nat)
    requires s != "" && m >= 1
    ensures Tail(s, m) != "" && Tail(s, m)[|Tail(s, m)| - 1] == s[|s| - 1]
  {
  }

  lemma JoinByLast(context: string, text: string)
    requires context != "" && text != ""
    ensures Join(context, text) == context + (Seam(context, text) + text)
  {
    JoinIsSeam(context, text);
    assert context + Seam(context, text) + text == context + (Seam(context, text) + text);
  }

  // Truncating the context first makes no difference to the end of the result.
  lemma TruncationCommutes(context: string, text: string, m: nat)
    requires m >= 1
    ensures Tail(Join(Tail(context, m), text), m) == Tail(Join(context, text), m)
  {
    if context != "" && text != "" {
      TailKeepsLast(context, m);
      JoinByLast(context, text);
      JoinByLast(Tail(context, m), text);
      assert Seam(Tail(context, m), text) == Seam(context, text);
      TailOfConcat(context, Seam(context, text) + text, m);
    } else {
      TailOfConcat(context, text, m);
    }
  }

  // ---- the result of one call ----

  predicate IsNoSpeech(text: string) {
    text == "" || Contains(TrimSpace(text), NO_SPEECH)
  }

  lemma ContainsInSlice(s: string, p: nat, q: nat, key: string, i: nat)
    requires p <= i && i + |key| <= q <= |s| && s[i..i + |key|] == key
    ensures Contains(s[p..q], key)
  {
    assert s[p..q][i - p..][..|key|] == s[i..i + |key|];
  }

  lemma SliceOf(s: string, p: nat, q: nat, key: string)
    requires p <= q <= |s| && Contains(s[p..q], key)
    ensures Contains(s, key)
  {
    var j :| 0 <= j <= q - p && key <= s[p..q][j..];
    assert s[p + j..][..|key|] == s[p..q][j..][..|key|];
  }

  // What lies between two characters that are not white space is not trimmed.
  lemma TrimKeepsSpan(text: string, i: nat, j: nat)
    requires i <= j < |text| && !IsSpace(text[i]) && !IsSpace(text[j])
    ensures var b := Begin(text, 0, IsSpace);
            b <= i && j < b + End(text[b..], |text[b..]|, IsSpace)
  {
    var b := Begin(text, 0, IsSpace);
    assert b <= i;
    assert text[b..][j - b] == text[j];
  }

  // A key that neither starts nor ends with white space is contained in a text exactly when
  // it is contained in the trimmed text.
  lemma TrimmingKeepsKey(text: string, key: string)
    requires key != "" && !IsSpace(key[0]) && !IsSpace(key[|key| - 1])
    ensures Contains(TrimSpace(text), key) <==> Contains(text, key)
  {
    if Contains(text, key) {
      var i :| 0 <= i <= |text| && key <= text[i..];
      assert text[i..][..|key|] == text[i..i + |key|];
      TrimKeepsSpan(text, i, i + |key| - 1);
      var b, e := TrimSpaceIsSlice(text);
      ContainsInSlice(text, b, e, key, i);
    }
    if Contains(TrimSpace(text), key) {
      var b, e := TrimSpaceIsSlice(text);
      SliceOf(text, b, e, key);
    }
  }

  // Any text with the sentinel in it is no speech, and besides the empty text no other.
  lemma SentinelIsNoSpeech(text: string)
    ensures IsNoSpeech(text) <==> text == "" || Contains(text, NO_SPEECH)
  {
    assert NO_SPEECH[0] == '[' && NO_SPEECH[|NO_SPEECH| - 1] == ']';
    TrimmingKeepsKey(text, NO_SPEECH);
  }

  function AppendResult(context: string, raw: string): string {
    if IsNoSpeech(raw) then context
    else if context != "" then Join(context, raw)
    else raw
  }

  // What the user already had is never touched.
  lemma ContextIsKept(context: string, raw: string)
    ensures context <= AppendResult(context, raw)
    ensures AppendResult(context, raw) == context <==> IsNoSpeech(raw)
  {
  }

  // ---- dictation sessions ----

  // Each result comes back as the next context, cut to its last m code points on arrival.
  function Session(raws: seq<string>, m: nat): string {
    if raws == [] then ""
    else AppendResult(Tail(Session(raws[..|raws| - 1], m), m), raws[|raws| - 1])
  }

  function Spoken(raws: seq<string>): seq<string> {
    if raws == [] then []
    else
      var before := Spoken(raws[..|raws| - 1]);
      if IsNoSpeech(raws[|raws| - 1]) then before else before + [raws[|raws| - 1]]
  }

  lemma TailTail(s: string, m: nat)
    ensures Tail(Tail(s, m), m) == Tail(s, m)
  {
  }

  // The session's last m code points are those of the whole dictation, never truncated.
  lemma {:induction false} SessionAgreesWithTranscript(raws: seq<string>, m: nat)
    requires m >= 1
    ensures Tail(Session(raws, m), m) == Tail(JoinAll(Spoken(raws)), m)
  {
    if raws != [] {
      var raws', raw := raws[..|raws| - 1], raws[|raws| - 1];
      var context := Session(raws', m);
      var spoken := Spoken(raws');
      SessionAgreesWithTranscript(raws', m);
      if IsNoSpeech(raw) {
        TailTail(context, m);
      } else {
        JoinUnit(raw);
        assert AppendResult(Tail(context, m), raw) == Join(Tail(context, m), raw);
        assert (spoken + [raw])[..|spoken|] == spoken;
        TruncationCommutes(context, raw, m);
        TruncationCommutes(JoinAll(spoken), raw, m);
      }
    }
  }

  // As long as no context outgrew m, nothing is lost at all.
  lemma {:induction false} ShortSessionsAreWhole(raws: seq<string>, m: nat)
    requires forall k | 0 <= k < |raws| :: |JoinAll(Spoken(raws[..k]))| <= m
    ensures Session(raws, m) == JoinAll(Spoken(raws))
  {
    if raws != [] {
      var raws', raw := raws[..|raws| - 1], raws[|raws| - 1];
      assert forall k | 0 <= k < |raws'| :: raws'[..k] == raws[..k];
      ShortSessionsAreWhole(raws', m);
      assert |JoinAll(Spoken(raws[..|raws'|]))| <= m && raws[..|raws'|] == raws';
      var spoken := Spoken(raws');
      JoinUnit(raw);
      assert (spoken + [raw])[..|spoken|] == spoken;
    }
  }
}
