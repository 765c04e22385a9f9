/**
 Building the system prompt: the placeholders a template contains are collected and replaced
 in one left-to-right pass.
 */
module PromptTemplate {
  import opened Wrappers
  import opened Text

  type Key = k: string | k != "" witness "{"

  // A placeholder and the text to put in its place.
  datatype Pair = Pair(key: Key, value: string)

  // The first pair, in argument order, whose key starts s.
  function Match(pairs: seq<Pair>, s: string): (r: Option<Pair>)
    ensures r.Some? ==> r.value in pairs && r.value.key <= s
    ensures r.None? ==> forall p | p in pairs :: !(p.key <= s)
  {
    if pairs == [] then None
    else if pairs[0].key <= s then Some(pairs[0])
    else Match(pairs[1..], s)
  }

  // strings.NewReplacer(pairs...).Replace(s): matches are taken left to right without overlap,
  // and what was put in is not looked at again.
  function Replace(pairs: seq<Pair>, s: string): string
    decreases |s|
  {
    if s == "" then ""
    else match Match(pairs, s)
      case Some(p) => p.value + Replace(pairs, s[|p.key|..])
      case None => [s[0]] + Replace(pairs, s[1..])
  }

  lemma {:induction false} ReplaceNothing(s: string)
    ensures Replace([], s) == s
    decreases |s|
  {
    if s != "" { ReplaceNothing(s[1..]); }
  }

  // ---- dropping keys that do not occur ----

  function Present(pairs: seq<Pair>, template: string): (r: seq<Pair>)
    ensures forall p :: p in r <==> p in pairs && Contains(template, p.key)
  {
    if pairs == [] then []
    else (if Contains(template, pairs[0].key) then [pairs[0]] else []) + Present(pairs[1..], template)
  }

  lemma {:induction false} PresentSnoc(pairs: seq<Pair>, p: Pair, template: string)
    ensures Present(pairs + [p], template)
         == Present(pairs, template) + (if Contains(template, p.key) then [p] else [])
    decreases |pairs|
  {
    if pairs == [] {
      assert [] + [p] == [p] && [p][1..] == [];
    } else {
      assert (pairs + [p])[1..] == pairs[1..] + [p];
      PresentSnoc(pairs[1..], p, template);
    }
  }

  lemma {:induction false} MatchPresent(pairs: seq<Pair>, template: string, i: nat)
    requires i <= |template|
    ensures Match(Present(pairs, template), template[i..]) == Match(pairs, template[i..])
    decreases |pairs|
  {
    if pairs != [] {
      MatchPresent(pairs[1..], template, i);
      var rest := Present(pairs[1..], template);
      assert ([pairs[0]] + rest)[1..] == rest;
      assert [] + rest == rest;
    }
  }

  lemma DropDrop(template: string, i: nat, n: nat)
    requires i + n <= |template|
    ensures template[i..][n..] == template[i + n..]
  {
  }

  ghost predicate SameMatches(a: seq<Pair>, b: seq<Pair>, template: string) {
    forall i | 0 <= i <= |template| :: Match(a, template[i..]) == Match(b, template[i..])
  }

  lemma ReplaceOnce(pairs: seq<Pair>, s: string, start: string, rest: string)
    requires s != ""
    requires var m := Match(pairs, s);
             if m.Some? then start == m.value.value && rest == s[|m.value.key|..] else start == [s[0]] && rest == s[1..]
    ensures Replace(pairs, s) == start + Replace(pairs, rest)
  {
  }

  lemma {:induction false} SameReplacement(a: seq<Pair>, b: seq<Pair>, template: string, i: nat)
    requires SameMatches(a, b, template) && i <= |template|
    ensures Replace(a, template[i..]) == Replace(b, template[i..])
    decreases |template| - i
  {
    if i < |template| {
      var s := template[i..];
      var m := Match(a, s);
      assert m == Match(b, s);
      var n := if m.Some? then |m.value.key| else 1;
      var start := if m.Some? then m.value.value else [s[0]];
      var rest := template[i + n..];
      DropDrop(template, i, n);
      ReplaceOnce(a, s, start, rest);
      ReplaceOnce(b, s, start, rest);
      SameReplacement(a, b, template, i + n);
    }
  }

  // For every template, passing only the keys it contains is passing them all.
  lemma ReplacePresent(pairs: seq<Pair>, template: string)
    ensures Replace(Present(pairs, template), template) == Replace(pairs, template)
  {
    forall i | 0 <= i <= |template|
      ensures Match(Present(pairs, template), template[i..]) == Match(pairs, template[i..])
    {
      MatchPresent(pairs, template, i);
    }
    SameReplacement(Present(pairs, template), pairs, template, 0);
    assert template[0..] == template;
  }

  // ---- the order of the keys ----

  ghost predicate PrefixFree(pairs: seq<Pair>) {
    forall p, q | p in pairs && q in pairs && p.key <= q.key :: p == q
  }

  lemma MatchIsUnique(pairs: seq<Pair>, p: Pair, s: string)
    requires PrefixFree(pairs) && p in pairs && p.key <= s
    ensures Match(pairs, s) == Some(p)
  {
    var q := Match(pairs, s).value;
    if |p.key| <= |q.key| {
      assert p.key <= q.key;
    } else {
      assert q.key <= p.key;
    }
  }

  // With prefix-free keys the order of the pairs is irrelevant, and so is repetition.
  lemma {:induction false} OrderIsIrrelevant(a: seq<Pair>, b: seq<Pair>, s: string)
    requires PrefixFree(a) && PrefixFree(b) && forall p :: p in a <==> p in b
    ensures Replace(a, s) == Replace(b, s)
    decreases |s|
  {
    if s != "" {
      match Match(a, s)
      case Some(p) =>
        MatchIsUnique(b, p, s);
        OrderIsIrrelevant(a, b, s[|p.key|..]);
      case None =>
        OrderIsIrrelevant(a, b, s[1..]);
    }
  }

  // ---- templates as their author reads them ----

  datatype Segment = Literal(text: string) | Hole(pair: Pair)

  function Source(segments: seq<Segment>): string {
    if segments == [] then ""
    else (match segments[0] case Literal(text) => text case Hole(p) => p.key) + Source(segments[1..])
  }

  function Filled(segments: seq<Segment>): string {
    if segments == [] then ""
    else (match segments[0] case Literal(text) => text case Hole(p) => p.value) + Filled(segments[1..])
  }

  ghost predicate WellFormed(segments: seq<Segment>, pairs: seq<Pair>) {
    (forall p | p in pairs :: p.key[0] == '{') &&
    forall i | 0 <= i < |segments| ::
      match segments[i]
      case Literal(text) => '{' !in text
      case Hole(p) => p in pairs
  }

  lemma {:induction false} ReplaceSkips(pairs: seq<Pair>, text: string, rest: string)
    requires '{' !in text && forall p | p in pairs :: p.key[0] == '{'
    ensures Replace(pairs, text + rest) == text + Replace(pairs, rest)
    decreases |text|
  {
    if text == "" {
      assert "" + rest == rest;
    } else {
      var s := text + rest;
      assert s[0] == text[0] != '{' && s[1..] == text[1..] + rest;
      assert Match(pairs, s).None?;
      ReplaceOnce(pairs, s, [text[0]], text[1..] + rest);
      ReplaceSkips(pairs, text[1..], rest);
      assert text == [text[0]] + text[1..];
      assert [text[0]] + (text[1..] + Replace(pairs, rest)) == text + Replace(pairs, rest);
    }
  }

  lemma ReplaceFills(pairs: seq<Pair>, p: Pair, rest: string)
    requires PrefixFree(pairs) && p in pairs
    ensures Replace(pairs, p.key + rest) == p.value + Replace(pairs, rest)
  {
    MatchIsUnique(pairs, p, p.key + rest);
    assert (p.key + rest)[|p.key|..] == rest;
  }

  // A template of brace-free literals and placeholders comes out as its literals with each
  // placeholder replaced once; braces in a value are left alone.
  lemma {:induction false} ReplaceIsFilling(pairs: seq<Pair>, segments: seq<Segment>)
    requires PrefixFree(pairs) && WellFormed(segments, pairs)
    ensures Replace(pairs, Source(segments)) == Filled(segments)
    decreases |segments|
  {
    if segments != [] {
      assert WellFormed(segments[1..], pairs);
      ReplaceIsFilling(pairs, segments[1..]);
      match segments[0]
      case Literal(text) => ReplaceSkips(pairs, text, Source(segments[1..]));
      case Hole(p) => ReplaceFills(pairs, p, Source(segments[1..]));
    }
  }

  // ---- BuildSystemMessage ----

  datatype Prompts = Prompts(
    system: string, systemAppendOnly: string, systemEditOnly: string,
    systemOverridden: bool, appendOnlyOverridden: bool, editOnlyOverridden: bool,
    rule5TitleWithEmotion: string, rule5TitleNoEmotion: string,
    emotionSection: string, emotionExamples: string,
    editOnlyEmotionExamples: string, editOnlyEmotionSection: string,
    mentionSection: string, editSection: string)

  function Template(ps: Prompts, mode: string): string {
    match mode
    case "append" =>
      if ps.appendOnlyOverridden || !ps.systemOverridden then ps.systemAppendOnly else ps.system
    case "edit_only" =>
      if ps.editOnlyOverridden || !ps.systemOverridden then ps.systemEditOnly else ps.system
    case _ => ps.system
  }

  // The table of placeholders, resolved.
  function Placeholders(ps: Prompts, emotion: bool, skipMention: bool): seq<Pair> {
    [Pair("{{RULE5_TITLE}}", if emotion then ps.rule5TitleWithEmotion else ps.rule5TitleNoEmotion),
     Pair("{{EMOTION_SECTION}}", if emotion then ps.emotionSection else ""),
     Pair("{{EMOTION_EXAMPLES}}", if emotion then ps.emotionExamples else ""),
     Pair("{{EDIT_ONLY_EMOTION_EXAMPLES}}", if emotion then ps.editOnlyEmotionExamples else ""),
     Pair("{{EDIT_ONLY_EMOTION_SECTION}}", if emotion then ps.editOnlyEmotionSection else ""),
     Pair("{{MENTION_SECTION}}", if !skipMention then ps.mentionSection else "")]
  }

  function EditPair(ps: Prompts, mode: string): Pair {
    Pair("{{EDIT_SECTION}}", if mode == "edit" || mode == "edit_only" then ps.editSection else "")
  }

  function AllPairs(ps: Prompts, emotion: bool, skipMention: bool, mode: string): seq<Pair> {
    Placeholders(ps, emotion, skipMention) + [EditPair(ps, mode)]
  }

  method CollectPairs(table: seq<Pair>, tmpl: string) returns (pairs: seq<Pair>)
    ensures pairs == Present(table, tmpl)
  {
    pairs := [];
    for i := 0 to |table|
      invariant pairs == Present(table[..i], tmpl)
    {
      PresentSnoc(table[..i], table[i], tmpl);
      assert table[..i + 1] == table[..i] + [table[i]];
      if Contains(tmpl, table[i].key) {
        pairs := pairs + [table[i]];
      }
    }
    assert table[..|table|] == table;
  }

  method BuildSystemMessage(ps: Prompts, emotion: bool, skipMention: bool, mode: string) returns (r: string)
    ensures r == SystemMessage(ps, emotion, skipMention, mode)
  {
    var tmpl := Template(ps, mode);
    var table, edit := Placeholders(ps, emotion, skipMention), EditPair(ps, mode);
    var pairs := CollectPairs(table, tmpl);
    PresentSnoc(table, edit, tmpl);
    if Contains(tmpl, edit.key) {
      pairs := pairs + [edit];
    }
    assert pairs == Present(table + [edit], tmpl);
    ReplacePresent(table + [edit], tmpl);
    if |pairs| == 0 {
      ReplaceNothing(tmpl);
      return tmpl;
    }
    r := Replace(pairs, tmpl);
  }

  // A key: two braces, a name without a closing brace, two braces.
  ghost predicate IsPlaceholder(k: string) {
    && |k| >= 4 && k[0] == '{' && k[|k| - 2] == '}' && k[|k| - 1] == '}'
    && forall i | 0 <= i < |k| - 2 :: k[i] != '}'
  }

  lemma PlaceholderPrefix(a: string, b: string)
    requires IsPlaceholder(a) && IsPlaceholder(b) && a <= b
    ensures a == b
  {
    assert b[|a| - 2] == a[|a| - 2] == '}';
    assert |b| - 2 <= |a| - 2;
  }

  // The keys of the table, in its order.
  const KEYS: seq<string> :=
    ["{{RULE5_TITLE}}", "{{EMOTION_SECTION}}", "{{EMOTION_EXAMPLES}}", "{{EDIT_ONLY_EMOTION_EXAMPLES}}",
     "{{EDIT_ONLY_EMOTION_SECTION}}", "{{MENTION_SECTION}}", "{{EDIT_SECTION}}"]

  lemma KeysDiffer(i: nat, j: nat)
    requires i < 7 && j < 7 && KEYS[i] == KEYS[j]
    ensures i == j
  {
    assert KEYS[0] == "{{RULE5_TITLE}}" && |KEYS[0]| == 15;
    assert KEYS[1] == "{{EMOTION_SECTION}}" && |KEYS[1]| == 19 && KEYS[1][2] == 'E';
    assert KEYS[2] == "{{EMOTION_EXAMPLES}}" && |KEYS[2]| == 20;
    assert KEYS[3] == "{{EDIT_ONLY_EMOTION_EXAMPLES}}" && |KEYS[3]| == 30;
    assert KEYS[4] == "{{EDIT_ONLY_EMOTION_SECTION}}" && |KEYS[4]| == 29;
    assert KEYS[5] == "{{MENTION_SECTION}}" && |KEYS[5]| == 19 && KEYS[5][2] == 'M';
    assert KEYS[6] == "{{EDIT_SECTION}}" && |KEYS[6]| == 16;
  }

  lemma KeysArePlaceholders(i: nat)
    requires i < 7
    ensures IsPlaceholder(KEYS[i])
  {
  }

  lemma KeysOfAllPairs(ps: Prompts, emotion: bool, skipMention: bool, mode: string)
    ensures var pairs := AllPairs(ps, emotion, skipMention, mode);
            |pairs| == 7 && forall i | 0 <= i < 7 :: pairs[i].key == KEYS[i]
  {
  }

  lemma KeyedPairsPrefixFree(pairs: seq<Pair>)
    requires |pairs| == 7 && forall i | 0 <= i < 7 :: pairs[i].key == KEYS[i]
    ensures PrefixFree(pairs) && forall p | p in pairs :: p.key[0] == '{'
  {
    forall p, q | p in pairs && q in pairs && p.key <= q.key ensures p == q {
      var i :| 0 <= i < 7 && pairs[i] == p;
      var j :| 0 <= j < 7 && pairs[j] == q;
      KeysArePlaceholders(i);
      KeysArePlaceholders(j);
      PlaceholderPrefix(p.key, q.key);
      KeysDiffer(i, j);
    }
    forall p | p in pairs ensures p.key[0] == '{' {
      var i :| 0 <= i < 7 && pairs[i] == p;
      KeysArePlaceholders(i);
    }
  }

  // The seven keys are prefix-free, whatever the texts behind them.
  lemma AllPairsPrefixFree(ps: Prompts, emotion: bool, skipMention: bool, mode: string)
    ensures PrefixFree(AllPairs(ps, emotion, skipMention, mode))
  {
    KeysOfAllPairs(ps, emotion, skipMention, mode);
    KeyedPairsPrefixFree(AllPairs(ps, emotion, skipMention, mode));
  }

  // The message of one request.
  function SystemMessage(ps: Prompts, emotion: bool, skipMention: bool, mode: string): string {
    Replace(AllPairs(ps, emotion, skipMention, mode), Template(ps, mode))
  }

  // What the maintainers of the prompts rely on: the message is the template with every
  // placeholder filled in.
  lemma SystemMessageIsFilledTemplate(ps: Prompts, emotion: bool, skipMention: bool, mode: string, segments: seq<Segment>)
    requires WellFormed(segments, AllPairs(ps, emotion, skipMention, mode))
    requires Template(ps, mode) == Source(segments)
    ensures SystemMessage(ps, emotion, skipMention, mode) == Filled(segments)
  {
    AllPairsPrefixFree(ps, emotion, skipMention, mode);
    ReplaceIsFilling(AllPairs(ps, emotion, skipMention, mode), segments);
  }

  // ---- what each setting changes ----

  // The template of a mode: its own unless only the general one was overridden.
  lemma TemplateOfMode(ps: Prompts)
    ensures Template(ps, "append") == ps.system <==>
      (ps.systemOverridden && !ps.appendOnlyOverridden) || ps.systemAppendOnly == ps.system
    ensures Template(ps, "append") in {ps.system, ps.systemAppendOnly}
    ensures Template(ps, "edit_only") == ps.system <==>
      (ps.systemOverridden && !ps.editOnlyOverridden) || ps.systemEditOnly == ps.system
    ensures Template(ps, "edit_only") in {ps.system, ps.systemEditOnly}
    ensures forall mode | mode != "append" && mode != "edit_only" :: Template(ps, mode) == ps.system
  {
  }

  // What a placeholder stands for under given settings.
  predicate StandsFor(ps: Prompts, emotion: bool, skipMention: bool, mode: string, key: string, value: string) {
    match key
    case "{{RULE5_TITLE}}" => value == if emotion then ps.rule5TitleWithEmotion else ps.rule5TitleNoEmotion
    case "{{EMOTION_SECTION}}" => value == if emotion then ps.emotionSection else ""
    case "{{EMOTION_EXAMPLES}}" => value == if emotion then ps.emotionExamples else ""
    case "{{EDIT_ONLY_EMOTION_EXAMPLES}}" => value == if emotion then ps.editOnlyEmotionExamples else ""
    case "{{EDIT_ONLY_EMOTION_SECTION}}" => value == if emotion then ps.editOnlyEmotionSection else ""
    case "{{MENTION_SECTION}}" => value == if skipMention then "" else ps.mentionSection
    case "{{EDIT_SECTION}}" => value == if mode == "edit" || mode == "edit_only" then ps.editSection else ""
    case _ => false
  }

  lemma MeaningIsPaired(ps: Prompts, emotion: bool, skipMention: bool, mode: string, key: Key, value: string)
    requires StandsFor(ps, emotion, skipMention, mode, key, value)
    ensures Pair(key, value) in AllPairs(ps, emotion, skipMention, mode)
  {
    var table := Placeholders(ps, emotion, skipMention);
    var pairs := table + [EditPair(ps, mode)];
    assert forall i | 0 <= i < 6 :: pairs[i] == table[i];
    assert pairs[6] == EditPair(ps, mode);
    match key
    case "{{RULE5_TITLE}}" => assert Pair(key, value) == table[0];
    case "{{EMOTION_SECTION}}" => assert Pair(key, value) == table[1];
    case "{{EMOTION_EXAMPLES}}" => assert Pair(key, value) == table[2];
    case "{{EDIT_ONLY_EMOTION_EXAMPLES}}" => assert Pair(key, value) == table[3];
    case "{{EDIT_ONLY_EMOTION_SECTION}}" => assert Pair(key, value) == table[4];
    case "{{MENTION_SECTION}}" => assert Pair(key, value) == table[5];
    case _ => assert Pair(key, value) == pairs[6];
  }

  // A template with one placeholder comes out with what it stands for in its place.
  lemma PlaceholdersMean(ps: Prompts, emotion: bool, skipMention: bool, mode: string, a: string, key: Key, value: string, b: string)
    requires '{' !in a && '{' !in b && Template(ps, mode) == a + key + b
    requires StandsFor(ps, emotion, skipMention, mode, key, value)
    ensures SystemMessage(ps, emotion, skipMention, mode) == a + value + b
  {
    var pairs := AllPairs(ps, emotion, skipMention, mode);
    MeaningIsPaired(ps, emotion, skipMention, mode, key, value);
    KeysOfAllPairs(ps, emotion, skipMention, mode);
    KeyedPairsPrefixFree(pairs);
    ReplaceHole(pairs, a, Pair(key, value), b);
  }

  lemma SegmentsCons(seg: Segment, rest: seq<Segment>)
    ensures Source([seg] + rest) == (if seg.Literal? then seg.text else seg.pair.key) + Source(rest)
    ensures Filled([seg] + rest) == (if seg.Literal? then seg.text else seg.pair.value) + Filled(rest)
  {
    assert ([seg] + rest)[1..] == rest;
  }

  lemma ReplaceHole(pairs: seq<Pair>, a: string, p: Pair, b: string)
    requires PrefixFree(pairs) && p in pairs && (forall q | q in pairs :: q.key[0] == '{')
    requires '{' !in a && '{' !in b
    ensures Replace(pairs, a + p.key + b) == a + p.value + b
  {
    var tail := [Literal(b)] + [];
    SegmentsCons(Literal(b), []);
    assert Source(tail) == b && Filled(tail) == b by { assert b + "" == b; }
    SegmentsCons(Hole(p), tail);
    SegmentsCons(Literal(a), [Hole(p)] + tail);
    assert a + (p.key + b) == a + p.key + b && a + (p.value + b) == a + p.value + b;
    ReplaceIsFilling(pairs, [Literal(a)] + ([Hole(p)] + tail));
  }

  lemma MentionLeftOut(ps: Prompts, emotion: bool, mode: string, x: string)
    ensures SystemMessage(ps.(mentionSection := x), emotion, true, mode) == SystemMessage(ps, emotion, true, mode)
  {
    assert Placeholders(ps.(mentionSection := x), emotion, true) == Placeholders(ps, emotion, true);
  }

  lemma EmotionLeftOut(ps: Prompts, skipMention: bool, mode: string, x: string, y: string)
    ensures SystemMessage(ps.(emotionSection := x, emotionExamples := y, rule5TitleWithEmotion := x,
                              editOnlyEmotionExamples := y, editOnlyEmotionSection := x), false, skipMention, mode)
         == SystemMessage(ps, false, skipMention, mode)
  {
    assert Placeholders(ps.(emotionSection := x, emotionExamples := y, rule5TitleWithEmotion := x,
                            editOnlyEmotionExamples := y, editOnlyEmotionSection := x), false, skipMention)
        == Placeholders(ps, false, skipMention);
  }

  lemma PlainTitleLeftOut(ps: Prompts, skipMention: bool, mode: string, x: string)
    ensures SystemMessage(ps.(rule5TitleNoEmotion := x), true, skipMention, mode) == SystemMessage(ps, true, skipMention, mode)
  {
    assert Placeholders(ps.(rule5TitleNoEmotion := x), true, skipMention) == Placeholders(ps, true, skipMention);
  }

  lemma EditLeftOut(ps: Prompts, emotion: bool, skipMention: bool, mode: string, x: string)
    requires mode != "edit" && mode != "edit_only"
    ensures SystemMessage(ps.(editSection := x), emotion, skipMention, mode) == SystemMessage(ps, emotion, skipMention, mode)
  {
    assert Placeholders(ps.(editSection := x), emotion, skipMention) == Placeholders(ps, emotion, skipMention);
  }

  // A text that a setting leaves out has no effect on the message, in any template.
  lemma LeftOutTextsDoNotMatter(ps: Prompts, emotion: bool, skipMention: bool, mode: string, x: string, y: string)
    ensures mode != "edit" && mode != "edit_only" ==>
      SystemMessage(ps.(editSection := x), emotion, skipMention, mode) == SystemMessage(ps, emotion, skipMention, mode)
    ensures skipMention ==>
      SystemMessage(ps.(mentionSection := x), emotion, skipMention, mode) == SystemMessage(ps, emotion, skipMention, mode)
    ensures !emotion ==>
      SystemMessage(ps.(emotionSection := x, emotionExamples := y, rule5TitleWithEmotion := x,
                        editOnlyEmotionExamples := y, editOnlyEmotionSection := x), emotion, skipMention, mode)
      == SystemMessage(ps, emotion, skipMention, mode)
    ensures emotion ==>
      SystemMessage(ps.(rule5TitleNoEmotion := x), emotion, skipMention, mode) == SystemMessage(ps, emotion, skipMention, mode)
  {
    if mode != "edit" && mode != "edit_only" { EditLeftOut(ps, emotion, skipMention, mode, x); }
    if skipMention { MentionLeftOut(ps, emotion, mode, x); }
    if emotion { PlainTitleLeftOut(ps, skipMention, mode, x); } else { EmotionLeftOut(ps, skipMention, mode, x, y); }
  }

  // Transcribe asks for the general prompt as long as there is nothing to edit.
  function PromptMode(mode: string, context: string): string {
    if (mode == "edit" || mode == "edit_only") && context == "" then "" else mode
  }

  // On a first utterance the editing modes send the prompt of plain transcription: neither the
  // editing template nor the editing section is in it. Otherwise a mode sends its own.
  lemma FirstUtteranceIsTranscribed(ps: Prompts, emotion: bool, skipMention: bool, mode: string, x: string, y: string)
    ensures mode == "edit" || mode == "edit_only" ==>
      SystemMessage(ps, emotion, skipMention, PromptMode(mode, ""))
      == SystemMessage(ps.(editSection := x, systemEditOnly := y), emotion, skipMention, "")
    ensures PromptMode("append", "") == "append"
    ensures forall context | context != "" :: PromptMode(mode, context) == mode
  {
  }
}
