/**
 Restoring the trailing whitespace a model trimmed, and the result chosen by Transcribe.
 */
module Whitespace {
  import opened Wrappers
  import opened Text
  import opened Transcript

  function Body(context: string): string {
    TrimRight(context, IsBlank)
  }

  function Trailing(context: string): string {
    context[|Body(context)|..]
  }

  function Restore(context: string, text: string): string {
    var body, trailing := Body(context), Trailing(context);
    if trailing == "" || body == "" then text
    else if body <= text then body + trailing + TrimLeft(text[|body|..], IsTabOrSpace)
    else TrimRight(text, IsBlank) + trailing
  }

  // ---- conservation ----

  // Of the first n characters, those that are not in the cutset " \t\n\r".
  function InkUpTo(s: string, n: nat): string
    requires n <= |s|
  {
    if n == 0 then ""
    else if IsBlank(s[n - 1]) then InkUpTo(s, n - 1)
    else InkUpTo(s, n - 1) + [s[n - 1]]
  }

  function Ink(s: string): string {
    InkUpTo(s, |s|)
  }

  lemma {:induction false} InkOfConcat(a: string, b: string, n: nat)
    requires n <= |b|
    ensures InkUpTo(a + b, |a| + n) == Ink(a) + InkUpTo(b, n)
  {
    if n == 0 {
      InkOfPrefix(a, b, |a|);
      assert Ink(a) + "" == Ink(a);
    } else {
      InkOfConcat(a, b, n - 1);
      assert (a + b)[|a| + n - 1] == b[n - 1];
      assert Ink(a) + (InkUpTo(b, n - 1) + [b[n - 1]]) == Ink(a) + InkUpTo(b, n - 1) + [b[n - 1]];
    }
  }

  lemma {:induction false} InkOfPrefix(a: string, b: string, n: nat)
    requires n <= |a|
    ensures InkUpTo(a + b, n) == InkUpTo(a, n)
  {
    if n > 0 { InkOfPrefix(a, b, n - 1); }
  }

  lemma InkConcat(a: string, b: string)
    ensures Ink(a + b) == Ink(a) + Ink(b)
  {
    InkOfConcat(a, b, |b|);
  }

  lemma {:induction false} BlankHasNoInk(s: string, n: nat)
    requires n <= |s| && All(s, IsBlank)
    ensures InkUpTo(s, n) == ""
  {
    if n > 0 { BlankHasNoInk(s, n - 1); }
  }

  lemma BlanksAround(a: string, s: string, b: string)
    requires All(a, IsBlank) && All(b, IsBlank)
    ensures Ink(a + s) == Ink(s) == Ink(s + b)
  {
    BlankHasNoInk(a, |a|);
    BlankHasNoInk(b, |b|);
    InkConcat(a, s);
    InkConcat(s, b);
    assert "" + Ink(s) == Ink(s) == Ink(s) + "";
  }

  lemma InkOfTrimmedLeft(s: string)
    ensures Ink(TrimLeft(s, IsTabOrSpace)) == Ink(s)
  {
    var b := Begin(s, 0, IsTabOrSpace);
    assert s == s[..b] + s[b..];
    BlanksAround(s[..b], s[b..], "");
  }

  lemma InkOfTrimmedRight(s: string)
    ensures Ink(TrimRight(s, IsBlank)) == Ink(s)
  {
    var e := End(s, |s|, IsBlank);
    assert s == s[..e] + s[e..];
    BlanksAround("", s[..e], s[e..]);
  }

  lemma TrailingIsBlank(context: string)
    ensures All(Trailing(context), IsBlank) && context == Body(context) + Trailing(context)
    ensures Body(context) != "" ==> !IsBlank(Body(context)[|Body(context)| - 1])
  {
  }

  // No visible character of the model's text is lost, added or moved.
  lemma RestoreConservesInk(context: string, text: string)
    ensures Ink(Restore(context, text)) == Ink(text)
  {
    var body, trailing := Body(context), Trailing(context);
    TrailingIsBlank(context);
    if body <= text {
      var rest := text[|body|..];
      assert text == body + rest;
      InkConcat(body, rest);
      InkOfTrimmedLeft(rest);
      InkConcat(body + trailing, TrimLeft(rest, IsTabOrSpace));
      BlanksAround("", body, trailing);
    } else {
      InkOfTrimmedRight(text);
      BlanksAround("", TrimRight(text, IsBlank), trailing);
    }
  }

  // ---- shape ----

  ghost predicate EndsWith(s: string, t: string) {
    |t| <= |s| && s[|s| - |t|..] == t
  }

  // The whole context comes first, or its trailing run comes last.
  lemma RestoreKeepsTheRun(context: string, text: string)
    requires Body(context) != ""
    ensures context <= Restore(context, text) || EndsWith(Restore(context, text), Trailing(context))
    ensures Body(context) <= text && Trailing(context) != "" ==> context <= Restore(context, text)
  {
    TrailingIsBlank(context);
  }

  // Unless the model ran on from the context, its text keeps its body and gets the context's
  // trailing run in place of its own.
  lemma RestoreSwapsTheRun(context: string, text: string)
    requires Trailing(context) != "" && Body(context) != "" && !(Body(context) <= text)
    ensures Body(Restore(context, text)) == Body(text) && Trailing(Restore(context, text)) == Trailing(context)
  {
    TrailingIsBlank(context);
    TrailingIsBlank(text);
    TrimRightOf(Body(text), Trailing(context), IsBlank);
    assert (Body(text) + Trailing(context))[|Body(text)|..] == Trailing(context);
  }

  // If it did, the result is the context and what the text goes on with, k characters in, past
  // the tabs and spaces.
  lemma RestoreSkipsBlanks(context: string, text: string) returns (k: nat)
    requires Trailing(context) != "" && Body(context) != "" && Body(context) <= text
    ensures |Body(context)| <= k <= |text| && All(text[|Body(context)|..k], IsTabOrSpace)
    ensures k < |text| ==> !IsTabOrSpace(text[k])
    ensures Restore(context, text) == context + text[k..]
  {
    var body := Body(context);
    TrailingIsBlank(context);
    var rest := text[|body|..];
    var b := Begin(rest, 0, IsTabOrSpace);
    k := |body| + b;
    assert rest[b..] == text[k..] && text[|body|..k] == rest[..b];
  }

  // ---- fixed points ----

  predicate PrefixBranch(context: string, text: string) {
    Trailing(context) != "" && Body(context) != "" && Body(context) <= text
  }

  // A prefix that ends in a visible character does not reach into the blanks.
  lemma PrefixBeforeBlanks(body: string, kept: string, run: string)
    requires body != "" && !IsBlank(body[|body| - 1]) && All(run, IsBlank) && body <= kept + run
    ensures body <= kept
  {
    assert body[|body| - 1] == (kept + run)[|body| - 1];
    assert |body| <= |kept|;
    assert body == (kept + run)[..|body|] == kept[..|body|];
  }

  lemma SuffixBranchIsStable(context: string, text: string)
    requires Trailing(context) != "" && Body(context) != "" && !(Body(context) <= text)
    ensures Restore(context, Restore(context, text)) == Restore(context, text)
  {
    var body, trailing := Body(context), Trailing(context);
    var kept := TrimRight(text, IsBlank);
    TrailingIsBlank(context);
    assert !(body <= kept + trailing) by {
      if body <= kept + trailing {
        PrefixBeforeBlanks(body, kept, trailing);
      }
    }
    TrimRightOf(kept, trailing, IsBlank);
  }

  // Text that runs on from the context: only what follows the body matters.
  lemma RestoreOfEcho(context: string, rest: string)
    requires Trailing(context) != "" && Body(context) != ""
    ensures Restore(context, Body(context) + rest) == Body(context) + Trailing(context) + TrimLeft(rest, IsTabOrSpace)
  {
    assert (Body(context) + rest)[|Body(context)|..] == rest;
  }

  lemma TrimLeftOfRun(run: string, kept: string)
    requires kept != "" ==> !IsTabOrSpace(kept[0])
    ensures TrimLeft(run + kept, IsTabOrSpace) == kept <==> All(run, IsTabOrSpace)
  {
    if All(run, IsTabOrSpace) {
      TrimLeftOf(run, kept, IsTabOrSpace);
    } else {
      var i :| 0 <= i < |run| && !IsTabOrSpace(run[i]);
      assert (run + kept)[i] == run[i];
      assert Begin(run + kept, 0, IsTabOrSpace) <= i;
    }
  }

  lemma PrefixBranchTwice(context: string, text: string)
    requires PrefixBranch(context, text)
    ensures Restore(context, Restore(context, text)) == Restore(context, text) <==> All(Trailing(context), IsTabOrSpace)
  {
    var body, trailing := Body(context), Trailing(context);
    var kept := TrimLeft(text[|body|..], IsTabOrSpace);
    var once := Restore(context, text);
    assert once == body + trailing + kept;
    assert body + trailing + kept == body + (trailing + kept);
    var again := TrimLeft(trailing + kept, IsTabOrSpace);
    assert Restore(context, once) == body + trailing + again by {
      RestoreOfEcho(context, trailing + kept);
    }
    TrimLeftOfRun(trailing, kept);
    SamePrefix(body + trailing, again, kept);
  }

  lemma SamePrefix(p: string, a: string, b: string)
    ensures p + a == p + b <==> a == b
  {
    if p + a == p + b {
      assert a == (p + a)[|p|..] == (p + b)[|p|..] == b;
    }
  }

  // Restoring twice is restoring once, except when the model echoed the context in front and
  // the trailing run has a line break in it: then the run is repeated.
  lemma RestoreIdempotence(context: string, text: string)
    ensures Restore(context, Restore(context, text)) == Restore(context, text)
            <==> !PrefixBranch(context, text) || All(Trailing(context), IsTabOrSpace)
  {
    if PrefixBranch(context, text) {
      PrefixBranchTwice(context, text);
    } else if Trailing(context) != "" && Body(context) != "" {
      SuffixBranchIsStable(context, text);
    }
  }

  // ---- the edit that changes nothing ----

  lemma SpaceCoversBlank(s: string)
    requires All(s, IsBlank)
    ensures All(s, IsSpace)
  {
  }

  // The model answers with its text trimmed. Echoing the buffer gives the buffer back exactly
  // when there is nothing to trim but the run that is restored.
  lemma EchoRestoresTheBuffer(context: string)
    ensures Restore(context, TrimSpace(context)) == context
            <==> context == "" || (Body(context) != "" && TrimSpace(context) == Body(context))
  {
    var body, trailing := Body(context), Trailing(context);
    if body == "" {
      EchoOfBlank(context);
    } else if trailing == "" {
      assert body == context;
    } else if TrimSpace(context) == body {
      EchoOfBody(context);
    } else {
      EchoOfPadded(context);
    }
  }

  lemma EchoOfBody(context: string)
    requires Body(context) != "" && Trailing(context) != ""
    ensures Restore(context, Body(context)) == context
  {
    assert Body(context) + "" == Body(context);
    RestoreOfEcho(context, "");
    assert context == Body(context) + Trailing(context) + "";
  }

  lemma EchoOfBlank(context: string)
    requires Body(context) == ""
    ensures TrimSpace(context) == ""
  {
    SpaceCoversBlank(context);
    assert context == context + "";
    TrimLeftOf(context, "", IsSpace);
  }

  // Something besides the trailing run was trimmed, and it does not come back.
  lemma EchoOfPadded(context: string)
    requires Body(context) != "" && Trailing(context) != "" && TrimSpace(context) != Body(context)
    ensures Restore(context, TrimSpace(context)) != context
  {
    var body, trailing := Body(context), Trailing(context);
    var text := TrimSpace(context);
    assert context == body + trailing;
    TrimSpaceStopsAtBody(context);
    assert |text| < |body|;
    assert |TrimRight(text, IsBlank)| <= |text|;
  }

  lemma TrimSpaceStopsAtBody(context: string)
    ensures |TrimSpace(context)| <= |Body(context)|
    ensures |TrimSpace(context)| == |Body(context)| ==> TrimSpace(context) == Body(context)
  {
    var body, trailing := Body(context), Trailing(context);
    SpaceCoversBlank(trailing);
    var p, q := TrimSpaceIsSlice(context);
    assert forall i | |body| <= i < |context| :: context[i] == trailing[i - |body|];
    assert p < q ==> q <= |body|;
  }

  // ---- the result Transcribe chooses ----

  const APPEND := "append"
  const EDIT := "edit"
  const EDIT_ONLY := "edit_only"

  function SelectResult(mode: string, context: string, raw: string): string {
    if mode == APPEND then AppendResult(context, raw)
    else if raw == NO_SPEECH then context
    else if context != "" then Restore(context, raw)
    else raw
  }

  const GPT := "gpt"

  // The text Transcribe returns for the model's answer; None is ErrGPTEditNotSupported.
  function Transcribe(engine: string, cfgMode: string, optMode: string, context: string, raw: string): Option<string> {
    var asked := if optMode != "" then optMode else cfgMode;
    var mode := if engine == GPT && asked == EDIT then APPEND else asked;
    if engine == GPT && mode == EDIT_ONLY then None else Some(SelectResult(mode, context, raw))
  }

  // The mode of the request wins over the configured one.
  lemma OptionWins(engine: string, cfgMode: string, other: string, optMode: string, context: string, raw: string)
    ensures optMode != "" ==>
      Transcribe(engine, cfgMode, optMode, context, raw) == Transcribe(engine, other, optMode, context, raw)
    ensures cfgMode != "" ==>
      Transcribe(engine, cfgMode, "", context, raw) == Transcribe(engine, other, cfgMode, context, raw)
  {
  }

  // In every mode but append the model's text replaces the buffer: its visible characters are
  // the result's, and only a buffer with text and a trailing run leaves anything, namely that.
  lemma EditReplacesTheBuffer(engine: string, cfgMode: string, optMode: string, context: string, raw: string)
    requires engine != GPT && raw != NO_SPEECH
    requires if optMode == "" then cfgMode != "append" else optMode != "append"
    ensures var r := Transcribe(engine, cfgMode, optMode, context, raw);
            && r.Some? && Ink(r.value) == Ink(raw)
            && (context == "" || Body(context) == "" || Trailing(context) == "" ==> r.value == raw)
            && (context != "" ==> r.value == Restore(context, raw))
            && (Body(context) != "" ==> context <= r.value || EndsWith(r.value, Trailing(context)))
  {
    if context != "" {
      RestoreConservesInk(context, raw);
      if Body(context) != "" { RestoreKeepsTheRun(context, raw); }
    }
  }

  // In append mode the buffer comes first and speech is joined to it.
  lemma AppendKeepsTheBuffer(engine: string, cfgMode: string, optMode: string, context: string, raw: string)
    requires (if optMode == "" then cfgMode else optMode) == "append"
    ensures var r := Transcribe(engine, cfgMode, optMode, context, raw);
            && r.Some? && context <= r.value
            && (r.value == context <==> raw == "" || Contains(raw, NO_SPEECH))
            && (raw != "" && !Contains(raw, NO_SPEECH) ==> r.value == JoinAll([context, raw]))
  {
    assert APPEND != EDIT_ONLY && |APPEND| != |EDIT_ONLY|;
    ContextIsKept(context, raw);
    SentinelIsNoSpeech(raw);
    JoinAllTwo(context, raw);
    JoinUnit(raw);
  }

  lemma JoinAllTwo(a: string, b: string)
    ensures JoinAll([a, b]) == Join(a, b)
  {
    assert [a, b][..1] == [a] && [a][..0] == [];
    assert JoinAll([a]) == Join("", a) == a;
  }

  // With the modes the configuration and the API let through, the GPT engine only ever appends.
  lemma GptOnlyAppends(cfgMode: string, optMode: string, context: string, raw: string)
    requires cfgMode == EDIT || cfgMode == APPEND
    requires optMode == "" || optMode == APPEND || optMode == EDIT_ONLY
    ensures Transcribe(GPT, cfgMode, optMode, context, raw)
         == if optMode == EDIT_ONLY then None else Some(AppendResult(context, raw))
  {
    assert APPEND != EDIT && APPEND != EDIT_ONLY;
    assert |APPEND| != |EDIT| && |APPEND| != |EDIT_ONLY| && |EDIT| != |EDIT_ONLY|;
  }

  // Silence leaves the buffer as it is, in every mode that the engine takes.
  lemma SilenceKeepsTheBuffer(engine: string, cfgMode: string, optMode: string, context: string)
    ensures var r := Transcribe(engine, cfgMode, optMode, context, NO_SPEECH);
            r == if engine == GPT && (if optMode == "" then cfgMode else optMode) == "edit_only" then None else Some(context)
  {
    assert NO_SPEECH <= NO_SPEECH[0..];
    SentinelIsNoSpeech(NO_SPEECH);
    assert |EDIT_ONLY| != |EDIT| && |EDIT_ONLY| != |APPEND|;
  }
}
