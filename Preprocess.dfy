// The comment-rule stripping step of `clean_initial_code`: `re.sub(r"/\*-*\*/\s*", "", text)`.
module Preprocess {
  import opened Wrappers
  import opened Text

  // The end of the maximal run of `-` starting at `j`.
  function DashEnd(s: string, j: nat): (k: nat)
    requires j <= |s|
    ensures j <= k <= |s|
    ensures forall m | j <= m < k :: s[m] == '-'
    ensures k == |s| || s[k] != '-'
    decreases |s| - j
  {
    if j < |s| && s[j] == '-' then DashEnd(s, j + 1) else j
  }

  // A rule block with its trailing whitespace: `/*`, dashes, `*/`, whitespace.
  ghost predicate IsRuleBlock(t: string) {
    exists k: nat :: IsRuleBlockWithDashes(t, k)
  }

  predicate IsRuleBlockWithDashes(t: string, k: nat) {
    4 + k <= |t| && t[..2] == "/*" && t[2 + k..4 + k] == "*/"
    && (forall m | 2 <= m < 2 + k :: t[m] == '-')
    && (forall m | 4 + k <= m < |t| :: IsSpace(t[m]))
  }

  // Where a match of the pattern that starts at `i` ends, if one starts there. The dash run is
  // maximal and `\s*` is greedy, so a match, when there is one, is unique.
  function RuleBlockAt(s: string, i: nat): (e: Option<nat>)
    requires i <= |s|
    ensures e.Some? ==> i + 4 <= e.value <= |s| && IsRuleBlock(s[i..e.value])
    ensures e.Some? ==> e.value == |s| || !IsSpace(s[e.value])
    ensures i + 1 < |s| && s[i] == '/' && s[i + 1] == '*' && e.None? ==>
      var d := DashEnd(s, i + 2); !(d + 1 < |s| && s[d] == '*' && s[d + 1] == '/')
  {
    if i + 1 < |s| && s[i] == '/' && s[i + 1] == '*' then
      var d := DashEnd(s, i + 2);
      if d + 1 < |s| && s[d] == '*' && s[d + 1] == '/' then
        var e := SpaceEnd(s, d + 2);
        RuleBlockSlice(s, i, d, e);
        Some(e)
      else None
    else None
  }

  lemma RuleBlockSlice(s: string, i: nat, d: nat, e: nat)
    requires i + 2 <= d && d + 2 <= e <= |s|
    requires s[i] == '/' && s[i + 1] == '*' && s[d] == '*' && s[d + 1] == '/'
    requires forall m | i + 2 <= m < d :: s[m] == '-'
    requires forall m | d + 2 <= m < e :: IsSpace(s[m])
    ensures IsRuleBlock(s[i..e])
  {
    var t, k := s[i..e], d - i - 2;
    assert t[..2] == [t[0], t[1]];
    assert t[2 + k..4 + k] == [t[2 + k], t[3 + k]];
    assert IsRuleBlockWithDashes(t, k);
  }

  // The scan of `re.sub` from position `i`: a match is deleted and the scan resumes after it;
  // elsewhere one character is kept and the scan moves on by one.
  function CleanFrom(s: string, i: nat): (r: string)
    requires i <= |s|
    ensures |r| <= |s| - i
    decreases |s| - i
  {
    if i == |s| then []
    else match RuleBlockAt(s, i)
      case Some(e) => CleanFrom(s, e)
      case None => [s[i]] + CleanFrom(s, i + 1)
  }

  // `clean_initial_code`: delete every rule block and the whitespace after it.
  function CleanInitialCode(text: string): (r: string)
    ensures |r| <= |text|
  {
    CleanFrom(text, 0)
  }

  // One step of the scan: a kept character, or a deleted rule block.
  datatype Step = Keep(c: char) | Drop(block: string)

  function StepText(st: Step): string {
    match st
    case Keep(c) => [c]
    case Drop(b) => b
  }

  function AllText(steps: seq<Step>): string {
    if steps == [] then [] else StepText(steps[0]) + AllText(steps[1..])
  }

  function KeptText(steps: seq<Step>): string {
    if steps == [] then []
    else (if steps[0].Keep? then [steps[0].c] else []) + KeptText(steps[1..])
  }

  // The same scan as `CleanFrom`, recording what it keeps and what it deletes.
  ghost function Trace(s: string, i: nat): seq<Step>
    requires i <= |s|
    decreases |s| - i
  {
    if i == |s| then []
    else match RuleBlockAt(s, i)
      case Some(e) => [Drop(s[i..e])] + Trace(s, e)
      case None => [Keep(s[i])] + Trace(s, i + 1)
  }

  lemma {:induction false} TraceText(s: string, i: nat)
    requires i <= |s|
    ensures AllText(Trace(s, i)) == s[i..]
    decreases |s| - i
  {
    if i < |s| {
      match RuleBlockAt(s, i)
      case Some(e) =>
        TraceText(s, e);
        TextStep(s, i, e, Drop(s[i..e]), Trace(s, e));
      case None =>
        TraceText(s, i + 1);
        assert s[i..i + 1] == [s[i]];
        TextStep(s, i, i + 1, Keep(s[i]), Trace(s, i + 1));
    }
  }

  // A step that covers `s[i..j]` in front of steps that cover `s[j..]` covers `s[i..]`.
  lemma TextStep(s: string, i: nat, j: nat, st: Step, rest: seq<Step>)
    requires i < j <= |s|
    requires StepText(st) == s[i..j] && AllText(rest) == s[j..]
    ensures AllText([st] + rest) == s[i..]
  {
    var steps := [st] + rest;
    assert steps[0] == st && steps[1..] == rest;
    assert s[i..] == s[i..j] + s[j..];
  }

  lemma {:induction false} TraceKept(s: string, i: nat)
    requires i <= |s|
    ensures KeptText(Trace(s, i)) == CleanFrom(s, i)
    decreases |s| - i
  {
    if i < |s| {
      var steps := Trace(s, i);
      match RuleBlockAt(s, i)
      case Some(e) =>
        TraceKept(s, e);
        assert steps[1..] == Trace(s, e);
      case None =>
        TraceKept(s, i + 1);
        assert steps[1..] == Trace(s, i + 1);
    }
  }

  lemma {:induction false} TraceDrops(s: string, i: nat)
    requires i <= |s|
    ensures forall st | st in Trace(s, i) && st.Drop? :: IsRuleBlock(st.block)
    decreases |s| - i
  {
    if i < |s| {
      match RuleBlockAt(s, i)
      case Some(e) => TraceDrops(s, e);
      case None => TraceDrops(s, i + 1);
    }
  }

  // The cleaned text is the input with some rule blocks (each with its trailing whitespace)
  // cut out: splitting the input into steps, the kept steps give the result and every deleted
  // step is a rule block.
  lemma OnlyRuleBlocksDeleted(text: string)
    ensures var steps := Trace(text, 0);
      && AllText(steps) == text
      && KeptText(steps) == CleanInitialCode(text)
      && forall st | st in steps && st.Drop? :: IsRuleBlock(st.block)
  {
    TraceText(text, 0);
    TraceKept(text, 0);
    TraceDrops(text, 0);
  }

  lemma {:induction false} CleanFromWithoutOpener(s: string, i: nat)
    requires i <= |s|
    requires forall j | i <= j < |s| - 1 :: !(s[j] == '/' && s[j + 1] == '*')
    ensures CleanFrom(s, i) == s[i..]
    decreases |s| - i
  {
    if i < |s| {
      CleanFromWithoutOpener(s, i + 1);
      assert s[i..] == [s[i]] + s[i + 1..];
    }
  }

  // Text in which `/*` never occurs comes back unchanged.
  lemma CleanWithoutOpener(text: string)
    requires !Contains(text, "/*")
    ensures CleanInitialCode(text) == text
  {
    forall j | 0 <= j < |text| - 1 ensures !(text[j] == '/' && text[j + 1] == '*') {
      assert !OccursAt(text, j, "/*");
      assert text[j..j + 2] == [text[j], text[j + 1]];
    }
    CleanFromWithoutOpener(text, 0);
  }

  // Cleaning is not idempotent: deleting the inner block of `/*/**/*/` leaves a new block.
  lemma CleanNotIdempotent()
    ensures CleanInitialCode("/*/**/*/") == "/**/"
    ensures CleanInitialCode("/**/") == ""
  {
    var s := "/*/**/*/";
    assert RuleBlockAt(s, 0) == None by { assert DashEnd(s, 2) == 2; }
    assert RuleBlockAt(s, 1) == None;
    assert RuleBlockAt(s, 2) == Some(6) by {
      assert DashEnd(s, 4) == 4;
      assert SpaceEnd(s, 6) == 6;
    }
    assert RuleBlockAt(s, 6) == None;
    assert RuleBlockAt(s, 7) == None;
    assert CleanFrom(s, 8) == [];
    assert CleanFrom(s, 6) == "*/";
    assert CleanFrom(s, 2) == "*/";
    assert CleanFrom(s, 0) == "/**/";
    var t := "/**/";
    assert RuleBlockAt(t, 0) == Some(4) by {
      assert DashEnd(t, 2) == 2;
      assert SpaceEnd(t, 4) == 4;
    }
  }
}
