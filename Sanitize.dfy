// `clean_run_code`: make each run's code fit inside a Mermaid node label. Two versions exist:
// the method of `StructuredSAS` and the older function in `main.py`, which neither collapses
// `<br>>` runs nor replaces double quotes.
module Sanitize {
  import opened Wrappers
  import opened Text
  import opened Runs
  import Preprocess

  // ---------------------------------------------------------------- comments

  predicate CloseAtIndex(s: string, m: nat) {
    m + 1 < |s| && s[m] == '*' && s[m + 1] == '/'
  }

  // The first `*/` that starts at or after `j`.
  function CloseFrom(s: string, j: nat): (k: Option<nat>)
    requires j <= |s|
    ensures k.Some? ==> j <= k.value && CloseAtIndex(s, k.value)
    ensures k.Some? ==> forall m | j <= m < k.value :: !CloseAtIndex(s, m)
    ensures k.None? ==> forall m | j <= m < |s| :: !CloseAtIndex(s, m)
    decreases |s| - j
  {
    if j == |s| then None
    else if CloseAtIndex(s, j) then Some(j)
    else CloseFrom(s, j + 1)
  }

  // A block comment as `/\*.*?\*/` with DOTALL matches it: `/*`, then the shortest stretch up to
  // the first `*/` after the opener.
  ghost predicate IsComment(t: string) {
    |t| >= 4 && t[0] == '/' && t[1] == '*' && CloseAtIndex(t, |t| - 2)
    && forall m | 2 <= m < |t| - 2 :: !CloseAtIndex(t, m)
  }

  // Where the comment that starts at `i` ends, if one starts there.
  function CommentAt(s: string, i: nat): (e: Option<nat>)
    requires i <= |s|
    ensures e.Some? ==> i + 4 <= e.value <= |s| && IsComment(s[i..e.value])
    ensures e.None? && i + 1 < |s| && s[i] == '/' && s[i + 1] == '*' ==>
      forall m | i + 2 <= m < |s| :: !CloseAtIndex(s, m)
  {
    if i + 1 < |s| && s[i] == '/' && s[i + 1] == '*' then
      match CloseFrom(s, i + 2)
      case Some(m) =>
        CommentSlice(s, i, m);
        Some(m + 2)
      case None => None
    else None
  }

  lemma CommentSlice(s: string, i: nat, m: nat)
    requires i + 2 <= m && CloseAtIndex(s, m) && s[i] == '/' && s[i + 1] == '*'
    requires forall k | i + 2 <= k < m :: !CloseAtIndex(s, k)
    ensures IsComment(s[i..m + 2])
  {
    var t := s[i..m + 2];
    forall k | 2 <= k < |t| - 2 ensures !CloseAtIndex(t, k) {
      assert t[k] == s[i + k] && t[k + 1] == s[i + k + 1];
      assert !CloseAtIndex(s, i + k);
    }
  }

  // `re.sub(r"/\*.*?\*/", "", s, flags=re.DOTALL)`, scanning from `i`.
  function StripCommentsFrom(s: string, i: nat): (r: string)
    requires i <= |s|
    ensures |r| <= |s| - i
    ensures forall c | c in r :: c in s
    decreases |s| - i
  {
    if i == |s| then []
    else match CommentAt(s, i)
      case Some(e) => StripCommentsFrom(s, e)
      case None => [s[i]] + StripCommentsFrom(s, i + 1)
  }

  function StripComments(s: string): (r: string)
    ensures |r| <= |s|
    ensures forall c | c in r :: c in s
  {
    StripCommentsFrom(s, 0)
  }

  // The same scan, recording what it keeps and what it deletes.
  ghost function CommentTrace(s: string, i: nat): seq<Preprocess.Step>
    requires i <= |s|
    decreases |s| - i
  {
    if i == |s| then []
    else match CommentAt(s, i)
      case Some(e) => [Preprocess.Drop(s[i..e])] + CommentTrace(s, e)
      case None => [Preprocess.Keep(s[i])] + CommentTrace(s, i + 1)
  }

  lemma {:induction false} CommentTraceText(s: string, i: nat)
    requires i <= |s|
    ensures Preprocess.AllText(CommentTrace(s, i)) == s[i..]
    decreases |s| - i
  {
    if i < |s| {
      match CommentAt(s, i)
      case Some(e) =>
        CommentTraceText(s, e);
        Preprocess.TextStep(s, i, e, Preprocess.Drop(s[i..e]), CommentTrace(s, e));
      case None =>
        CommentTraceText(s, i + 1);
        assert s[i..i + 1] == [s[i]];
        Preprocess.TextStep(s, i, i + 1, Preprocess.Keep(s[i]), CommentTrace(s, i + 1));
    }
  }

  lemma {:induction false} CommentTraceKept(s: string, i: nat)
    requires i <= |s|
    ensures Preprocess.KeptText(CommentTrace(s, i)) == StripCommentsFrom(s, i)
    decreases |s| - i, 1
  {
    if i < |s| {
      match CommentAt(s, i)
      case Some(e) => CommentTraceKeptDrop(s, i, e);
      case None => CommentTraceKeptKeep(s, i);
    }
  }

  // The case of `CommentTraceKept` where a comment runs from `i` to `e`.
  lemma {:induction false} CommentTraceKeptDrop(s: string, i: nat, e: nat)
    requires i < |s| && CommentAt(s, i) == Some(e)
    ensures Preprocess.KeptText(CommentTrace(s, i)) == StripCommentsFrom(s, i)
    decreases |s| - i, 0
  {
    CommentTraceKept(s, e);
    assert CommentTrace(s, i)[1..] == CommentTrace(s, e);
  }

  // The case of `CommentTraceKept` where no comment starts at `i`.
  lemma {:induction false} CommentTraceKeptKeep(s: string, i: nat)
    requires i < |s| && CommentAt(s, i).None?
    ensures Preprocess.KeptText(CommentTrace(s, i)) == StripCommentsFrom(s, i)
    decreases |s| - i, 0
  {
    CommentTraceKept(s, i + 1);
    assert CommentTrace(s, i)[1..] == CommentTrace(s, i + 1);
  }

  lemma {:induction false} CommentTraceDrops(s: string, i: nat)
    requires i <= |s|
    ensures forall st | st in CommentTrace(s, i) && st.Drop? :: IsComment(st.block)
    decreases |s| - i
  {
    if i < |s| {
      match CommentAt(s, i)
      case Some(e) => CommentTraceDrops(s, e);
      case None => CommentTraceDrops(s, i + 1);
    }
  }

  // Comment removal cuts block comments, each up to its first closer, out of the code and keeps
  // everything else in order.
  lemma OnlyCommentsDeleted(s: string)
    ensures var steps := CommentTrace(s, 0);
      && Preprocess.AllText(steps) == s
      && Preprocess.KeptText(steps) == StripComments(s)
      && forall st | st in steps && st.Drop? :: IsComment(st.block)
  {
    CommentTraceText(s, 0);
    CommentTraceKept(s, 0);
    CommentTraceDrops(s, 0);
  }

  lemma {:induction false} StripCommentsFromWithoutOpener(s: string, i: nat)
    requires i <= |s|
    requires forall j | i <= j < |s| - 1 :: !(s[j] == '/' && s[j + 1] == '*')
    ensures StripCommentsFrom(s, i) == s[i..]
    decreases |s| - i
  {
    if i < |s| {
      StripCommentsFromWithoutOpener(s, i + 1);
      assert s[i..] == [s[i]] + s[i + 1..];
    }
  }

  // Code without `/*` loses nothing.
  lemma StripCommentsWithoutOpener(s: string)
    requires !Contains(s, "/*")
    ensures StripComments(s) == s
  {
    forall j | 0 <= j < |s| - 1 ensures !(s[j] == '/' && s[j + 1] == '*') {
      assert !OccursAt(s, j, "/*");
      assert s[j..j + 2] == [s[j], s[j + 1]];
    }
    StripCommentsFromWithoutOpener(s, 0);
  }

  // The match is the shortest one: in `/*a*/b*/` only `/*a*/` goes.
  lemma StripCommentsNonGreedy(s: string)
    requires s == "/*a*/b*/"
    ensures StripComments(s) == "b*/"
  {
    assert CloseFrom(s, 2) == Some(3);
    assert CommentAt(s, 0) == Some(5);
    assert CommentAt(s, 5) == None;
    assert CommentAt(s, 6) == None;
    assert CommentAt(s, 7) == None;
    assert StripCommentsFrom(s, 7) == "/";
    assert StripCommentsFrom(s, 5) == "b*/";
  }

  // ---------------------------------------------------------------- lines

  // The first line break at or after `j`, or the end.
  function LineEnd(s: string, j: nat): (k: nat)
    requires j <= |s|
    ensures j <= k <= |s|
    ensures forall m | j <= m < k :: !IsLineBreak(s[m])
    ensures k == |s| || IsLineBreak(s[k])
    decreases |s| - j
  {
    if j == |s| || IsLineBreak(s[j]) then j else LineEnd(s, j + 1)
  }

  // Python `str.splitlines()`: `\r\n` is one break, and a break at the very end does not open
  // an empty last line.
  function SplitLines(s: string): (lines: seq<string>)
    ensures |lines| <= |s|
    ensures |s| > 0 ==> |lines| > 0
    decreases |s|
  {
    if |s| == 0 then []
    else
      var k := LineEnd(s, 0);
      if k == |s| then [s]
      else
        var next := if s[k] == '\r' && k + 1 < |s| && s[k + 1] == '\n' then k + 2 else k + 1;
        [s[..k]] + SplitLines(s[next..])
  }

  // No line holds a line break, and every character of a line comes from the text.
  lemma {:induction false} SplitLinesChars(s: string)
    ensures forall k | 0 <= k < |SplitLines(s)| :: forall c | c in SplitLines(s)[k] :: !IsLineBreak(c) && c in s
    decreases |s|
  {
    if |s| > 0 {
      var k := LineEnd(s, 0);
      if k < |s| {
        var next := if s[k] == '\r' && k + 1 < |s| && s[k + 1] == '\n' then k + 2 else k + 1;
        SplitLinesChars(s[next..]);
        assert forall c | c in s[next..] :: c in s;
        assert forall c | c in s[..k] :: !IsLineBreak(c) && c in s;
      }
    }
  }

  // The only line breaks are `\n`.
  predicate OnlyNewlines(s: string) {
    forall m | 0 <= m < |s| :: IsLineBreak(s[m]) ==> s[m] == '\n'
  }

  // Text whose only line breaks are `\n` and that does not end in one is rebuilt by joining its
  // lines with `\n`.
  lemma {:induction false} SplitLinesJoin(s: string)
    requires OnlyNewlines(s)
    requires |s| == 0 || s[|s| - 1] != '\n'
    ensures Join("\n", SplitLines(s)) == s
    decreases |s|
  {
    if |s| > 0 {
      var k := LineEnd(s, 0);
      if k < |s| {
        SplitLinesStep(s, k);
        SplitLinesJoin(s[k + 1..]);
        JoinLine(s, k);
      } else {
        assert SplitLines(s) == [s];
      }
    }
  }

  lemma JoinLine(s: string, k: nat)
    requires k < |s| && s[k] == '\n'
    requires SplitLines(s) == [s[..k]] + SplitLines(s[k + 1..])
    requires |s[k + 1..]| > 0 && Join("\n", SplitLines(s[k + 1..])) == s[k + 1..]
    ensures Join("\n", SplitLines(s)) == s
  {
    var rest := SplitLines(s[k + 1..]);
    JoinFront(s[..k], rest);
    assert s == s[..k] + [s[k]] + s[k + 1..];
  }

  lemma JoinFront(line: string, rest: seq<string>)
    requires |rest| > 0
    ensures Join("\n", [line] + rest) == line + "\n" + Join("\n", rest)
  {
    assert ([line] + rest)[1..] == rest;
  }

  lemma OnlyNewlinesSuffix(s: string, i: nat)
    requires OnlyNewlines(s) && i <= |s|
    ensures OnlyNewlines(s[i..])
  {
    var t := s[i..];
    forall m | 0 <= m < |t| ensures IsLineBreak(t[m]) ==> t[m] == '\n' {
      assert t[m] == s[i + m];
    }
  }

  lemma SplitLinesStep(s: string, k: nat)
    requires OnlyNewlines(s)
    requires |s| > 0 && s[|s| - 1] != '\n'
    requires k == LineEnd(s, 0) && k < |s|
    ensures s[k] == '\n'
    ensures SplitLines(s) == [s[..k]] + SplitLines(s[k + 1..])
    ensures |s[k + 1..]| > 0 && s[|s| - 1] != '\n'
    ensures OnlyNewlines(s[k + 1..])
  {
    assert IsLineBreak(s[k]);
    assert s[k] == '\n';
    assert SplitLines(s) == [s[..k]] + SplitLines(s[k + 1..]);
    OnlyNewlinesSuffix(s, k + 1);
  }

  // ---------------------------------------------------------------- markers

  // The end of the run of `>` starting at `j`.
  function GtEnd(s: string, j: nat): (k: nat)
    requires j <= |s|
    ensures j <= k <= |s|
    ensures forall m | j <= m < k :: s[m] == '>'
    ensures k == |s| || s[k] != '>'
    decreases |s| - j
  {
    if j < |s| && s[j] == '>' then GtEnd(s, j + 1) else j
  }

  // `re.sub("<br>+", "<br>", s)` from `i`: the pattern is `<br` followed by one or more `>`, so
  // it shortens `<br>>>` but leaves `<br><br>` alone.
  function CollapseFrom(s: string, i: nat): (r: string)
    requires i <= |s|
    ensures forall c | c in r :: c in s
    decreases |s| - i
  {
    if i == |s| then []
    else if OccursAt(s, i, "<br>") then
      assert s[i..i + 4] == "<br>";
      assert forall c | c in "<br>" :: c in s by {
        assert s[i] == '<' && s[i + 1] == 'b' && s[i + 2] == 'r' && s[i + 3] == '>';
      }
      "<br>" + CollapseFrom(s, GtEnd(s, i + 3))
    else [s[i]] + CollapseFrom(s, i + 1)
  }

  function CollapseBr(s: string): (r: string)
    ensures forall c | c in r :: c in s
  {
    CollapseFrom(s, 0)
  }

  lemma {:induction false} CollapseFromNoop(s: string, i: nat)
    requires i <= |s| && forall j | i <= j <= |s| :: !OccursAt(s, j, "<br>>")
    ensures CollapseFrom(s, i) == s[i..]
    decreases |s| - i
  {
    if i < |s| {
      if OccursAt(s, i, "<br>") {
        var e := GtEnd(s, i + 3);
        assert s[i + 3] == s[i..i + 4][3];
        assert !OccursAt(s, i, "<br>>");
        if i + 4 < |s| {
          assert s[i..i + 5] == s[i..i + 4] + [s[i + 4]];
        }
        assert e == i + 4;
        CollapseFromNoop(s, e);
        assert s[i..] == s[i..i + 4] + s[i + 4..];
      } else {
        CollapseFromNoop(s, i + 1);
        assert s[i..] == [s[i]] + s[i + 1..];
      }
    }
  }

  // Without `<br>>` the substitution changes nothing.
  lemma CollapseNoop(s: string)
    requires !Contains(s, "<br>>")
    ensures CollapseBr(s) == s
  {
    forall j | 0 <= j <= |s| ensures !OccursAt(s, j, "<br>>") {
      assert !OccursAt(s, j, "<br>>");
    }
    CollapseFromNoop(s, 0);
    assert s[0..] == s;
  }

  // A run of `>` after `<br` shrinks to one.
  lemma CollapseShortens(s: string)
    requires s == "<br>>>"
    ensures CollapseBr(s) == "<br>"
  {
    assert OccursAt(s, 0, "<br>") by { assert s[0..4] == "<br>"; }
    assert GtEnd(s, 3) == 6;
    assert CollapseFrom(s, 6) == [];
  }

  // Two markers in a row are left as they are.
  lemma CollapseKeepsRepeatedMarkers(s: string)
    requires s == "<br><br>"
    ensures CollapseBr(s) == s
  {
    forall j | 0 <= j <= |s| ensures !OccursAt(s, j, "<br>>") {
      if j + 5 <= |s| {
        assert s[j..j + 5][0] == s[j] && s[j..j + 5][4] == s[j + 4];
      }
    }
    CollapseFromNoop(s, 0);
    assert s[0..] == s;
  }

  // ---------------------------------------------------------------- the whole cleaning

  // Which of the two implementations.
  datatype Variant = Structured | Legacy

  // Each line stripped, with the two characters `\n` written as `<br>`.
  function FlattenLines(lines: seq<string>): (parts: seq<string>)
    ensures |parts| == |lines|
    ensures forall k | 0 <= k < |parts| :: forall c | c in parts[k] :: c in lines[k] || c in "<br>"
  {
    seq(|lines|, k requires 0 <= k < |lines| => ReplaceAll(Strip(lines[k]), "\\n", "<br>"))
  }

  // Comments and `?` removed, the lines joined with `<br>`.
  function Flatten(code: string): (r: string)
    ensures forall c | c in r :: !IsLineBreak(c) && c != '?'
    ensures forall c | c in r :: c in code || c in "<br>"
  {
    var noQuery := ReplaceAll(StripComments(code), "?", "");
    assert forall c | c in noQuery :: c != '?' && c in code;
    FlattenChars(noQuery);
    Join("<br>", FlattenLines(SplitLines(noQuery)))
  }

  // The lines of text without `?`, flattened and joined, hold neither a line break nor `?`.
  lemma FlattenChars(noQuery: string)
    requires forall c | c in noQuery :: c != '?'
    ensures forall c | c in Join("<br>", FlattenLines(SplitLines(noQuery))) ::
      !IsLineBreak(c) && c != '?' && (c in noQuery || c in "<br>")
  {
    var lines := SplitLines(noQuery);
    SplitLinesChars(noQuery);
    var parts := FlattenLines(lines);
    forall c | c in Join("<br>", parts)
      ensures !IsLineBreak(c) && c != '?' && (c in noQuery || c in "<br>")
    {
      if c in "<br>" {
        assert c == '<' || c == 'b' || c == 'r' || c == '>';
      } else {
        var k :| 0 <= k < |parts| && c in parts[k];
        assert c in lines[k];
      }
    }
  }

  // Replacing a character by text without it removes the character and brings in nothing else.
  lemma ReplaceChar(s: string, p: char, rep: string)
    requires p !in rep
    ensures forall c | c in ReplaceAll(s, [p], rep) :: c != p && (c in s || c in rep)
  {
  }

  // The marker step and the quote escaping of each version.
  function Escape(flat: string, v: Variant): (r: string)
    ensures forall c | c in r :: (c in flat || c in "&apos;") && c != '\''
    ensures v == Structured ==> forall c | c in r :: c != '"'
  {
    match v
    case Structured =>
      var collapsed := CollapseBr(flat);
      ReplaceChar(collapsed, '\'', "&apos;");
      var single := ReplaceAll(collapsed, ['\''], "&apos;");
      ReplaceChar(single, '"', "&apos;");
      ReplaceAll(single, ['"'], "&apos;")
    case Legacy =>
      ReplaceChar(flat, '\'', "&apos;");
      ReplaceAll(flat, ['\''], "&apos;")
  }

  // The cleaned `run_code` of one record: no line break, question mark or single quote is
  // left, and in the `StructuredSAS` version no double quote either.
  function CleanCode(code: string, v: Variant): (r: string)
    ensures forall c | c in r :: !IsLineBreak(c) && c != '?' && c != '\''
    ensures v == Structured ==> forall c | c in r :: c != '"'
  {
    EntityChars();
    Escape(Flatten(code), v)
  }

  lemma EntityChars()
    ensures forall c | c in "&apos;" :: !IsLineBreak(c) && c != '?' && c != '\'' && c != '"'
  {
    forall c | c in "&apos;" ensures c == '&' || c == 'a' || c == 'p' || c == 'o' || c == 's' || c == ';' {
      var k :| 0 <= k < 6 && "&apos;"[k] == c;
    }
  }

  lemma {:induction false} ReplaceAbsent(s: string, pat: string, rep: string)
    requires |pat| == 1 && pat[0] !in s
    ensures ReplaceAll(s, pat, rep) == s
    decreases |s|
  {
    if |s| >= 1 {
      assert s[..1] != pat by { assert s[..1][0] == s[0]; }
      ReplaceAbsent(s[1..], pat, rep);
      assert s == [s[0]] + s[1..];
    }
  }

  // The two versions agree on code without double quotes whose flattened form has no `<br>>`.
  lemma VariantsAgree(code: string)
    requires '"' !in code && !Contains(Flatten(code), "<br>>")
    ensures CleanCode(code, Structured) == CleanCode(code, Legacy)
  {
    var flat := Flatten(code);
    CollapseNoop(flat);
    var legacy := ReplaceAll(flat, "'", "&apos;");
    assert '"' !in legacy;
    ReplaceAbsent(legacy, "\"", "&apos;");
  }

  // The two versions differ on a double quote.
  lemma VariantsDifferOnQuote(code: string)
    requires code == "\""
    ensures CleanCode(code, Structured) == "&apos;"
    ensures CleanCode(code, Legacy) == "\""
  {
    FlattenQuote(code);
    assert CollapseBr(code) == code by {
      assert !OccursAt(code, 0, "<br>");
      assert CollapseFrom(code, 1) == [];
    }
    assert ReplaceAll(code, ['\''], "&apos;") == code;
    assert ReplaceAll(code, ['"'], "&apos;") == "&apos;";
  }

  lemma FlattenQuote(code: string)
    requires code == "\""
    ensures Flatten(code) == code
  {
    assert CloseFrom(code, 0) == None;
    assert StripComments(code) == code;
    assert ReplaceAll(code, "?", "") == code;
    assert LineEnd(code, 0) == 1;
    assert SplitLines(code) == [code];
    assert Strip(code) == code by {
      assert StripStart(code, 0) == 0;
      assert StripEnd(code, 0, 1) == 1;
    }
    assert ReplaceAll(code, "\\n", "<br>") == code;
    assert FlattenLines([code]) == [code];
  }

  // Code without a comment opener or `?` is only split into lines, stripped and rejoined.
  lemma FlattenPlain(code: string)
    requires !Contains(code, "/*") && '?' !in code
    ensures Flatten(code) == Join("<br>", FlattenLines(SplitLines(code)))
  {
    StripCommentsWithoutOpener(code);
    ReplaceAbsent(code, "?", "");
  }

  lemma SplitLinesSingle(code: string)
    requires |code| > 0 && forall c | c in code :: !IsLineBreak(c)
    ensures SplitLines(code) == [code]
  {
  }

  // On one line, flattening strips the line and writes `\n` as `<br>`.
  lemma FlattenSingleLine(code: string)
    requires !Contains(code, "/*") && '?' !in code
    requires forall c | c in code :: !IsLineBreak(c)
    ensures Flatten(code) == ReplaceAll(Strip(code), "\\n", "<br>")
  {
    FlattenPlain(code);
    if |code| > 0 {
      SplitLinesSingle(code);
      assert FlattenLines([code]) == [ReplaceAll(Strip(code), "\\n", "<br>")];
    } else {
      assert Strip(code) == [];
    }
  }

  // Text without quotes or `<br>>` comes out of the escaping step unchanged, in both versions.
  lemma EscapeIdentity(flat: string, v: Variant)
    requires '\'' !in flat && '"' !in flat && !Contains(flat, "<br>>")
    ensures Escape(flat, v) == flat
  {
    ReplaceAbsent(flat, "'", "&apos;");
    if v == Structured {
      CollapseNoop(flat);
      ReplaceAbsent(flat, "\"", "&apos;");
    }
  }

  // Code without comments, `?` or quotes, and whose flattened form has no `<br>>`, is cleaned
  // by stripping each of its lines and joining them with `<br>`.
  lemma CleanCodeLines(code: string, v: Variant)
    requires !Contains(code, "/*") && '?' !in code && '\'' !in code && '"' !in code
    requires !Contains(Flatten(code), "<br>>")
    ensures CleanCode(code, v) == Join("<br>", FlattenLines(SplitLines(code)))
  {
    FlattenPlain(code);
    var flat := Flatten(code);
    assert '\'' !in "<br>" && '"' !in "<br>";
    assert '\'' !in flat && '"' !in flat;
    EscapeIdentity(flat, v);
  }

  // The same on a single line: strip it and write `\n` as `<br>`.
  lemma CleanCodeSingleLine(code: string, v: Variant)
    requires !Contains(code, "/*") && '?' !in code && '\'' !in code && '"' !in code
    requires forall c | c in code :: !IsLineBreak(c)
    requires !Contains(Flatten(code), "<br>>")
    ensures CleanCode(code, v) == ReplaceAll(Strip(code), "\\n", "<br>")
  {
    CleanCodeLines(code, v);
    FlattenSingleLine(code);
  }

  // The two characters `\n` in the code become a `<br>` marker.
  lemma CleanCodeEscapedNewline(code: string, v: Variant)
    requires code == "a\\nb"
    ensures CleanCode(code, v) == "a<br>b"
  {
    EscapedNewlineFlat(code);
    MarkedLinePlain(Flatten(code));
    EscapeIdentity(Flatten(code), v);
  }

  lemma MarkedLinePlain(flat: string)
    requires flat == "a<br>b"
    ensures '\'' !in flat && '"' !in flat && !Contains(flat, "<br>>")
  {
    assert !Contains(flat, "<br>>") by {
      forall j | 0 <= j <= |flat| ensures !OccursAt(flat, j, "<br>>") {
        if j + 5 <= |flat| { assert flat[j..j + 5][0] == flat[j] && flat[j..j + 5][4] == flat[j + 4]; }
      }
    }
    assert forall c | c in flat :: c == 'a' || c == '<' || c == 'b' || c == 'r' || c == '>';
  }

  lemma EscapedNewlineFlat(code: string)
    requires code == "a\\nb"
    ensures Flatten(code) == "a<br>b"
  {
    EscapedNewlinePlain(code);
    FlattenSingleLine(code);
    EscapedNewlineStrip(code);
    EscapedNewlineReplace(code);
  }

  lemma EscapedNewlinePlain(code: string)
    requires code == "a\\nb"
    ensures !Contains(code, "/*") && '?' !in code && forall c | c in code :: !IsLineBreak(c)
  {
    assert !Contains(code, "/*") by {
      forall j | 0 <= j <= |code| ensures !OccursAt(code, j, "/*") {
        if j + 2 <= |code| { assert code[j..j + 2][0] == code[j]; }
      }
    }
    assert forall c | c in code :: c == 'a' || c == '\\' || c == 'n' || c == 'b';
  }

  lemma EscapedNewlineStrip(code: string)
    requires code == "a\\nb"
    ensures Strip(code) == code
  {
    assert StripStart(code, 0) == 0;
    assert StripEnd(code, 0, 4) == 4;
  }

  lemma EscapedNewlineReplace(code: string)
    requires code == "a\\nb"
    ensures ReplaceAll(code, "\\n", "<br>") == "a<br>b"
  {
    assert ReplaceAll(code[3..], "\\n", "<br>") == "b";
    assert ReplaceAll(code[1..], "\\n", "<br>") == "<br>b" by {
      assert code[1..][..2] == "\\n" && code[1..][2..] == code[3..];
    }
    assert code[..2] != "\\n" by { assert code[..2][0] == 'a'; }
    assert ReplaceAll(code, "\\n", "<br>") == [code[0]] + ReplaceAll(code[1..], "\\n", "<br>");
    assert [code[0]] + "<br>b" == "a<br>b";
  }

  // `clean_run_code` over all records: each keeps its place and its fields except the code.
  method CleanRunCode(runs: seq<Run>, v: Variant) returns (result: seq<Run>)
    ensures |result| == |runs|
    ensures forall k | 0 <= k < |runs| :: result[k] == runs[k].(code := CleanCode(runs[k].code, v))
  {
    result := [];
    for i := 0 to |runs|
      invariant |result| == i
      invariant forall k | 0 <= k < i :: result[k] == runs[k].(code := CleanCode(runs[k].code, v))
    {
      result := result + [runs[i].(code := CleanCode(runs[i].code, v))];
    }
  }
}
