// Segmentation of the cleaned script: sections split on `--#+`, and each section split on
// `\b(RUN|QUIT);\s*\n` (IGNORECASE) with the keyword kept as its own fragment, as Python's
// `re.split` does with a capture group.
module Segment {
  import opened Wrappers
  import opened Text

  // ---------------------------------------------------------------- sections

  // A section delimiter: two dashes and one or more `#`.
  predicate IsSectionBreak(t: string) {
    |t| >= 3 && t[0] == '-' && t[1] == '-' && forall m | 2 <= m < |t| :: t[m] == '#'
  }

  function HashEnd(s: string, j: nat): (k: nat)
    requires j <= |s|
    ensures j <= k <= |s|
    ensures forall m | j <= m < k :: s[m] == '#'
    ensures k == |s| || s[k] != '#'
    decreases |s| - j
  {
    if j < |s| && s[j] == '#' then HashEnd(s, j + 1) else j
  }

  // `--#` occurs at `i` exactly when the three characters there are `-`, `-` and `#`.
  lemma BreakStartChars(s: string, i: nat)
    requires i <= |s|
    ensures OccursAt(s, i, "--#") <==> i + 3 <= |s| && s[i] == '-' && s[i + 1] == '-' && s[i + 2] == '#'
  {
    if i + 3 <= |s| {
      var w := s[i..i + 3];
      assert w[0] == s[i] && w[1] == s[i + 1] && w[2] == s[i + 2];
      if s[i] == '-' && s[i + 1] == '-' && s[i + 2] == '#' {
        assert w == "--#";
      }
    }
  }

  // The end of the delimiter match starting at `i`, if one starts there (`#+` is greedy).
  function SectionBreakAt(s: string, i: nat): (e: Option<nat>)
    requires i <= |s|
    ensures e.Some? ==> i + 3 <= e.value <= |s| && IsSectionBreak(s[i..e.value])
    ensures e.Some? <==> OccursAt(s, i, "--#")
  {
    BreakStartChars(s, i);
    if i + 3 <= |s| && s[i] == '-' && s[i + 1] == '-' && s[i + 2] == '#' then
      Some(HashEnd(s, i + 3))
    else
      None
  }

  // The pieces of `re.split`: the current piece began at `start`, the scan is at `i`.
  function SectionsFrom(s: string, start: nat, i: nat): (r: seq<string>)
    requires start <= i <= |s|
    ensures |r| >= 1
    decreases |s| - i
  {
    if i == |s| then [s[start..]]
    else match SectionBreakAt(s, i)
      case Some(e) => [s[start..i]] + SectionsFrom(s, e, e)
      case None => SectionsFrom(s, start, i + 1)
  }

  // The delimiters the same scan removes.
  function BreaksFrom(s: string, i: nat): seq<string>
    requires i <= |s|
    decreases |s| - i
  {
    if i == |s| then []
    else match SectionBreakAt(s, i)
      case Some(e) => [s[i..e]] + BreaksFrom(s, e)
      case None => BreaksFrom(s, i + 1)
  }

  // `re.split(r'--#+', text)`.
  function SplitSections(text: string): seq<string> {
    SectionsFrom(text, 0, 0)
  }

  function SectionBreaks(text: string): seq<string> {
    BreaksFrom(text, 0)
  }

  // `pieces[0] + seps[0] + pieces[1] + ... + pieces[n]`.
  function Interleave(pieces: seq<string>, seps: seq<string>): string
    requires |pieces| == |seps| + 1
  {
    if |seps| == 0 then pieces[0]
    else pieces[0] + seps[0] + Interleave(pieces[1..], seps[1..])
  }

  lemma {:induction false} SectionsRebuild(s: string, start: nat, i: nat)
    requires start <= i <= |s|
    ensures |SectionsFrom(s, start, i)| == |BreaksFrom(s, i)| + 1
    ensures Interleave(SectionsFrom(s, start, i), BreaksFrom(s, i)) == s[start..]
    ensures forall b | b in BreaksFrom(s, i) :: IsSectionBreak(b)
    decreases |s| - i
  {
    if i < |s| {
      match SectionBreakAt(s, i)
      case Some(e) =>
        SectionsRebuild(s, e, e);
        var ps, bs := SectionsFrom(s, start, i), BreaksFrom(s, i);
        assert ps[1..] == SectionsFrom(s, e, e) && bs[1..] == BreaksFrom(s, e);
        assert s[start..] == s[start..i] + s[i..e] + s[e..];
      case None =>
        SectionsRebuild(s, start, i + 1);
    }
  }

  // Splitting into sections loses nothing: the sections, with the removed delimiters put back
  // between them, give the text again, and every removed piece is a `--#+` delimiter.
  lemma SectionsRoundTrip(text: string)
    ensures |SplitSections(text)| == |SectionBreaks(text)| + 1
    ensures Interleave(SplitSections(text), SectionBreaks(text)) == text
    ensures forall b | b in SectionBreaks(text) :: IsSectionBreak(b)
  {
    SectionsRebuild(text, 0, 0);
  }

  lemma {:induction false} SectionsHaveNoBreak(s: string, start: nat, i: nat)
    requires start <= i <= |s|
    requires forall j | start <= j < i :: !OccursAt(s, j, "--#")
    ensures forall p | p in SectionsFrom(s, start, i) :: !Contains(p, "--#")
    decreases |s| - i
  {
    if i == |s| {
      NoBreakInSlice(s, start, |s|);
      assert s[start..] == s[start..|s|];
    } else {
      match SectionBreakAt(s, i)
      case Some(e) =>
        NoBreakInSlice(s, start, i);
        SectionsHaveNoBreak(s, e, e);
      case None =>
        SectionsHaveNoBreak(s, start, i + 1);
    }
  }

  lemma NoBreakInSlice(s: string, lo: nat, hi: nat)
    requires lo <= hi <= |s|
    requires forall j | lo <= j < hi :: !OccursAt(s, j, "--#")
    ensures !Contains(s[lo..hi], "--#")
  {
    forall p: nat | p <= hi - lo ensures !OccursAt(s[lo..hi], p, "--#") {
      if p + 3 <= hi - lo {
        assert s[lo..hi][p..p + 3][0] == s[lo + p];
        assert s[lo..hi][p..p + 3][1] == s[lo + p + 1];
        assert s[lo..hi][p..p + 3][2] == s[lo + p + 2];
        assert s[lo..hi][p..p + 3] == s[lo + p..lo + p + 3];
        assert !OccursAt(s, lo + p, "--#");
      }
    }
  }

  // No section contains a delimiter, and a text without one is a single section.
  lemma SectionsAreBreakFree(text: string)
    ensures forall p | p in SplitSections(text) :: !Contains(p, "--#")
    ensures !Contains(text, "--#") ==> SplitSections(text) == [text]
  {
    SectionsHaveNoBreak(text, 0, 0);
    if !Contains(text, "--#") {
      SingleSection(text, 0);
    }
  }

  lemma {:induction false} SingleSection(s: string, i: nat)
    requires i <= |s|
    requires !Contains(s, "--#")
    ensures SectionsFrom(s, 0, i) == [s]
    decreases |s| - i
  {
    if i < |s| {
      assert !OccursAt(s, i, "--#");
      SingleSection(s, i + 1);
    }
  }

  // ---------------------------------------------------------------- runs

  // The last `\n` in `s[lo..hi]`, where backtracking `\s*\n` ends.
  function LastNewline(s: string, lo: nat, hi: nat): (r: Option<nat>)
    requires lo <= hi <= |s|
    ensures r.Some? ==>
      lo <= r.value < hi && s[r.value] == '\n' && forall m | r.value < m < hi :: s[m] != '\n'
    ensures r.None? ==> forall m | lo <= m < hi :: s[m] != '\n'
    decreases hi - lo
  {
    if lo == hi then None
    else if s[hi - 1] == '\n' then Some(hi - 1)
    else LastNewline(s, lo, hi - 1)
  }

  // A match of `\b(RUN|QUIT);\s*\n` at `i`: where the keyword ends and where the match ends.
  function RunEndAt(s: string, i: nat): (m: Option<(nat, nat)>)
    requires i <= |s|
    ensures m.Some? ==> i + 3 <= m.value.0 < m.value.1 <= |s|
    ensures m.Some? ==> IsRunKeyword(s[i..m.value.0])
    ensures m.Some? ==> IsRunDelim(s[m.value.0..m.value.1])
  {
    var k :=
      if KeywordAt(s, i, "RUN") then i + 3
      else if KeywordAt(s, i, "QUIT") then i + 4
      else i;
    if AtBoundary(s, i) && k > i && k < |s| && s[k] == ';' then
      match LastNewline(s, k + 1, SpaceEnd(s, k + 1))
      case Some(nl) =>
        DelimSlice(s, k, nl + 1);
        Some((k, nl + 1))
      case None => None
    else None
  }

  // What the split removes after the keyword: `;`, whitespace, and the last newline of it.
  predicate IsRunDelim(d: string) {
    |d| >= 2 && d[0] == ';' && d[|d| - 1] == '\n' && forall m | 1 <= m < |d| - 1 :: IsSpace(d[m])
  }

  lemma DelimSlice(s: string, k: nat, e: nat)
    requires k + 1 < e <= |s| && s[k] == ';' && s[e - 1] == '\n'
    requires forall m | k + 1 <= m < SpaceEnd(s, k + 1) :: IsSpace(s[m])
    requires e - 1 < SpaceEnd(s, k + 1)
    ensures IsRunDelim(s[k..e])
  {
    var d := s[k..e];
    forall m | 1 <= m < |d| - 1 ensures IsSpace(d[m]) {
      assert d[m] == s[k + m];
    }
  }

  // The captured keyword, in any letter case.
  predicate IsRunKeyword(t: string) {
    UpperAll(t) == "RUN" || UpperAll(t) == "QUIT"
  }

  function RunsFrom(s: string, start: nat, i: nat): (r: seq<string>)
    requires start <= i <= |s|
    ensures |r| % 2 == 1
    ensures forall j | 0 <= j < |r| && j % 2 == 1 :: IsRunKeyword(r[j])
    decreases |s| - i
  {
    if i == |s| then [s[start..]]
    else match RunEndAt(s, i)
      case Some((k, e)) =>
        var rest := RunsFrom(s, e, e);
        KeywordAtOddPositions(s[start..i], s[i..k], rest);
        [s[start..i], s[i..k]] + rest
      case None => RunsFrom(s, start, i + 1)
  }

  lemma KeywordAtOddPositions(body: string, keyword: string, rest: seq<string>)
    requires IsRunKeyword(keyword)
    requires forall j | 0 <= j < |rest| && j % 2 == 1 :: IsRunKeyword(rest[j])
    ensures forall j | 0 <= j < |rest| + 2 && j % 2 == 1 :: IsRunKeyword(([body, keyword] + rest)[j])
  {
    forall j | 0 <= j < |rest| + 2 && j % 2 == 1 ensures IsRunKeyword(([body, keyword] + rest)[j]) {
      if j >= 2 {
        assert ([body, keyword] + rest)[j] == rest[j - 2];
      }
    }
  }

  // `re.split(r'\b(RUN|QUIT);\s*\n', section, flags=re.IGNORECASE)`: run bodies at even
  // positions, the captured keywords at odd positions.
  function SplitRuns(section: string): seq<string> {
    RunsFrom(section, 0, 0)
  }

  // The delimiters the split removes, in order.
  function DelimsFrom(s: string, i: nat): seq<string>
    requires i <= |s|
    decreases |s| - i
  {
    if i == |s| then []
    else match RunEndAt(s, i)
      case Some((k, e)) => [s[k..e]] + DelimsFrom(s, e)
      case None => DelimsFrom(s, i + 1)
  }

  function RunDelims(section: string): seq<string> {
    DelimsFrom(section, 0)
  }

  // `body0 + keyword0 + delim0 + body1 + ... + bodyN`.
  function Rejoin(pieces: seq<string>, delims: seq<string>): string
    requires |pieces| == 2 * |delims| + 1
  {
    if |delims| == 0 then pieces[0]
    else pieces[0] + pieces[1] + delims[0] + Rejoin(pieces[2..], delims[1..])
  }

  // No position of the text starts a match of the RUN/QUIT pattern.
  predicate NoRunEnd(b: string) {
    forall q | 0 <= q < |b| :: RunEndAt(b, q).None?
  }

  // One step of the scan behind `RunsFrom` and `DelimsFrom`: a match at `i` ending its keyword
  // at `k` and the whole match at `e`, or no match there.
  lemma RunsStep(s: string, start: nat, i: nat) returns (found: bool, k: nat, e: nat)
    requires start <= i < |s|
    ensures found == RunEndAt(s, i).Some?
    ensures !found ==>
      RunsFrom(s, start, i) == RunsFrom(s, start, i + 1) && DelimsFrom(s, i) == DelimsFrom(s, i + 1)
    ensures found ==> i < k < e <= |s| && IsRunDelim(s[k..e]) && !IsWordChar(s[e - 1])
    ensures found ==> RunsFrom(s, start, i) == [s[start..i], s[i..k]] + RunsFrom(s, e, e)
    ensures found ==> DelimsFrom(s, i) == [s[k..e]] + DelimsFrom(s, e)
  {
    found, k, e := false, 0, 0;
    if RunEndAt(s, i).Some? {
      found := true;
      k, e := RunEndAt(s, i).value.0, RunEndAt(s, i).value.1;
      assert s[e - 1] == s[k..e][e - 1 - k] == '\n';
    }
  }

  lemma {:induction false} RunsRebuild(s: string, start: nat, i: nat)
    requires start <= i <= |s|
    ensures |RunsFrom(s, start, i)| == 2 * |DelimsFrom(s, i)| + 1
    ensures Rejoin(RunsFrom(s, start, i), DelimsFrom(s, i)) == s[start..]
    ensures forall d | d in DelimsFrom(s, i) :: IsRunDelim(d)
    decreases |s| - i, 1
  {
    if i < |s| {
      var found, k, e := RunsStep(s, start, i);
      if found {
        RunsRebuildCut(s, start, i, k, e);
      } else {
        RunsRebuildSkip(s, start, i);
      }
    } else {
      assert RunsFrom(s, start, i) == [s[start..]];
    }
  }

  // The case of `RunsRebuild` where no match starts at `i`.
  lemma {:induction false} RunsRebuildSkip(s: string, start: nat, i: nat)
    requires start <= i < |s|
    requires RunsFrom(s, start, i) == RunsFrom(s, start, i + 1)
    requires DelimsFrom(s, i) == DelimsFrom(s, i + 1)
    ensures |RunsFrom(s, start, i)| == 2 * |DelimsFrom(s, i)| + 1
    ensures Rejoin(RunsFrom(s, start, i), DelimsFrom(s, i)) == s[start..]
    ensures forall d | d in DelimsFrom(s, i) :: IsRunDelim(d)
    decreases |s| - i, 0
  {
    RunsRebuild(s, start, i + 1);
  }

  // The case of `RunsRebuild` where a match at `i` ends its keyword at `k` and the cut at `e`.
  lemma {:induction false} RunsRebuildCut(s: string, start: nat, i: nat, k: nat, e: nat)
    requires start <= i < k < e <= |s| && IsRunDelim(s[k..e])
    requires RunsFrom(s, start, i) == [s[start..i], s[i..k]] + RunsFrom(s, e, e)
    requires DelimsFrom(s, i) == [s[k..e]] + DelimsFrom(s, e)
    ensures |RunsFrom(s, start, i)| == 2 * |DelimsFrom(s, i)| + 1
    ensures Rejoin(RunsFrom(s, start, i), DelimsFrom(s, i)) == s[start..]
    ensures forall d | d in DelimsFrom(s, i) :: IsRunDelim(d)
    decreases |s| - i, 0
  {
    RunsRebuild(s, e, e);
    RejoinCons(s[start..i], s[i..k], s[k..e], RunsFrom(s, e, e), DelimsFrom(s, e));
    SliceInFour(s, start, i, k, e);
  }

  lemma RejoinCons(body: string, keyword: string, delim: string, rest: seq<string>, ds: seq<string>)
    requires |rest| == 2 * |ds| + 1
    ensures Rejoin([body, keyword] + rest, [delim] + ds) == body + keyword + delim + Rejoin(rest, ds)
  {
    assert ([body, keyword] + rest)[2..] == rest && ([delim] + ds)[1..] == ds;
  }

  lemma SliceInFour(s: string, a: nat, b: nat, c: nat, d: nat)
    requires a <= b <= c <= d <= |s|
    ensures s[a..] == s[a..b] + s[b..c] + s[c..d] + s[d..]
  {
    assert s[a..] == s[a..b] + s[b..];
    assert s[b..] == s[b..c] + s[c..];
    assert s[c..] == s[c..d] + s[d..];
  }

  // A piece of `s` that starts where a word cannot continue, and inside which no match of `s`
  // starts, has no match of its own.
  lemma BodyNoMatch(s: string, a: nat, p: nat)
    requires a <= p <= |s|
    requires a == 0 || !IsWordChar(s[a - 1])
    requires NoMatchIn(s, a, p)
    ensures NoRunEnd(s[a..p])
  {
    var b := s[a..p];
    assert PieceAt(s, b, a);
    forall q | 0 <= q < |b| ensures RunEndAt(b, q).None? {
      if RunEndAt(b, q).Some? {
        MatchInPiece(s, b, a, q);
      }
    }
  }

  // A match at `i` of keyword `kw` whose `\s*\n` ends with the newline at `nl`.
  predicate RunParts(s: string, i: nat, kw: string, nl: nat) {
    (kw == "RUN" || kw == "QUIT")
    && AtBoundary(s, i) && KeywordAt(s, i, kw) && i + |kw| < |s| && s[i + |kw|] == ';'
    && i + |kw| + 1 <= nl < SpaceEnd(s, i + |kw| + 1) && s[nl] == '\n'
  }

  // The parts of a match at `i`, taken apart ...
  lemma RunEndAtParts(s: string, i: nat) returns (kw: string, nl: nat)
    requires i <= |s| && RunEndAt(s, i).Some?
    ensures RunParts(s, i, kw, nl)
  {
    kw := if KeywordAt(s, i, "RUN") then "RUN" else "QUIT";
    nl := LastNewline(s, i + |kw| + 1, SpaceEnd(s, i + |kw| + 1)).value;
  }

  // ... and put back together.
  lemma RunEndAtFromParts(s: string, i: nat, kw: string, nl: nat)
    requires RunParts(s, i, kw, nl)
    ensures RunEndAt(s, i).Some?
  {
    if kw == "QUIT" && KeywordAt(s, i, "RUN") {
      KeywordFirstChar(s, i, "QUIT");
      KeywordFirstChar(s, i, "RUN");
    }
    assert LastNewline(s, i + |kw| + 1, SpaceEnd(s, i + |kw| + 1)).Some?;
  }

  lemma SpaceEndPast(s: string, j: nat, m: nat)
    requires j <= m < |s|
    requires forall t | j <= t <= m :: IsSpace(s[t])
    ensures m < SpaceEnd(s, j)
  {
  }

  // `b` sits in `s` at `a`.
  predicate PieceAt(s: string, b: string, a: nat) {
    a + |b| <= |s| && forall m | 0 <= m < |b| :: b[m] == s[a + m]
  }

  // A match inside a piece of the text that starts where a word cannot continue is a match of
  // the whole text at the same place.
  lemma MatchInPiece(s: string, b: string, a: nat, q: nat)
    requires PieceAt(s, b, a) && q < |b|
    requires a == 0 || !IsWordChar(s[a - 1])
    requires RunEndAt(b, q).Some?
    ensures RunEndAt(s, a + q).Some?
  {
    var kw, nl := RunEndAtParts(b, q);
    PartsInPiece(s, b, a, q, kw, nl);
    RunEndAtFromParts(s, a + q, kw, a + nl);
  }

  lemma PartsInPiece(s: string, b: string, a: nat, q: nat, kw: string, nl: nat)
    requires PieceAt(s, b, a) && q < |b|
    requires a == 0 || !IsWordChar(s[a - 1])
    requires RunParts(b, q, kw, nl)
    ensures RunParts(s, a + q, kw, a + nl)
  {
    var k := q + |kw|;
    assert AtBoundary(s, a + q) by {
      assert b[q] == s[a + q];
      if q > 0 { assert b[q - 1] == s[a + q - 1]; }
    }
    assert KeywordAt(s, a + q, kw) by {
      forall m | 0 <= m < |kw| ensures b[q..k][m] == s[a + q..a + k][m] {
        assert b[q + m] == s[a + q + m];
      }
      assert b[q..k] == s[a + q..a + k];
    }
    forall t | a + k + 1 <= t <= a + nl ensures IsSpace(s[t]) {
      assert s[t] == b[t - a];
    }
    SpaceEndPast(s, a + k + 1, a + nl);
  }

  // No match of the RUN/QUIT pattern starts in `s[lo..hi]`.
  predicate NoMatchIn(s: string, lo: nat, hi: nat)
    requires hi <= |s|
  {
    forall q | lo <= q < hi :: RunEndAt(s, q).None?
  }

  // The run bodies (the even positions of a split) hold no match.
  predicate BodiesClean(rs: seq<string>) {
    forall j | 0 <= j < |rs| && j % 2 == 0 :: NoRunEnd(rs[j])
  }

  lemma NoMatchOneMore(s: string, lo: nat, i: nat)
    requires lo <= i < |s|
    requires NoMatchIn(s, lo, i)
    requires RunEndAt(s, i).None?
    ensures NoMatchIn(s, lo, i + 1)
  {
  }

  lemma BodiesAtEvenPositions(body: string, keyword: string, rest: seq<string>)
    requires NoRunEnd(body)
    requires BodiesClean(rest)
    ensures BodiesClean([body, keyword] + rest)
  {
    forall j | 0 <= j < |rest| + 2 && j % 2 == 0 ensures NoRunEnd(([body, keyword] + rest)[j]) {
      var all := [body, keyword] + rest;
      if j >= 2 {
        assert all[j] == rest[j - 2] && NoRunEnd(rest[j - 2]);
      } else {
        assert all[j] == body;
      }
    }
  }

  lemma LastBodyClean(s: string, start: nat)
    requires start <= |s|
    requires start == 0 || !IsWordChar(s[start - 1])
    requires NoMatchIn(s, start, |s|)
    ensures BodiesClean(RunsFrom(s, start, |s|))
  {
    BodyNoMatch(s, start, |s|);
    assert s[start..] == s[start..|s|];
    assert RunsFrom(s, start, |s|) == [s[start..]];
  }

  lemma {:induction false} RunsBodiesFrom(s: string, start: nat, i: nat)
    requires start <= i <= |s|
    requires start == 0 || !IsWordChar(s[start - 1])
    requires NoMatchIn(s, start, i)
    ensures BodiesClean(RunsFrom(s, start, i))
    decreases |s| - i, 1
  {
    if i == |s| {
      LastBodyClean(s, start);
    } else if RunEndAt(s, i).Some? {
      RunsBodiesCut(s, start, i);
    } else {
      NoMatchOneMore(s, start, i);
      RunsBodiesSkip(s, start, i);
    }
  }

  lemma {:induction false} RunsBodiesCut(s: string, start: nat, i: nat)
    requires start <= i < |s| && RunEndAt(s, i).Some?
    requires start == 0 || !IsWordChar(s[start - 1])
    requires NoMatchIn(s, start, i)
    ensures BodiesClean(RunsFrom(s, start, i))
    decreases |s| - i, 0
  {
    var found, k, e := RunsStep(s, start, i);
    BodyNoMatch(s, start, i);
    RunsBodiesFrom(s, e, e);
    BodiesAtEvenPositions(s[start..i], s[i..k], RunsFrom(s, e, e));
  }

  lemma {:induction false} RunsBodiesSkip(s: string, start: nat, i: nat)
    requires start <= i < |s|
    requires start == 0 || !IsWordChar(s[start - 1])
    requires NoMatchIn(s, start, i + 1)
    ensures BodiesClean(RunsFrom(s, start, i))
    decreases |s| - i, 0
  {
    RunsBodiesFrom(s, start, i + 1);
    RunsSkip(s, start, i);
  }

  lemma RunsSkip(s: string, start: nat, i: nat)
    requires start <= i < |s| && NoMatchIn(s, start, i + 1)
    ensures RunsFrom(s, start, i) == RunsFrom(s, start, i + 1)
  {
    assert RunEndAt(s, i).None?;
  }

  lemma {:induction false} RunsNoMatchFrom(s: string, i: nat)
    requires i <= |s|
    requires forall q | i <= q < |s| :: RunEndAt(s, q).None?
    ensures RunsFrom(s, 0, i) == [s]
    decreases |s| - i
  {
    if i < |s| { RunsNoMatchFrom(s, i + 1); }
  }

  // Splitting a section into runs loses nothing and cuts only where the pattern matches: the
  // bodies (even positions), the keywords (odd positions) and the removed `;\s*\n` delimiters
  // rebuild the section, no body holds a match, and a section without a match is left whole.
  lemma RunsRoundTrip(section: string)
    ensures |SplitRuns(section)| == 2 * |RunDelims(section)| + 1
    ensures Rejoin(SplitRuns(section), RunDelims(section)) == section
    ensures forall d | d in RunDelims(section) :: IsRunDelim(d)
    ensures forall j | 0 <= j < |SplitRuns(section)| ::
      if j % 2 == 1 then IsRunKeyword(SplitRuns(section)[j]) else NoRunEnd(SplitRuns(section)[j])
    ensures NoRunEnd(section) ==> SplitRuns(section) == [section]
  {
    RunsRebuild(section, 0, 0);
    RunsBodiesFrom(section, 0, 0);
    if NoRunEnd(section) {
      RunsNoMatchFrom(section, 0);
    }
  }
}
