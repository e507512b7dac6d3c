// Dataset-reference extraction (`extract_inputs_outputs`): five fixed patterns, all matched
// case-insensitively, each written here as a dedicated scanner. A scanner function `...At(s, i)`
// says whether the pattern matches at position `i` (and where the captured name lies); the
// `findall` scanners resume after the end of each match and otherwise move on by one, as
// `re.findall` does.
module Extract {
  import opened Wrappers
  import opened Text

  // `\s+([A-Z0-9_.]+)` from `j`: the span of the name. Greedy `\s+` followed by a name
  // character has only one way to match.
  function SpacedNameAt(s: string, j: nat): (m: Option<(nat, nat)>)
    requires j <= |s|
    ensures m.Some? ==> j < m.value.0 < m.value.1 <= |s|
    ensures m.Some? ==> forall p | m.value.0 <= p < m.value.1 :: IsNameChar(s[p])
  {
    var w := SpaceEnd(s, j);
    var n := NameEnd(s, w);
    if w > j && n > w then Some((w, n)) else None
  }

  // `\bDATA\s+([A-Z0-9_.]+)` at `i`.
  function DataStatementAt(s: string, i: nat): (m: Option<(nat, nat)>)
    requires i <= |s|
    ensures m.Some? ==> i + 4 < m.value.0 < m.value.1 <= |s|
    ensures m.Some? ==> forall p | m.value.0 <= p < m.value.1 :: IsNameChar(s[p])
  {
    if AtBoundary(s, i) && KeywordAt(s, i, "DATA") then SpacedNameAt(s, i + 4) else None
  }

  // `\bSET\s+([A-Z0-9_.]+)` at `i`.
  function SetStatementAt(s: string, i: nat): (m: Option<(nat, nat)>)
    requires i <= |s|
    ensures m.Some? ==> i + 3 < m.value.0 < m.value.1 <= |s|
    ensures m.Some? ==> forall p | m.value.0 <= p < m.value.1 :: IsNameChar(s[p])
  {
    if AtBoundary(s, i) && KeywordAt(s, i, "SET") then SpacedNameAt(s, i + 3) else None
  }

  // The first position at or after `i` where `re.search` finds the DATA statement pattern.
  function FirstDataAt(s: string, i: nat): (r: Option<nat>)
    requires i <= |s|
    ensures r.Some? ==> i <= r.value < |s| && DataStatementAt(s, r.value).Some?
    ensures r.Some? ==> forall q | i <= q < r.value :: DataStatementAt(s, q).None?
    ensures r.None? ==> forall q | i <= q <= |s| :: DataStatementAt(s, q).None?
    decreases |s| - i
  {
    if i == |s| then None
    else if DataStatementAt(s, i).Some? then Some(i)
    else FirstDataAt(s, i + 1)
  }

  // `re.search` finds the leftmost match: a match with none before it is the one found.
  lemma FirstDataUnique(s: string, p: nat)
    requires p < |s| && DataStatementAt(s, p).Some?
    requires forall q | 0 <= q < p :: DataStatementAt(s, q).None?
    ensures FirstDataAt(s, 0) == Some(p)
  {
  }

  // The name captured by the first DATA statement, if any.
  function FirstDataName(s: string): (r: Option<string>)
    ensures r.Some? ==> IsToken(r.value) && IsSubstring(r.value, s) && |s| >= 6
  {
    match FirstDataAt(s, 0)
    case Some(p) =>
      var (w, n) := DataStatementAt(s, p).value;
      NameSliceIsToken(s, w, n);
      Some(s[w..n])
    case None => None
  }

  // `re.findall(r'\bSET\s+([A-Z0-9_.]+)', s[i..])`, as the scan from `i` sees it.
  function SetNames(s: string, i: nat): (r: seq<string>)
    requires i <= |s|
    ensures forall x | x in r :: IsToken(x) && IsSubstring(x, s)
    ensures r != [] ==> i + 5 <= |s|
    decreases |s| - i
  {
    if i == |s| then []
    else match SetStatementAt(s, i)
      case Some((w, n)) =>
        NameSliceIsToken(s, w, n);
        [s[w..n]] + SetNames(s, n)
      case None => SetNames(s, i + 1)
  }

  // `findall` reports the first SET match at or after `i` and goes on after it.
  lemma SetNamesFirst(s: string, i: nat, p: nat)
    requires i <= p < |s| && SetStatementAt(s, p).Some?
    requires forall q | i <= q < p :: SetStatementAt(s, q).None?
    ensures var (w, n) := SetStatementAt(s, p).value;
      SetNames(s, i) == [s[w..n]] + SetNames(s, n)
  {
    SetNamesSkip(s, i, p);
  }

  // With no SET match from `i` on, nothing is reported.
  lemma SetNamesNoMatch(s: string, i: nat)
    requires i <= |s|
    requires forall q | i <= q < |s| :: SetStatementAt(s, q).None?
    ensures SetNames(s, i) == []
  {
    SetNamesSkip(s, i, |s|);
  }

  // ---------------------------------------------------------------- MERGE

  // `\bMERGE\s+([^;]+)` at `i`: the span of the group, whose end is also where the match ends.
  // `[^;]+` runs to the next `;` or to the end; when only whitespace is left before it, `\s+`
  // gives back its last whitespace character to the group, which needs at least one.
  function MergeGroupAt(s: string, i: nat): (m: Option<(nat, nat)>)
    requires i <= |s|
    ensures m.Some? ==> i + 5 < m.value.0 < m.value.1 <= |s|
  {
    if AtBoundary(s, i) && KeywordAt(s, i, "MERGE") then
      var w := SpaceEnd(s, i + 5);
      var semi := NextSemicolon(s, w);
      if w > i + 5 && w < |s| && s[w] != ';' then Some((w, semi))
      else if w > i + 6 then Some((w - 1, w))
      else None
    else None
  }

  function NextSemicolon(s: string, j: nat): (k: nat)
    requires j <= |s|
    ensures j <= k <= |s| && (k == |s| || s[k] == ';')
    ensures forall m | j <= m < k :: s[m] != ';'
    decreases |s| - j
  {
    if j == |s| || s[j] == ';' then j else NextSemicolon(s, j + 1)
  }

  lemma NextSemicolonIs(s: string, j: nat, k: nat)
    requires j <= k <= |s|
    requires forall m | j <= m < k :: s[m] != ';'
    requires k == |s| || s[k] == ';'
    ensures NextSemicolon(s, j) == k
  {
  }

  // `(?:\s*\(IN=[A-Z0-9_]+\))?` after a name that ends at `n`: where the optional qualifier ends
  // (at `n` when there is none).
  function QualifierEnd(g: string, n: nat): (e: nat)
    requires n <= |g|
    ensures n <= e <= |g|
    ensures e > n ==> g[e - 1] == ')' && exists w | n <= w < e :: g[w] == '(' && KeywordAt(g, w + 1, "IN=")
  {
    var w := SpaceEnd(g, n);
    if w < |g| && g[w] == '(' && KeywordAt(g, w + 1, "IN=") then
      var k := WordEnd(g, w + 4);
      if k > w + 4 && k < |g| && g[k] == ')' then k + 1 else n
    else n
  }

  // `\b([A-Z0-9_.]+)(?:\s*\(IN=[A-Z0-9_]+\))?` at `p`: the end of the name and of the match.
  function MergeTokenAt(g: string, p: nat): (m: Option<(nat, nat)>)
    requires p <= |g|
    ensures m.Some? ==> p < m.value.0 <= m.value.1 <= |g|
    ensures m.Some? ==> forall q | p <= q < m.value.0 :: IsNameChar(g[q])
  {
    if AtBoundary(g, p) && p < |g| && IsNameChar(g[p]) then
      var n := NameEnd(g, p);
      Some((n, QualifierEnd(g, n)))
    else None
  }

  // `re.findall` of the token pattern over one MERGE group.
  function MergeTokens(g: string, p: nat): (r: seq<string>)
    requires p <= |g|
    ensures forall x | x in r :: IsToken(x) && IsSubstring(x, g)
    decreases |g| - p
  {
    if p == |g| then []
    else match MergeTokenAt(g, p)
      case Some((n, e)) =>
        NameSliceIsToken(g, p, n);
        [g[p..n]] + MergeTokens(g, e)
      case None => MergeTokens(g, p + 1)
  }

  // Every dataset listed by a MERGE statement of `s`, scanning from `i`.
  function MergeNames(s: string, i: nat): (r: seq<string>)
    requires i <= |s|
    ensures forall x | x in r :: IsToken(x) && IsSubstring(x, s)
    ensures r != [] ==> i + 7 <= |s|
    decreases |s| - i
  {
    if i == |s| then []
    else match MergeGroupAt(s, i)
      case Some((gs, ge)) =>
        var tokens := MergeTokens(s[gs..ge], 0);
        forall x | x in tokens ensures IsSubstring(x, s) {
          SubstringOfSlice(x, s, gs, ge);
        }
        tokens + MergeNames(s, ge)
      case None => MergeNames(s, i + 1)
  }

  lemma {:induction false} MergeTokensSkip(g: string, p: nat, q: nat)
    requires p <= q <= |g|
    requires forall m | p <= m < q :: MergeTokenAt(g, m).None?
    ensures MergeTokens(g, p) == MergeTokens(g, q)
    decreases q - p
  {
    if p < q { MergeTokensSkip(g, p + 1, q); }
  }

  // The first token at or after `p` is reported, and the scan goes on after its qualifier.
  lemma MergeTokensFirst(g: string, p: nat, t: nat)
    requires p <= t < |g| && MergeTokenAt(g, t).Some?
    requires forall m | p <= m < t :: MergeTokenAt(g, m).None?
    ensures var (n, e) := MergeTokenAt(g, t).value;
      MergeTokens(g, p) == [g[t..n]] + MergeTokens(g, e)
  {
    MergeTokensSkip(g, p, t);
  }

  // A name followed by `\s*(IN=flag)` is reported, and the flag is not: the scan resumes after
  // the closing parenthesis.
  lemma MergeQualifierSkipped(g: string, p: nat, w: nat, k: nat)
    requires p < |g| && AtBoundary(g, p) && IsNameChar(g[p])
    requires NameEnd(g, p) <= w && w + 4 < k < |g|
    requires forall m | NameEnd(g, p) <= m < w :: IsSpace(g[m])
    requires g[w] == '(' && KeywordAt(g, w + 1, "IN=")
    requires forall m | w + 4 <= m < k :: IsWordChar(g[m])
    requires g[k] == ')'
    ensures MergeTokens(g, p) == [g[p..NameEnd(g, p)]] + MergeTokens(g, k + 1)
  {
    var n := NameEnd(g, p);
    SpaceEndIs(g, n, w);
    WordEndIs(g, w + 4, k);
    assert QualifierEnd(g, n) == k + 1;
    assert MergeTokenAt(g, p) == Some((n, k + 1));
  }

  lemma {:induction false} MergeNamesSkipTo(s: string, i: nat, j: nat)
    requires i <= j <= |s|
    requires forall q | i <= q < j :: MergeGroupAt(s, q).None?
    ensures MergeNames(s, i) == MergeNames(s, j)
    decreases j - i
  {
    if i < j { MergeNamesSkipTo(s, i + 1, j); }
  }

  // The first MERGE statement at or after `i` contributes the tokens of its group, and the scan
  // goes on after the group.
  lemma MergeNamesFirst(s: string, i: nat, p: nat)
    requires i <= p < |s| && MergeGroupAt(s, p).Some?
    requires forall q | i <= q < p :: MergeGroupAt(s, q).None?
    ensures var (gs, ge) := MergeGroupAt(s, p).value;
      MergeNames(s, i) == MergeTokens(s[gs..ge], 0) + MergeNames(s, ge)
  {
    MergeNamesSkipTo(s, i, p);
  }

  // ---------------------------------------------------------------- DATA= and OUT=

  datatype ProcOption = DataOption(name: string) | OutOption(name: string)

  // `\b(DATA|OUT)\s*=\s*([A-Z0-9_.]+)` at `i`: which keyword, and the span of the name.
  function ProcOptionAt(s: string, i: nat): (m: Option<(bool, nat, nat)>)
    requires i <= |s|
    ensures m.Some? ==> i + 4 <= m.value.1 < m.value.2 <= |s|
    ensures m.Some? ==> forall p | m.value.1 <= p < m.value.2 :: IsNameChar(s[p])
    ensures m.Some? ==> AtBoundary(s, i)
    ensures m.Some? ==> (m.value.0 <==> KeywordAt(s, i, "DATA"))
    ensures m.Some? && !m.value.0 ==> KeywordAt(s, i, "OUT")
  {
    var isData := KeywordAt(s, i, "DATA");
    var k := if isData then i + 4 else if KeywordAt(s, i, "OUT") then i + 3 else i;
    if AtBoundary(s, i) && k > i then
      var eq := SpaceEnd(s, k);
      if eq < |s| && s[eq] == '=' then
        var w := SpaceEnd(s, eq + 1);
        var n := NameEnd(s, w);
        if n > w then Some((isData, w, n)) else None
      else None
    else None
  }

  // `re.findall(r'\b(DATA|OUT)\s*=\s*([A-Z0-9_.]+)', s[i..])`.
  function ProcOptions(s: string, i: nat): (r: seq<ProcOption>)
    requires i <= |s|
    ensures forall o | o in r :: IsToken(o.name) && IsSubstring(o.name, s)
    ensures r != [] ==> i + 5 <= |s|
    decreases |s| - i
  {
    if i == |s| then []
    else match ProcOptionAt(s, i)
      case Some((isData, w, n)) =>
        NameSliceIsToken(s, w, n);
        [if isData then DataOption(s[w..n]) else OutOption(s[w..n])] + ProcOptions(s, n)
      case None => ProcOptions(s, i + 1)
  }

  lemma {:induction false} ProcOptionsSkipTo(s: string, i: nat, j: nat)
    requires i <= j <= |s|
    requires forall q | i <= q < j :: ProcOptionAt(s, q).None?
    ensures ProcOptions(s, i) == ProcOptions(s, j)
    decreases j - i
  {
    if i < j {
      ProcOptionsSkipOne(s, i, j);
      ProcOptionsSkipTo(s, i + 1, j);
    }
  }

  lemma ProcOptionsSkipOne(s: string, i: nat, j: nat)
    requires i < j <= |s|
    requires forall q | i <= q < j :: ProcOptionAt(s, q).None?
    ensures ProcOptions(s, i) == ProcOptions(s, i + 1)
  {
    assert ProcOptionAt(s, i).None?;
  }

  // The first `DATA=` or `OUT=` match at or after `i` is reported with its keyword, and the scan
  // goes on after the name.
  lemma ProcOptionsFirst(s: string, i: nat, p: nat)
    requires i <= p < |s| && ProcOptionAt(s, p).Some?
    requires forall q | i <= q < p :: ProcOptionAt(s, q).None?
    ensures var (isData, w, n) := ProcOptionAt(s, p).value;
      ProcOptions(s, i) == [if isData then DataOption(s[w..n]) else OutOption(s[w..n])] + ProcOptions(s, n)
      && (isData <==> KeywordAt(s, p, "DATA"))
      && (!isData ==> KeywordAt(s, p, "OUT"))
  {
    ProcOptionsSkipTo(s, i, p);
  }

  function DataOptionNames(s: string): set<string> {
    set o | o in ProcOptions(s, 0) && o.DataOption? :: o.name
  }

  function OutOptionNames(s: string): set<string> {
    set o | o in ProcOptions(s, 0) && o.OutOption? :: o.name
  }

  // ---------------------------------------------------------------- the extractor

  // `extract_inputs_outputs`: inputs from SET, MERGE and `DATA=`; outputs from the first DATA
  // statement and `OUT=`. Every name is a token cut out of the code, in its own letter case, and
  // code shorter than five characters (a bare `RUN` or `QUIT`) references nothing.
  function ExtractInputsOutputs(code: string): (r: (set<string>, set<string>))
    ensures forall x | x in r.0 + r.1 :: IsToken(x) && IsSubstring(x, code)
    ensures |code| < 5 ==> r.0 == {} && r.1 == {}
    ensures forall x :: x in r.0 <==>
      x in SetNames(code, 0) || x in MergeNames(code, 0) || DataOption(x) in ProcOptions(code, 0)
    ensures forall x :: x in r.1 <==>
      FirstDataName(code) == Some(x) || OutOption(x) in ProcOptions(code, 0)
  {
    var first := match FirstDataName(code) case Some(x) => {x} case None => {};
    assert TokensOf(ToSet(SetNames(code, 0)), code) && TokensOf(ToSet(MergeNames(code, 0)), code);
    assert TokensOf(DataOptionNames(code), code) && TokensOf(OutOptionNames(code), code);
    assert TokensOf(first, code);
    var inputs := ToSet(SetNames(code, 0)) + ToSet(MergeNames(code, 0)) + DataOptionNames(code);
    var outputs := first + OutOptionNames(code);
    (inputs, outputs)
  }

  // Every name in `names` is a token cut out of `code`.
  ghost predicate TokensOf(names: set<string>, code: string) {
    forall x | x in names :: IsToken(x) && IsSubstring(x, code)
  }

  // The outputs are the name of the first DATA statement, if there is one, and the `OUT=` names;
  // no later DATA statement contributes.
  lemma OutputsCharacterised(code: string)
    ensures var outs := ExtractInputsOutputs(code).1;
      && OutOptionNames(code) <= outs
      && |outs - OutOptionNames(code)| <= 1
      && forall x | x in outs && x !in OutOptionNames(code) ::
           exists p, w, n | 0 <= p < |code| ::
             DataStatementAt(code, p) == Some((w, n)) && x == code[w..n]
             && forall q | 0 <= q < p :: DataStatementAt(code, q).None?
    ensures var outs := ExtractInputsOutputs(code).1;
      forall p | 0 <= p < |code| && DataStatementAt(code, p).Some?
          && (forall q | 0 <= q < p :: DataStatementAt(code, q).None?) ::
        code[DataStatementAt(code, p).value.0..DataStatementAt(code, p).value.1] in outs
  {
    var outs := ExtractInputsOutputs(code).1;
    forall p | 0 <= p < |code| && DataStatementAt(code, p).Some?
        && (forall q | 0 <= q < p :: DataStatementAt(code, q).None?)
      ensures code[DataStatementAt(code, p).value.0..DataStatementAt(code, p).value.1] in outs
    {
      FirstDataUnique(code, p);
    }
    match FirstDataAt(code, 0)
    case Some(p) =>
      var (w, n) := DataStatementAt(code, p).value;
      assert outs - OutOptionNames(code) <= {code[w..n]};
    case None =>
      assert outs - OutOptionNames(code) == {};
  }

  // The worked example: the run `DATA b; SET a;` reads `a` and writes `b`.
  lemma ExtractExample(s: string)
    requires s == "DATA b; SET a;"
    ensures ExtractInputsOutputs(s) == ({"a"}, {"b"})
  {
    ExampleFirstData(s);
    ExampleSet(s);
    ExampleMerge(s);
    ExampleProc(s);
    SingletonToSet("a");
    assert DataOptionNames(s) == {};
    assert OutOptionNames(s) == {};
    assert ToSet(MergeNames(s, 0)) == {};
    var r := ExtractInputsOutputs(s);
    assert r.0 == {"a"};
    assert r.1 == {"b"};
  }

  lemma SingletonToSet(x: string)
    ensures ToSet([x]) == {x}
  {
    assert x in ToSet([x]);
  }

  lemma ExampleFirstData(s: string)
    requires s == "DATA b; SET a;"
    ensures FirstDataName(s) == Some("b")
  {
    assert UpperAll(s[0..4]) == "DATA";
    assert SpaceEnd(s, 5) == 5;
    assert NameEnd(s, 6) == 6;
    assert NameEnd(s, 5) == 6;
    assert DataStatementAt(s, 0) == Some((5, 6));
    assert s[5..6] == "b";
  }

  lemma ExampleSet(s: string)
    requires s == "DATA b; SET a;"
    ensures SetNames(s, 0) == ["a"]
  {
    assert UpperAll(s[8..11]) == "SET";
    assert SpaceEnd(s, 12) == 12;
    assert NameEnd(s, 13) == 13;
    assert NameEnd(s, 12) == 13;
    assert SetStatementAt(s, 8) == Some((12, 13));
    assert s[12..13] == "a";
    var head := s[..8];
    assert 'S' !in head && 's' !in head;
    forall q | 0 <= q < 8 ensures SetStatementAt(s, q).None? {
      assert s[q] == head[q];
      if KeywordAt(s, q, "SET") { KeywordFirstChar(s, q, "SET"); }
    }
    assert !KeywordAt(s, 13, "SET");
    SetNamesSkip(s, 0, 8);
    SetNamesSkip(s, 13, |s|);
  }

  lemma {:induction false} SetNamesSkip(s: string, i: nat, j: nat)
    requires i <= j <= |s|
    requires forall q | i <= q < j :: SetStatementAt(s, q).None?
    ensures SetNames(s, i) == SetNames(s, j)
    decreases j - i
  {
    if i < j { SetNamesSkip(s, i + 1, j); }
  }

  lemma ExampleMerge(s: string)
    requires s == "DATA b; SET a;"
    ensures MergeNames(s, 0) == []
  {
    assert 'M' !in s && 'm' !in s;
    forall q | 0 <= q <= |s| ensures MergeGroupAt(s, q).None? {
      if q < |s| {
        assert s[q] in s;
        if KeywordAt(s, q, "MERGE") { KeywordFirstChar(s, q, "MERGE"); }
      }
    }
    MergeNamesSkip(s, 0);
  }

  lemma {:induction false} MergeNamesSkip(s: string, i: nat)
    requires i <= |s|
    requires forall q | i <= q <= |s| :: MergeGroupAt(s, q).None?
    ensures MergeNames(s, i) == []
    decreases |s| - i
  {
    if i < |s| { MergeNamesSkip(s, i + 1); }
  }

  // `DATA` at 0 is not followed by `=`, and no other position starts with `D` or `O`.
  lemma ExampleProc(s: string)
    requires s == "DATA b; SET a;"
    ensures ProcOptions(s, 0) == []
  {
    ExampleProcFirst(s);
    ExampleProcRest(s);
    ProcOptionsSkip(s, 0);
  }

  lemma ExampleProcFirst(s: string)
    requires s == "DATA b; SET a;"
    ensures ProcOptionAt(s, 0).None?
  {
    assert UpperAll(s[0..4]) == "DATA";
    assert SpaceEnd(s, 5) == 5;
    assert SpaceEnd(s, 4) == 5;
  }

  lemma ExampleProcRest(s: string)
    requires s == "DATA b; SET a;"
    ensures forall q | 1 <= q <= |s| :: ProcOptionAt(s, q).None?
  {
    var tail := s[1..];
    assert 'D' !in tail && 'd' !in tail && 'O' !in tail && 'o' !in tail;
    forall q | 1 <= q < |s| ensures ProcOptionAt(s, q).None? {
      assert s[q] == tail[q - 1];
      NotProcOptionStart(s, q);
    }
  }

  lemma NotProcOptionStart(s: string, q: nat)
    requires q < |s| && Upper(s[q]) != 'D' && Upper(s[q]) != 'O'
    ensures ProcOptionAt(s, q).None?
  {
    if KeywordAt(s, q, "DATA") { KeywordFirstChar(s, q, "DATA"); }
    if KeywordAt(s, q, "OUT") { KeywordFirstChar(s, q, "OUT"); }
  }

  lemma {:induction false} ProcOptionsSkip(s: string, i: nat)
    requires i <= |s|
    requires forall q | i <= q <= |s| :: ProcOptionAt(s, q).None?
    ensures ProcOptions(s, i) == []
    decreases |s| - i
  {
    if i < |s| { ProcOptionsSkip(s, i + 1); }
  }

  // A MERGE statement with an `(IN=...)` flag: both datasets are inputs, the flag is not, and
  // nothing is written.
  lemma MergeFlagExample(s: string)
    requires s == "MERGE a(IN=x) b;"
    ensures ExtractInputsOutputs(s) == ({"a", "b"}, {})
  {
    MergeExampleNames(s);
    MergeExampleOthers(s);
    var r := ExtractInputsOutputs(s);
    assert ToSet(["a", "b"]) == {"a", "b"} by {
      assert "a" in ToSet(["a", "b"]) && "b" in ToSet(["a", "b"]);
    }
    assert r.0 == {"a", "b"};
    assert r.1 == {};
  }

  lemma MergeExampleNames(s: string)
    requires s == "MERGE a(IN=x) b;"
    ensures MergeNames(s, 0) == ["a", "b"]
  {
    assert UpperAll(s[0..5]) == "MERGE";
    assert SpaceEnd(s, 6) == 6;
    assert SpaceEnd(s, 5) == 6;
    assert forall m | 6 <= m < 15 :: s[m] != ';' by {
      forall m | 6 <= m < 15 ensures s[m] != ';' {
        assert s[m] == s[6..15][m - 6];
        assert s[6..15] == "a(IN=x) b";
      }
    }
    NextSemicolonIs(s, 6, 15);
    assert MergeGroupAt(s, 0) == Some((6, 15));
    MergeNamesFirst(s, 0, 0);
    assert MergeNames(s, 15) == [] by {
      assert !KeywordAt(s, 15, "MERGE");
    }
    var g := s[6..15];
    assert g == "a(IN=x) b";
    MergeExampleTokens(g);
  }

  lemma MergeExampleTokens(g: string)
    requires g == "a(IN=x) b"
    ensures MergeTokens(g, 0) == ["a", "b"]
  {
    MergeExampleFlagged(g);
    MergeExampleLast(g);
  }

  // `a(IN=x)`: `a` is reported and the scan resumes after `)`.
  lemma MergeExampleFlagged(g: string)
    requires g == "a(IN=x) b"
    ensures MergeTokens(g, 0) == ["a"] + MergeTokens(g, 7)
  {
    assert g[0] == 'a' && g[1] == '(' && g[5] == 'x' && g[6] == ')';
    NameEndIs(g, 0, 1);
    assert g[2..5] == "IN=";
    assert UpperAll("IN=") == "IN=";
    MergeQualifierSkipped(g, 0, 1, 6);
    assert g[0..1] == "a";
  }

  // ` b`: the space is skipped and `b`, with no flag, is the last token.
  lemma MergeExampleLast(g: string)
    requires g == "a(IN=x) b"
    ensures MergeTokens(g, 7) == ["b"]
  {
    assert MergeTokenAt(g, 7).None?;
    NameEndIs(g, 8, 9);
    assert QualifierEnd(g, 9) == 9;
    assert MergeTokenAt(g, 8) == Some((9, 9));
    MergeTokensFirst(g, 7, 8);
    assert g[8..9] == "b";
  }

  // No `D`, `O` or `S` occurs, so there is no DATA statement, no SET and no option.
  lemma MergeExampleOthers(s: string)
    requires s == "MERGE a(IN=x) b;"
    ensures FirstDataName(s).None? && SetNames(s, 0) == [] && ProcOptions(s, 0) == []
  {
    forall q | 0 <= q < |s|
      ensures DataStatementAt(s, q).None? && SetStatementAt(s, q).None? && ProcOptionAt(s, q).None?
    {
      assert s[q] in s;
      assert Upper(s[q]) != 'D' && Upper(s[q]) != 'S' && Upper(s[q]) != 'O';
      if KeywordAt(s, q, "DATA") { KeywordFirstChar(s, q, "DATA"); }
      if KeywordAt(s, q, "SET") { KeywordFirstChar(s, q, "SET"); }
      NotProcOptionStart(s, q);
    }
    SetNamesNoMatch(s, 0);
    ProcOptionsSkip(s, 0);
  }
}
