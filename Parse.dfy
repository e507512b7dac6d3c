// `parse_sas_script`: split the cleaned script into sections and each section into run
// fragments, strip each fragment, extract its dataset references, and keep the fragments that
// reference something, numbered by their positions.
module Parse {
  import opened Wrappers
  import opened Text
  import opened Segment
  import opened Extract
  import opened Runs

  // A kept fragment, with its references as the sets the extractor builds.
  datatype Unit = Unit(
    sectionIndex: nat,
    runIndex: nat,
    code: string,
    inputs: set<string>,
    outputs: set<string>)

  // The fragment at position `runIndex` of section `sectionIndex`, unless it strips to nothing or
  // is a split residual (no inputs and no outputs).
  function UnitOf(sectionIndex: nat, runIndex: nat, fragment: string): (u: Option<Unit>)
    ensures u.Some? ==> u.value.sectionIndex == sectionIndex && u.value.runIndex == runIndex
    ensures u.Some? ==> u.value.code == Strip(fragment)
  {
    var code := Strip(fragment);
    if code == [] then None
    else
      var (inputs, outputs) := ExtractInputsOutputs(code);
      if inputs == {} && outputs == {} then None
      else Some(Unit(sectionIndex, runIndex, code, inputs, outputs))
  }

  function OptionToSeq(u: Option<Unit>): seq<Unit> {
    match u
    case Some(x) => [x]
    case None => []
  }

  lemma OptionMember(o: Option<Unit>)
    requires o.Some?
    ensures o.value in OptionToSeq(o)
  {
  }

  // The kept fragments of one section, in fragment order.
  function UnitsOfSection(sectionIndex: nat, fragments: seq<string>): seq<Unit> {
    if |fragments| == 0 then []
    else
      var n := |fragments| - 1;
      UnitsOfSection(sectionIndex, fragments[..n]) + OptionToSeq(UnitOf(sectionIndex, n, fragments[n]))
  }

  // The kept fragments of the sections, section by section.
  function UnitsOfSections(sections: seq<string>): seq<Unit> {
    if |sections| == 0 then []
    else
      var n := |sections| - 1;
      UnitsOfSections(sections[..n]) + UnitsOfSection(n, SplitRuns(sections[n]))
  }

  // What `parse_sas_script` keeps of `text`.
  function Units(text: string): seq<Unit> {
    UnitsOfSections(SplitSections(text))
  }

  // A record of the output as it stands for a kept fragment: same indices and code, and the
  // reference sets listed once each, in an order the model leaves open.
  predicate RecordOf(r: Run, u: Unit) {
    r.sectionIndex == u.sectionIndex && r.runIndex == u.runIndex && r.code == u.code
    && ToSet(r.inputs) == u.inputs && NoDups(r.inputs)
    && ToSet(r.outputs) == u.outputs && NoDups(r.outputs)
    && r.subGraph.None?
  }

  predicate RecordsOf(runs: seq<Run>, units: seq<Unit>) {
    |runs| == |units| && forall k | 0 <= k < |runs| :: RecordOf(runs[k], units[k])
  }

  // ---------------------------------------------------------------- properties of the units

  predicate UnitLess(a: Unit, b: Unit) {
    a.sectionIndex < b.sectionIndex || (a.sectionIndex == b.sectionIndex && a.runIndex < b.runIndex)
  }

  predicate UnitsIncreasing(us: seq<Unit>) {
    forall i, j | 0 <= i < j < |us| :: UnitLess(us[i], us[j])
  }

  // What every kept fragment satisfies on its own.
  ghost predicate GoodUnit(u: Unit) {
    (u.inputs != {} || u.outputs != {})
    && |u.code| > 0 && !IsSpace(u.code[0]) && !IsSpace(u.code[|u.code| - 1])
    && (forall x | x in u.inputs + u.outputs :: IsToken(x) && IsSubstring(x, u.code))
  }

  lemma UnitOfGood(sectionIndex: nat, runIndex: nat, fragment: string)
    requires UnitOf(sectionIndex, runIndex, fragment).Some?
    ensures GoodUnit(UnitOf(sectionIndex, runIndex, fragment).value)
  {
  }

  // A captured RUN or QUIT keyword, even after stripping, is too short to reference a dataset.
  lemma KeywordFragmentDropped(sectionIndex: nat, runIndex: nat, t: string)
    requires IsRunKeyword(t)
    ensures UnitOf(sectionIndex, runIndex, t).None?
  {
    assert |UpperAll(t)| <= 4;
  }

  lemma {:induction false} UnitsOfSectionFacts(sectionIndex: nat, fragments: seq<string>)
    requires forall j | 0 <= j < |fragments| && j % 2 == 1 :: IsRunKeyword(fragments[j])
    ensures forall u | u in UnitsOfSection(sectionIndex, fragments) ::
      GoodUnit(u) && u.sectionIndex == sectionIndex && u.runIndex < |fragments|
      && u.runIndex % 2 == 0 && UnitOf(sectionIndex, u.runIndex, fragments[u.runIndex]) == Some(u)
    ensures UnitsIncreasing(UnitsOfSection(sectionIndex, fragments))
  {
    if |fragments| > 0 {
      var n := |fragments| - 1;
      var init := fragments[..n];
      UnitsOfSectionFacts(sectionIndex, init);
      var opt := UnitOf(sectionIndex, n, fragments[n]);
      var us := UnitsOfSection(sectionIndex, init);
      assert UnitsOfSection(sectionIndex, fragments) == us + OptionToSeq(opt);
      forall u | u in us
        ensures u.runIndex < n && UnitOf(sectionIndex, u.runIndex, fragments[u.runIndex]) == Some(u)
      {
        assert init[u.runIndex] == fragments[u.runIndex];
      }
      if n % 2 == 1 {
        KeywordFragmentDropped(sectionIndex, n, fragments[n]);
      }
      if opt.Some? {
        UnitOfGood(sectionIndex, n, fragments[n]);
        UnitsSnocIncreasing(us, opt.value);
      }
    }
  }

  // Appending a unit that comes after every unit already there keeps the order.
  lemma UnitsSnocIncreasing(us: seq<Unit>, v: Unit)
    requires UnitsIncreasing(us)
    requires forall u | u in us :: UnitLess(u, v)
    ensures UnitsIncreasing(us + [v])
  {
    forall i, j | 0 <= i < j < |us| + 1 ensures UnitLess((us + [v])[i], (us + [v])[j]) {
      if j == |us| {
        assert (us + [v])[i] == us[i] && us[i] in us;
      }
    }
  }

  lemma {:induction false} UnitsOfSectionsFacts(sections: seq<string>)
    ensures forall u | u in UnitsOfSections(sections) ::
      GoodUnit(u) && u.sectionIndex < |sections|
      && u.runIndex < |SplitRuns(sections[u.sectionIndex])| && u.runIndex % 2 == 0
      && UnitOf(u.sectionIndex, u.runIndex, SplitRuns(sections[u.sectionIndex])[u.runIndex]) == Some(u)
    ensures UnitsIncreasing(UnitsOfSections(sections))
  {
    if |sections| > 0 {
      var n := |sections| - 1;
      var init := sections[..n];
      UnitsOfSectionsFacts(init);
      UnitsOfSectionFacts(n, SplitRuns(sections[n]));
      var a, b := UnitsOfSections(init), UnitsOfSection(n, SplitRuns(sections[n]));
      forall u | u in a ensures u.sectionIndex < n && sections[u.sectionIndex] == init[u.sectionIndex] {
      }
    }
  }

  // Every kept fragment is complete in itself: it references a dataset, its code is stripped and
  // non-empty, every reference is a name token cut out of that code, it sits at an even fragment
  // position, and it is exactly what its section and fragment positions give. The kept fragments
  // come out in strictly increasing (section, run) order.
  lemma UnitsWellFormed(text: string)
    ensures forall u | u in Units(text) ::
      GoodUnit(u) && u.runIndex % 2 == 0
      && u.sectionIndex < |SplitSections(text)|
      && u.runIndex < |SplitRuns(SplitSections(text)[u.sectionIndex])|
      && UnitOf(u.sectionIndex, u.runIndex, SplitRuns(SplitSections(text)[u.sectionIndex])[u.runIndex]) == Some(u)
    ensures UnitsIncreasing(Units(text))
  {
    UnitsOfSectionsFacts(SplitSections(text));
  }

  lemma {:induction false} UnitsOfSectionComplete(sectionIndex: nat, fragments: seq<string>, j: nat)
    requires j < |fragments| && UnitOf(sectionIndex, j, fragments[j]).Some?
    ensures UnitOf(sectionIndex, j, fragments[j]).value in UnitsOfSection(sectionIndex, fragments)
  {
    var n := |fragments| - 1;
    var u := UnitOf(sectionIndex, j, fragments[j]).value;
    var init := UnitsOfSection(sectionIndex, fragments[..n]);
    var last := OptionToSeq(UnitOf(sectionIndex, n, fragments[n]));
    assert UnitsOfSection(sectionIndex, fragments) == init + last;
    if j < n {
      assert fragments[..n][j] == fragments[j];
      UnitsOfSectionComplete(sectionIndex, fragments[..n], j);
      assert u in init;
    } else {
      assert j == n;
      OptionMember(UnitOf(sectionIndex, n, fragments[n]));
    }
  }

  lemma {:induction false} UnitsOfSectionsComplete(sections: seq<string>, i: nat, j: nat)
    requires i < |sections| && j < |SplitRuns(sections[i])|
    requires UnitOf(i, j, SplitRuns(sections[i])[j]).Some?
    ensures UnitOf(i, j, SplitRuns(sections[i])[j]).value in UnitsOfSections(sections)
  {
    var n := |sections| - 1;
    var u := UnitOf(i, j, SplitRuns(sections[i])[j]).value;
    var init := UnitsOfSections(sections[..n]);
    var last := UnitsOfSection(n, SplitRuns(sections[n]));
    assert UnitsOfSections(sections) == init + last;
    if i < n {
      assert sections[..n][i] == sections[i];
      UnitsOfSectionsComplete(sections[..n], i, j);
      assert u in init;
    } else {
      assert i == n;
      UnitsOfSectionComplete(i, SplitRuns(sections[i]), j);
      assert u in last;
    }
  }

  // Conversely, no fragment that strips to non-empty code referencing a dataset is lost.
  lemma UnitsComplete(text: string, i: nat, j: nat)
    requires i < |SplitSections(text)| && j < |SplitRuns(SplitSections(text)[i])|
    requires UnitOf(i, j, SplitRuns(SplitSections(text)[i])[j]).Some?
    ensures UnitOf(i, j, SplitRuns(SplitSections(text)[i])[j]).value in Units(text)
  {
    UnitsOfSectionsComplete(SplitSections(text), i, j);
  }

  // ---------------------------------------------------------------- the loop

  lemma RecordsOfAppend(runs: seq<Run>, units: seq<Unit>, r: Run, u: Unit)
    requires RecordsOf(runs, units) && RecordOf(r, u)
    ensures RecordsOf(runs + [r], units + [u])
  {
  }

  lemma RecordsOfSorted(runs: seq<Run>, units: seq<Unit>)
    requires RecordsOf(runs, units) && UnitsIncreasing(units)
    ensures StrictlySorted(runs)
  {
  }

  // Records made from the kept fragments come out in strictly increasing key order, and each
  // lists at least one dataset.
  lemma RecordsFacts(runs: seq<Run>, text: string)
    requires RecordsOf(runs, Units(text))
    ensures StrictlySorted(runs)
    ensures forall r | r in runs :: r.inputs != [] || r.outputs != []
  {
    UnitsWellFormed(text);
    RecordsOfSorted(runs, Units(text));
    forall r | r in runs ensures r.inputs != [] || r.outputs != [] {
      var k :| 0 <= k < |runs| && runs[k] == r;
      assert Units(text)[k] in Units(text);
    }
  }

  lemma RecordsOfConcat(runs: seq<Run>, units: seq<Unit>, more: seq<Run>, moreUnits: seq<Unit>)
    requires RecordsOf(runs, units) && RecordsOf(more, moreUnits)
    ensures RecordsOf(runs + more, units + moreUnits)
  {
  }

  // The body of the inner loop of `parse_sas_script`: the record of one fragment, if it is kept.
  method ParseFragment(sectionIndex: nat, runIndex: nat, fragment: string) returns (record: Option<Run>)
    ensures record.None? <==> UnitOf(sectionIndex, runIndex, fragment).None?
    ensures record.Some? ==> RecordOf(record.value, UnitOf(sectionIndex, runIndex, fragment).value)
  {
    var code := Strip(fragment);
    if code == [] {
      return None;
    }
    var (inputs, outputs) := ExtractInputsOutputs(code);
    if inputs == {} && outputs == {} {
      return None;
    }
    var inputList := SetToList(inputs);
    var outputList := SetToList(outputs);
    record := Some(Run(sectionIndex, runIndex, code, inputList, outputList, None));
  }

  lemma UnitsOfSectionStep(sectionIndex: nat, fragments: seq<string>, j: nat)
    requires j < |fragments|
    ensures var opt := UnitOf(sectionIndex, j, fragments[j]);
      UnitsOfSection(sectionIndex, fragments[..j + 1])
      == UnitsOfSection(sectionIndex, fragments[..j]) + (if opt.Some? then [opt.value] else [])
  {
    assert fragments[..j + 1][..j] == fragments[..j];
  }

  // The inner loop of `parse_sas_script`: the records of one section.
  method ParseSection(sectionIndex: nat, section: string) returns (records: seq<Run>)
    ensures RecordsOf(records, UnitsOfSection(sectionIndex, SplitRuns(section)))
  {
    var fragments := SplitRuns(section);
    records := [];
    for j := 0 to |fragments|
      invariant RecordsOf(records, UnitsOfSection(sectionIndex, fragments[..j]))
    {
      ghost var done := UnitsOfSection(sectionIndex, fragments[..j]);
      ghost var opt := UnitOf(sectionIndex, j, fragments[j]);
      UnitsOfSectionStep(sectionIndex, fragments, j);
      var record := ParseFragment(sectionIndex, j, fragments[j]);
      if record.Some? {
        RecordsOfAppend(records, done, record.value, opt.value);
        records := records + [record.value];
      }
    }
    assert fragments[..|fragments|] == fragments;
  }

  // `parse_sas_script` on the cleaned script `text`: one record per kept fragment, in order.
  method ParseSasScript(text: string) returns (runs: seq<Run>)
    ensures RecordsOf(runs, Units(text))
    ensures StrictlySorted(runs)
    ensures forall r | r in runs :: r.inputs != [] || r.outputs != []
  {
    var sections := SplitSections(text);
    runs := [];
    for i := 0 to |sections|
      invariant RecordsOf(runs, UnitsOfSections(sections[..i]))
    {
      var records := ParseSection(i, sections[i]);
      assert sections[..i + 1][..i] == sections[..i];
      RecordsOfConcat(runs, UnitsOfSections(sections[..i]), records, UnitsOfSection(i, SplitRuns(sections[i])));
      runs := runs + records;
    }
    assert sections[..|sections|] == sections;
    RecordsFacts(runs, text);
  }
}
