// `merge_identity_runs`: runs whose single input is also their single output are grouped by
// that dataset; each group becomes one run holding the group's code joined by newlines, and the
// remaining runs are kept. The result is sorted by (section_index, run_index).
module Merge {
  import opened Wrappers
  import opened Text
  import opened Runs

  // `len(run["inputs"]) == 1 and run["inputs"] == run["outputs"]`.
  predicate IsCandidate(r: Run) {
    |r.inputs| == 1 && r.inputs == r.outputs
  }

  lemma CandidateIsIdentity(r: Run, d: string)
    ensures IsCandidate(r) && r.inputs[0] == d <==> IsIdentityOn(r, d)
  {
    if IsIdentityOn(r, d) { assert r.inputs[0] == d; }
  }

  // The datasets of the candidates, in first-seen order: the keys of `grouped_runs`.
  function GroupKeys(runs: seq<Run>): (ks: seq<string>)
    ensures NoDups(ks)
  {
    if |runs| == 0 then []
    else
      var ks := GroupKeys(runs[..|runs| - 1]);
      var last := runs[|runs| - 1];
      if IsCandidate(last) && last.inputs[0] !in ks then ks + [last.inputs[0]] else ks
  }

  // The candidates on `d`, in input order: `grouped_runs[(d,)]` before sorting.
  function GroupOf(runs: seq<Run>, d: string): seq<Run> {
    if |runs| == 0 then []
    else
      var last := runs[|runs| - 1];
      GroupOf(runs[..|runs| - 1], d) + (if IsCandidate(last) && last.inputs[0] == d then [last] else [])
  }

  function Codes(rs: seq<Run>): (cs: seq<string>)
    ensures |cs| == |rs| && forall k | 0 <= k < |rs| :: cs[k] == rs[k].code
  {
    seq(|rs|, k requires 0 <= k < |rs| => rs[k].code)
  }

  // The run that stands for a group: the group sorted by key, its codes joined by newlines,
  // and the indices, inputs and outputs of its first run.
  function MergedRun(group: seq<Run>): Run
    requires |group| > 0
  {
    var sorted := SortByKey(group);
    Run(sorted[0].sectionIndex, sorted[0].runIndex, Join("\n", Codes(sorted)),
        sorted[0].inputs, sorted[0].outputs, None)
  }

  // `merged_runs` for the group keys `keys`, in that order.
  function MergedRunsOf(runs: seq<Run>, keys: seq<string>): (ms: seq<Run>)
    requires forall d | d in keys :: |GroupOf(runs, d)| > 0
    ensures |ms| == |keys|
  {
    if |keys| == 0 then []
    else
      var n := |keys| - 1;
      MergedRunsOf(runs, keys[..n]) + [MergedRun(GroupOf(runs, keys[n]))]
  }

  // `seen_run_keys`: the keys of every grouped run.
  function SeenKeys(runs: seq<Run>): set<(nat, nat)> {
    set r | r in runs && IsCandidate(r) :: Key(r)
  }

  // The runs whose key is not in `seen`, in input order.
  function Unmerged(runs: seq<Run>, seen: set<(nat, nat)>): (r: seq<Run>)
    ensures |r| <= |runs|
  {
    if |runs| == 0 then []
    else
      var last := runs[|runs| - 1];
      Unmerged(runs[..|runs| - 1], seen) + (if Key(last) !in seen then [last] else [])
  }

  function MergedRuns(runs: seq<Run>): seq<Run> {
    GroupKeysHaveGroups(runs);
    MergedRunsOf(runs, GroupKeys(runs))
  }

  // The result of `merge_identity_runs`.
  function Merged(runs: seq<Run>): seq<Run> {
    SortByKey(Unmerged(runs, SeenKeys(runs)) + MergedRuns(runs))
  }

  // ---------------------------------------------------------------- groups

  lemma {:induction false} GroupOfMembers(runs: seq<Run>, d: string)
    ensures forall r :: r in GroupOf(runs, d) <==> r in runs && IsIdentityOn(r, d)
  {
    if |runs| > 0 {
      var init, last := runs[..|runs| - 1], runs[|runs| - 1];
      GroupOfMembers(init, d);
      assert runs == init + [last];
      CandidateIsIdentity(last, d);
      forall r | r in runs && IsIdentityOn(r, d) ensures r in GroupOf(runs, d) {
        CandidateIsIdentity(r, d);
      }
    }
  }

  lemma {:induction false} GroupKeysMembers(runs: seq<Run>, d: string)
    ensures d in GroupKeys(runs) <==> exists r | r in runs :: IsIdentityOn(r, d)
  {
    if |runs| > 0 {
      var init, last := runs[..|runs| - 1], runs[|runs| - 1];
      GroupKeysMembers(init, d);
      assert runs == init + [last];
      CandidateIsIdentity(last, d);
      if exists r | r in runs :: IsIdentityOn(r, d) {
        var r :| r in runs && IsIdentityOn(r, d);
        if r != last { assert r in init; }
      }
    }
  }

  lemma GroupKeysHaveGroups(runs: seq<Run>)
    ensures forall d | d in GroupKeys(runs) :: |GroupOf(runs, d)| > 0
  {
    forall d | d in GroupKeys(runs) ensures |GroupOf(runs, d)| > 0 {
      GroupKeysMembers(runs, d);
      GroupOfMembers(runs, d);
      var r :| r in runs && IsIdentityOn(r, d);
      assert r in GroupOf(runs, d);
    }
  }

  // The run standing for a group of identity runs on `d` is itself an identity run on `d`;
  // it carries the least key of the group, and its code is the group's codes joined by newlines
  // in increasing key order.
  lemma MergedRunShape(group: seq<Run>, d: string)
    requires |group| > 0 && forall r | r in group :: IsIdentityOn(r, d)
    ensures IsIdentityOn(MergedRun(group), d)
    ensures exists r | r in group :: Key(r) == Key(MergedRun(group))
    ensures forall r | r in group :: KeyLeq(MergedRun(group), r)
    ensures SortedByKey(SortByKey(group)) && multiset(SortByKey(group)) == multiset(group)
    ensures MergedRun(group).code == Join("\n", Codes(SortByKey(group)))
  {
    SortByKeyCorrect(group);
  }

  // The identity part of `MergedRunShape` on its own.
  lemma MergedRunIdentity(group: seq<Run>, d: string)
    requires |group| > 0 && forall r | r in group :: IsIdentityOn(r, d)
    ensures IsIdentityOn(MergedRun(group), d)
  {
    SortByKeyMembers(group);
    assert SortByKey(group)[0] in group;
  }

  lemma GroupMergedIdentity(runs: seq<Run>, d: string)
    requires |GroupOf(runs, d)| > 0
    ensures IsIdentityOn(MergedRun(GroupOf(runs, d)), d)
  {
    GroupOfMembers(runs, d);
    MergedRunIdentity(GroupOf(runs, d), d);
  }

  // ---------------------------------------------------------------- counting

  function NumCandidates(runs: seq<Run>): (n: nat)
    ensures n <= |runs|
  {
    if |runs| == 0 then 0
    else NumCandidates(runs[..|runs| - 1]) + (if IsCandidate(runs[|runs| - 1]) then 1 else 0)
  }

  lemma {:induction false} GroupKeysCount(runs: seq<Run>)
    ensures |GroupKeys(runs)| <= NumCandidates(runs)
  {
    if |runs| > 0 { GroupKeysCount(runs[..|runs| - 1]); }
  }

  lemma {:induction false} UnmergedCount(runs: seq<Run>, seen: set<(nat, nat)>)
    requires forall r | r in runs && IsCandidate(r) :: Key(r) in seen
    ensures |Unmerged(runs, seen)| <= |runs| - NumCandidates(runs)
  {
    if |runs| > 0 {
      var init := runs[..|runs| - 1];
      assert forall r | r in init :: r in runs;
      UnmergedCount(init, seen);
    }
  }

  // `merge_identity_runs` never returns more runs than it was given.
  lemma MergedSize(runs: seq<Run>)
    ensures |Merged(runs)| <= |runs|
  {
    GroupKeysCount(runs);
    UnmergedCount(runs, SeenKeys(runs));
  }

  // The result is sorted by (section_index, run_index).
  lemma MergedSorted(runs: seq<Run>)
    ensures SortedByKey(Merged(runs))
  {
    SortByKeySorted(Unmerged(runs, SeenKeys(runs)) + MergedRuns(runs));
  }

  lemma {:induction false} UnmergedMembers(runs: seq<Run>, seen: set<(nat, nat)>)
    ensures forall r :: r in Unmerged(runs, seen) <==> r in runs && Key(r) !in seen
  {
    if |runs| > 0 {
      var init, last := runs[..|runs| - 1], runs[|runs| - 1];
      UnmergedMembers(init, seen);
      assert runs == init + [last];
    }
  }

  lemma {:induction false} MergedRunsOfMembers(runs: seq<Run>, keys: seq<string>)
    requires forall d | d in keys :: |GroupOf(runs, d)| > 0
    ensures forall m | m in MergedRunsOf(runs, keys) ::
      exists d | d in keys :: m == MergedRun(GroupOf(runs, d)) && IsIdentityOn(m, d)
    ensures forall d | d in keys :: MergedRun(GroupOf(runs, d)) in MergedRunsOf(runs, keys)
  {
    if |keys| > 0 {
      var n := |keys| - 1;
      var init, d := keys[..n], keys[n];
      assert keys == init + [d];
      assert forall e | e in init :: e in keys;
      MergedRunsOfMembers(runs, init);
      GroupOfMembers(runs, d);
      MergedRunIdentity(GroupOf(runs, d), d);
      var last := MergedRun(GroupOf(runs, d));
      assert MergedRunsOf(runs, keys) == MergedRunsOf(runs, init) + [last];
      forall m | m in MergedRunsOf(runs, keys)
        ensures exists e | e in keys :: m == MergedRun(GroupOf(runs, e)) && IsIdentityOn(m, e)
      {
        if m == last {
          assert d in keys;
        } else {
          assert m in MergedRunsOf(runs, init);
          var e :| e in init && m == MergedRun(GroupOf(runs, e)) && IsIdentityOn(m, e);
          assert e in keys;
        }
      }
    }
  }

  // Every run of the result either comes unchanged from the input or stands for the group of
  // some dataset.
  lemma MergedMembers(runs: seq<Run>)
    ensures forall m | m in Merged(runs) ::
      (m in runs && !IsCandidate(m))
      || exists d | d in GroupKeys(runs) :: |GroupOf(runs, d)| > 0 && m == MergedRun(GroupOf(runs, d))
  {
    var all := Unmerged(runs, SeenKeys(runs)) + MergedRuns(runs);
    SortByKeyMembers(all);
    UnmergedMembers(runs, SeenKeys(runs));
    GroupKeysHaveGroups(runs);
    MergedRunsOfMembers(runs, GroupKeys(runs));
  }

  // A run that is not a candidate is passed through unchanged, given that no two input runs
  // share a key (which `parse_sas_script` guarantees).
  lemma MergedKeepsOthers(runs: seq<Run>)
    requires UniqueKeys(runs)
    ensures forall r | r in runs && !IsCandidate(r) :: r in Merged(runs)
  {
    var all := Unmerged(runs, SeenKeys(runs)) + MergedRuns(runs);
    SortByKeyMembers(all);
    UnmergedMembers(runs, SeenKeys(runs));
    forall r | r in runs && !IsCandidate(r) ensures Key(r) !in SeenKeys(runs) {
      forall c | c in runs && IsCandidate(c) ensures Key(c) != Key(r) {
        var i :| 0 <= i < |runs| && runs[i] == r;
        var j :| 0 <= j < |runs| && runs[j] == c;
        assert i != j;
      }
    }
  }

  lemma {:induction false} UnmergedNoIdentity(runs: seq<Run>, d: string)
    ensures CountIdentity(Unmerged(runs, SeenKeys(runs)), d) == 0
  {
    var seen := SeenKeys(runs);
    var u := Unmerged(runs, seen);
    UnmergedMembers(runs, seen);
    forall k | 0 <= k < |u| ensures !IsIdentityOn(u[k], d) {
      CandidateIsIdentity(u[k], d);
      assert u[k] in u;
    }
    if CountIdentity(u, d) != 0 {
      CountIdentityZero(u, d);
    }
  }

  lemma {:induction false} CountIdentityZero(rs: seq<Run>, d: string)
    requires CountIdentity(rs, d) != 0
    ensures exists k | 0 <= k < |rs| :: IsIdentityOn(rs[k], d)
  {
    var n := |rs| - 1;
    if !IsIdentityOn(rs[n], d) {
      CountIdentityZero(rs[..n], d);
      var k :| 0 <= k < n && IsIdentityOn(rs[..n][k], d);
      assert rs[k] == rs[..n][k];
    }
  }

  lemma {:induction false} MergedRunsOfCount(runs: seq<Run>, keys: seq<string>, d: string)
    requires forall e | e in keys :: |GroupOf(runs, e)| > 0
    requires NoDups(keys)
    ensures CountIdentity(MergedRunsOf(runs, keys), d) == if d in keys then 1 else 0
  {
    if |keys| > 0 {
      var n := |keys| - 1;
      var init, e := keys[..n], keys[n];
      assert keys == init + [e];
      assert forall x | x in init :: x in keys;
      assert NoDups(init);
      MergedRunsOfCount(runs, init, d);
      GroupMergedIdentity(runs, e);
      var last := MergedRun(GroupOf(runs, e));
      assert MergedRunsOf(runs, keys) == MergedRunsOf(runs, init) + [last];
      CountIdentityAppend(MergedRunsOf(runs, init), [last], d);
      assert [last][..0] == [];
      assert IsIdentityOn(last, d) <==> d == e;
      if d == e {
        assert d !in init;
      }
    }
  }

  // Exactly one run of the result is an identity run on `d` when some input run is, and none
  // otherwise; the one there is stands for the whole group of `d`.
  lemma MergedIdentity(runs: seq<Run>, d: string)
    ensures CountIdentity(Merged(runs), d) == if exists r | r in runs :: IsIdentityOn(r, d) then 1 else 0
    ensures (exists r | r in runs :: IsIdentityOn(r, d)) ==>
      |GroupOf(runs, d)| > 0 && MergedRun(GroupOf(runs, d)) in Merged(runs)
  {
    MergedIdentityCount(runs, d);
    GroupKeysHaveGroups(runs);
    GroupKeysMembers(runs, d);
    if exists r | r in runs :: IsIdentityOn(r, d) {
      var u, ms := Unmerged(runs, SeenKeys(runs)), MergedRuns(runs);
      MergedRunsOfMembers(runs, GroupKeys(runs));
      assert MergedRun(GroupOf(runs, d)) in ms;
      SortByKeyMembers(u + ms);
    }
  }

  lemma MergedIdentityCount(runs: seq<Run>, d: string)
    ensures CountIdentity(Merged(runs), d) == if d in GroupKeys(runs) then 1 else 0
  {
    var u, ms := Unmerged(runs, SeenKeys(runs)), MergedRuns(runs);
    assert Merged(runs) == SortByKey(u + ms);
    GroupKeysHaveGroups(runs);
    assert ms == MergedRunsOf(runs, GroupKeys(runs));
    CountIdentitySort(u + ms, d);
    CountIdentityAppend(u, ms, d);
    UnmergedNoIdentity(runs, d);
    MergedRunsOfCount(runs, GroupKeys(runs), d);
    calc {
      CountIdentity(Merged(runs), d);
      CountIdentity(u + ms, d);
      CountIdentity(u, d) + CountIdentity(ms, d);
      CountIdentity(ms, d);
    }
  }

  // ---------------------------------------------------------------- the method

  lemma GroupStep(runs: seq<Run>, i: nat)
    requires i < |runs|
    ensures runs[..i + 1][..i] == runs[..i] && runs[..i + 1][i] == runs[i]
  {
  }

  // The keys of the runs of `rs`.
  function KeysOf(rs: seq<Run>): (ks: set<(nat, nat)>)
    ensures forall k :: k in ks <==> exists r | r in rs :: Key(r) == k
  {
    if |rs| == 0 then {}
    else
      var init := rs[..|rs| - 1];
      assert rs == init + [rs[|rs| - 1]];
      KeysOf(init) + {Key(rs[|rs| - 1])}
  }

  lemma MergedRunsOfStep(runs: seq<Run>, keys: seq<string>, k: nat)
    requires k < |keys| && forall d | d in keys :: |GroupOf(runs, d)| > 0
    ensures keys[..k + 1] == keys[..k] + [keys[k]]
    ensures MergedRunsOf(runs, keys[..k + 1]) == MergedRunsOf(runs, keys[..k]) + [MergedRun(GroupOf(runs, keys[k]))]
  {
    assert keys[..k + 1][..k] == keys[..k];
  }

  // The keys of the candidates on the datasets `keys`.
  ghost function GroupedKeys(runs: seq<Run>, keys: seq<string>): set<(nat, nat)> {
    set r | r in runs && IsCandidate(r) && r.inputs[0] in keys :: Key(r)
  }

  // Step 1: `grouped_runs`, with the order in which its keys were first inserted.
  method GroupCandidates(runs: seq<Run>) returns (groups: map<string, seq<Run>>, order: seq<string>)
    ensures order == GroupKeys(runs)
    ensures forall d :: d in groups <==> d in order
    ensures forall d | d in groups :: groups[d] == GroupOf(runs, d)
  {
    groups := map[];
    order := [];
    for i := 0 to |runs|
      invariant order == GroupKeys(runs[..i])
      invariant forall d :: d in groups <==> d in order
      invariant forall d | d in groups :: groups[d] == GroupOf(runs[..i], d)
    {
      GroupStep(runs, i);
      var run := runs[i];
      assert forall d :: (GroupOf(runs[..i + 1], d)
        == GroupOf(runs[..i], d) + (if IsCandidate(run) && run.inputs[0] == d then [run] else []));
      if |run.inputs| == 1 && run.inputs == run.outputs {
        var key := run.inputs[0];
        if key !in groups {
          GroupKeysMembers(runs[..i], key);
          GroupOfMembers(runs[..i], key);
          if GroupOf(runs[..i], key) != [] {
            assert GroupOf(runs[..i], key)[0] in GroupOf(runs[..i], key);
          }
        }
        if key in groups {
          groups := groups[key := groups[key] + [run]];
        } else {
          groups := groups[key := [run]];
          order := order + [key];
        }
      }
    }
    assert runs[..|runs|] == runs;
  }

  // `for run in runs: seen_run_keys.add((run["section_index"], run["run_index"]))`.
  method AddKeys(seen: set<(nat, nat)>, group: seq<Run>) returns (seen': set<(nat, nat)>)
    ensures seen' == seen + KeysOf(group)
  {
    seen' := seen;
    for m := 0 to |group|
      invariant seen' == seen + KeysOf(group[..m])
    {
      assert group[..m + 1][..m] == group[..m];
      seen' := seen' + {Key(group[m])};
    }
    assert group[..|group|] == group;
  }

  // Step 2: one merged run per group, in key order, and the keys of every grouped run.
  method MergeGroups(runs: seq<Run>, groups: map<string, seq<Run>>, order: seq<string>)
    returns (mergedRuns: seq<Run>, seen: set<(nat, nat)>)
    requires order == GroupKeys(runs)
    requires forall d :: d in groups <==> d in order
    requires forall d | d in groups :: groups[d] == GroupOf(runs, d)
    ensures mergedRuns == MergedRuns(runs)
    ensures seen == SeenKeys(runs)
  {
    GroupKeysHaveGroups(runs);
    mergedRuns := [];
    seen := {};
    for k := 0 to |order|
      invariant mergedRuns == MergedRunsOf(runs, order[..k])
      invariant seen == GroupedKeys(runs, order[..k])
    {
      MergedRunsOfStep(runs, order, k);
      ghost var d := order[k];
      assert d in order;
      assert groups[d] == GroupOf(runs, d);
      var group := SortByKey(groups[order[k]]);
      var code := Join("\n", Codes(group));
      var merged := Run(group[0].sectionIndex, group[0].runIndex, code,
                        group[0].inputs, group[0].outputs, None);
      assert merged == MergedRun(GroupOf(runs, d));
      mergedRuns := mergedRuns + [merged];
      seen := AddKeys(seen, group);
      GroupSeen(runs, d, order[..k]);
      assert order[..k + 1] == order[..k] + [d];
    }
    assert order[..|order|] == order;
    AllCandidatesSeen(runs);
  }

  // Step 3: the runs whose key was not seen, in input order.
  method KeepUnmerged(runs: seq<Run>, seen: set<(nat, nat)>) returns (kept: seq<Run>)
    ensures kept == Unmerged(runs, seen)
  {
    kept := [];
    for i := 0 to |runs|
      invariant kept == Unmerged(runs[..i], seen)
    {
      GroupStep(runs, i);
      if Key(runs[i]) !in seen {
        kept := kept + [runs[i]];
      }
    }
    assert runs[..|runs|] == runs;
  }

  // `merge_identity_runs` on the parsed records `runs`.
  method MergeIdentityRuns(runs: seq<Run>) returns (result: seq<Run>)
    ensures result == Merged(runs)
  {
    var groups, order := GroupCandidates(runs);
    var mergedRuns, seen := MergeGroups(runs, groups, order);
    var kept := KeepUnmerged(runs, seen);
    result := SortByKey(kept + mergedRuns);
  }

  lemma GroupSeen(runs: seq<Run>, d: string, done: seq<string>)
    ensures GroupedKeys(runs, done) + KeysOf(SortByKey(GroupOf(runs, d)))
      == GroupedKeys(runs, done + [d])
  {
    SortByKeyMembers(GroupOf(runs, d));
    GroupOfMembers(runs, d);
    forall r | r in runs && IsCandidate(r) && r.inputs[0] == d ensures r in GroupOf(runs, d) {
      CandidateIsIdentity(r, d);
    }
    forall r | r in GroupOf(runs, d) ensures IsCandidate(r) && r.inputs[0] == d {
      CandidateIsIdentity(r, d);
    }
  }

  lemma AllCandidatesSeen(runs: seq<Run>)
    ensures GroupedKeys(runs, GroupKeys(runs)) == SeenKeys(runs)
  {
    forall r | r in runs && IsCandidate(r) ensures r.inputs[0] in GroupKeys(runs) {
      CandidateIsIdentity(r, r.inputs[0]);
      GroupKeysMembers(runs, r.inputs[0]);
    }
  }

  // Two runs on `x`, given out of key order, merge into one run at the earlier key whose code
  // is the earlier code, a newline, then the later code.
  lemma MergeExample()
    ensures Merged([Run(0, 4, "b", ["x"], ["x"], None), Run(0, 2, "a", ["x"], ["x"], None)])
         == [Run(0, 2, "a\nb", ["x"], ["x"], None)]
  {
    var r1, r0 := Run(0, 4, "b", ["x"], ["x"], None), Run(0, 2, "a", ["x"], ["x"], None);
    var runs := [r1, r0];
    var m := Run(0, 2, "a\nb", ["x"], ["x"], None);
    ExampleMergedRuns(runs, r1, r0);
    ExampleUnmerged(runs, r1, r0);
    assert Unmerged(runs, SeenKeys(runs)) + MergedRuns(runs) == [m];
    assert SortByKey([m]) == [m];
  }

  lemma ExampleMergedRuns(runs: seq<Run>, r1: Run, r0: Run)
    requires r1 == Run(0, 4, "b", ["x"], ["x"], None) && r0 == Run(0, 2, "a", ["x"], ["x"], None)
    requires runs == [r1, r0]
    ensures MergedRuns(runs) == [Run(0, 2, "a\nb", ["x"], ["x"], None)]
  {
    ExampleGroups(runs, r1, r0);
    ExampleMergedRun(r1, r0);
    GroupKeysHaveGroups(runs);
    assert ["x"][..0] == [];
    assert MergedRunsOf(runs, ["x"]) == [MergedRun([r1, r0])];
  }

  lemma ExampleGroups(runs: seq<Run>, r1: Run, r0: Run)
    requires r1 == Run(0, 4, "b", ["x"], ["x"], None) && r0 == Run(0, 2, "a", ["x"], ["x"], None)
    requires runs == [r1, r0]
    ensures GroupKeys(runs) == ["x"] && GroupOf(runs, "x") == [r1, r0]
  {
    assert runs[..1] == [r1];
    assert GroupKeys([r1]) == ["x"];
    assert GroupOf([r1], "x") == [r1];
  }

  lemma ExampleMergedRun(r1: Run, r0: Run)
    requires r1 == Run(0, 4, "b", ["x"], ["x"], None) && r0 == Run(0, 2, "a", ["x"], ["x"], None)
    ensures MergedRun([r1, r0]) == Run(0, 2, "a\nb", ["x"], ["x"], None)
  {
    ExampleSort(r1, r0);
    assert Codes([r0, r1]) == ["a", "b"];
    assert Join("\n", ["a", "b"]) == "a\nb";
  }

  lemma ExampleSort(r1: Run, r0: Run)
    requires r1 == Run(0, 4, "b", ["x"], ["x"], None) && r0 == Run(0, 2, "a", ["x"], ["x"], None)
    ensures SortByKey([r1, r0]) == [r0, r1]
  {
    assert [r1, r0][..1] == [r1];
    assert SortByKey([r1]) == [r1];
    assert Insert([r1], r0) == [r0, r1];
  }

  lemma ExampleUnmerged(runs: seq<Run>, r1: Run, r0: Run)
    requires r1 == Run(0, 4, "b", ["x"], ["x"], None) && r0 == Run(0, 2, "a", ["x"], ["x"], None)
    requires runs == [r1, r0]
    ensures Unmerged(runs, SeenKeys(runs)) == []
  {
    var seen := SeenKeys(runs);
    assert Key(r1) in seen && Key(r0) in seen;
    assert runs[..1] == [r1];
    assert Unmerged([r1], seen) == [];
  }
}
