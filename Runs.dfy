// The run record that flows through the pipeline, its (section_index, run_index) key, and the
// stable key sort (`list.sort(key=lambda x: (x["section_index"], x["run_index"]))`).
module Runs {
  import opened Wrappers
  import opened Text

  // The value under `sub_graph_id`: Python `None` or a component number.
  datatype SubGraphId = NoGraph | Graph(id: nat)

  // One record of the pipeline. `subGraph` is `None` while the record has no `sub_graph_id`
  // key yet.
  datatype Run = Run(
    sectionIndex: nat,
    runIndex: nat,
    code: string,
    inputs: seq<string>,
    outputs: seq<string>,
    subGraph: Option<SubGraphId>)

  // The tuple `(section_index, run_index)` compared lexicographically.
  predicate KeyLess(a: Run, b: Run) {
    a.sectionIndex < b.sectionIndex || (a.sectionIndex == b.sectionIndex && a.runIndex < b.runIndex)
  }

  predicate KeyLeq(a: Run, b: Run) {
    !KeyLess(b, a)
  }

  function Key(r: Run): (nat, nat) {
    (r.sectionIndex, r.runIndex)
  }

  predicate SortedByKey(rs: seq<Run>) {
    forall i, j | 0 <= i < j < |rs| :: KeyLeq(rs[i], rs[j])
  }

  predicate StrictlySorted(rs: seq<Run>) {
    forall i, j | 0 <= i < j < |rs| :: KeyLess(rs[i], rs[j])
  }

  predicate UniqueKeys(rs: seq<Run>) {
    forall i, j | 0 <= i < j < |rs| :: Key(rs[i]) != Key(rs[j])
  }

  lemma StrictlySortedUniqueKeys(rs: seq<Run>)
    requires StrictlySorted(rs)
    ensures UniqueKeys(rs) && SortedByKey(rs)
  {
  }

  // Insert `x` after every element whose key is not greater, as a stable sort does with the
  // last element of its input.
  function Insert(rs: seq<Run>, x: Run): (r: seq<Run>)
    ensures |r| == |rs| + 1
    ensures multiset(r) == multiset(rs) + multiset{x}
    decreases |rs|
  {
    if |rs| == 0 || !KeyLess(x, rs[|rs| - 1]) then rs + [x]
    else
      var init, last := rs[..|rs| - 1], rs[|rs| - 1];
      assert rs == init + [last];
      Insert(init, x) + [last]
  }

  // Stable sort by key: insertion of each element in turn.
  function SortByKey(rs: seq<Run>): (r: seq<Run>)
    ensures |r| == |rs|
    ensures multiset(r) == multiset(rs)
  {
    if |rs| == 0 then []
    else
      var init := rs[..|rs| - 1];
      assert rs == init + [rs[|rs| - 1]];
      Insert(SortByKey(init), rs[|rs| - 1])
  }

  lemma {:induction false} InsertSorted(rs: seq<Run>, x: Run)
    requires SortedByKey(rs)
    ensures SortedByKey(Insert(rs, x))
    decreases |rs|
  {
    if |rs| > 0 && KeyLess(x, rs[|rs| - 1]) {
      var init, last := rs[..|rs| - 1], rs[|rs| - 1];
      InsertSorted(init, x);
      var r := Insert(init, x);
      forall y | y in r ensures KeyLeq(y, last) {
        assert y in multiset(r);
        if y != x {
          assert y in init;
          var k :| 0 <= k < |init| && init[k] == y;
          assert rs[k] == y;
        }
      }
    }
  }

  lemma {:induction false} SortByKeySorted(rs: seq<Run>)
    ensures SortedByKey(SortByKey(rs))
  {
    if |rs| > 0 {
      SortByKeySorted(rs[..|rs| - 1]);
      InsertSorted(SortByKey(rs[..|rs| - 1]), rs[|rs| - 1]);
    }
  }

  lemma SortByKeyMembers(rs: seq<Run>)
    ensures forall x :: x in SortByKey(rs) <==> x in rs
  {
    forall x ensures x in SortByKey(rs) <==> x in rs {
      assert x in SortByKey(rs) <==> x in multiset(SortByKey(rs));
      assert x in rs <==> x in multiset(rs);
    }
  }

  // The result of the key sort is sorted, holds the same runs, and begins with a run of least
  // key.
  lemma SortByKeyCorrect(rs: seq<Run>)
    ensures SortedByKey(SortByKey(rs))
    ensures multiset(SortByKey(rs)) == multiset(rs)
    ensures |rs| > 0 ==> SortByKey(rs)[0] in rs && forall y | y in rs :: KeyLeq(SortByKey(rs)[0], y)
  {
    SortByKeySorted(rs);
    SortByKeyMembers(rs);
    var r := SortByKey(rs);
    forall y | y in rs ensures KeyLeq(r[0], y) {
      var k :| 0 <= k < |r| && r[k] == y;
      if k > 0 { assert KeyLeq(r[0], r[k]); }
    }
  }

  // A run whose single input is its single output `d`.
  predicate IsIdentityOn(r: Run, d: string) {
    r.inputs == [d] && r.outputs == [d]
  }

  // How many runs are identity runs on `d`.
  function CountIdentity(rs: seq<Run>, d: string): (n: nat)
    ensures n <= |rs|
  {
    if |rs| == 0 then 0
    else CountIdentity(rs[..|rs| - 1], d) + (if IsIdentityOn(rs[|rs| - 1], d) then 1 else 0)
  }

  lemma {:induction false} CountIdentityAppend(a: seq<Run>, b: seq<Run>, d: string)
    ensures CountIdentity(a + b, d) == CountIdentity(a, d) + CountIdentity(b, d)
    decreases |b|
  {
    if |b| == 0 {
      assert a + b == a;
    } else {
      var bi := b[..|b| - 1];
      assert (a + b)[..|a + b| - 1] == a + bi;
      assert (a + b)[|a + b| - 1] == b[|b| - 1];
      CountIdentityAppend(a, bi, d);
    }
  }

  lemma {:induction false} CountIdentityInsert(rs: seq<Run>, x: Run, d: string)
    ensures CountIdentity(Insert(rs, x), d) == CountIdentity(rs, d) + CountIdentity([x], d)
    decreases |rs|
  {
    if |rs| == 0 || !KeyLess(x, rs[|rs| - 1]) {
      CountIdentityAppend(rs, [x], d);
    } else {
      var init := rs[..|rs| - 1];
      CountIdentityInsert(init, x, d);
      assert (Insert(init, x) + [rs[|rs| - 1]])[..|rs|] == Insert(init, x);
    }
  }

  // Sorting neither creates nor loses identity runs.
  lemma {:induction false} CountIdentitySort(rs: seq<Run>, d: string)
    ensures CountIdentity(SortByKey(rs), d) == CountIdentity(rs, d)
  {
    if |rs| > 0 {
      var init := rs[..|rs| - 1];
      CountIdentitySort(init, d);
      CountIdentityInsert(SortByKey(init), rs[|rs| - 1], d);
    }
  }

  lemma CountIdentityPositive(rs: seq<Run>, d: string, i: nat)
    requires i < |rs| && IsIdentityOn(rs[i], d)
    ensures CountIdentity(rs, d) >= 1
  {
    CountIdentityAppend(rs[..i], rs[i..], d);
    CountIdentityAppend([rs[i]], rs[i + 1..], d);
    assert rs[i..] == [rs[i]] + rs[i + 1..];
    assert rs == rs[..i] + rs[i..];
  }

  // With a count of one, the identity run is the only one.
  lemma {:induction false} CountIdentityOne(rs: seq<Run>, d: string, i: nat, j: nat)
    requires CountIdentity(rs, d) == 1
    requires i < |rs| && j < |rs| && IsIdentityOn(rs[i], d) && IsIdentityOn(rs[j], d)
    ensures i == j
    decreases |rs|
  {
    var n := |rs| - 1;
    if i == n && j != n {
      CountIdentityPositive(rs[..n], d, j);
    } else if j == n && i != n {
      CountIdentityPositive(rs[..n], d, i);
    } else if i != n && j != n {
      CountIdentityPositive(rs[..n], d, i);
      CountIdentityOne(rs[..n], d, i, j);
    }
  }
}
