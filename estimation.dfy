/** Error estimation, `estimate_error_rate`: choose a test set from the
    same-basis pairs, mark it, compare the test outcomes with the peer's and
    report the share of mismatches. */
module ErrorEstimation {
  import opened Wrappers
  import opened Pairs

  /** `same_basis_indices`, the indices of the pairs whose bases agree, in
      list order. With indices equal to positions it holds exactly the
      same-basis positions, in increasing order. */
  function Pool(pairs: seq<PairInfo>): (pool: seq<int>)
    ensures Indexed(pairs) ==>
      Increasing(pool) &&
      forall x :: x in pool <==> 0 <= x < |pairs| && Truthy(pairs[x].sameBasis)
    decreases |pairs|
  {
    if |pairs| == 0 then []
    else
      var init := pairs[..|pairs| - 1];
      var last := pairs[|pairs| - 1];
      assert Indexed(pairs) ==> Indexed(init);
      var p := Pool(init);
      assert Indexed(pairs) ==> forall t :: 0 <= t < |p| ==> p[t] in p && p[t] < last.index;
      IncreasingSnoc(p, last.index);
      Pool(init) + (if Truthy(last.sameBasis) then [last.index] else [])
  }

  /** Appending an element above all others keeps a sequence increasing. */
  lemma IncreasingSnoc(s: seq<int>, x: int)
    ensures Increasing(s) && (forall t :: 0 <= t < |s| ==> s[t] < x) ==> Increasing(s + [x])
  {
  }

  /** What `random.sample(pool, size)` may return: `size` distinct elements
      of the pool, in any order. */
  predicate IsSample(sample: seq<int>, pool: seq<int>, size: int)
  {
    |sample| == size && Distinct(sample) &&
    forall t :: 0 <= t < |sample| ==> sample[t] in pool
  }

  /** The first loop: every pair's `test_outcome` says whether its index is
      in the test set. */
  function Marked(pairs: seq<PairInfo>, test: seq<int>): (r: seq<PairInfo>)
    ensures |r| == |pairs|
    ensures forall j :: 0 <= j < |r| ==>
      SameMeasurement(r[j], pairs[j]) && r[j].sameBasis == pairs[j].sameBasis &&
      r[j].sameOutcome == pairs[j].sameOutcome &&
      r[j].testOutcome == Some(pairs[j].index in test)
  {
    seq(|pairs|, j requires 0 <= j < |pairs| => pairs[j].(testOutcome := Some(pairs[j].index in test)))
  }

  /** `test_outcomes`, the `(index, outcome)` list of the test set. */
  function LocalOutcomes(pairs: seq<PairInfo>, test: seq<int>): (r: seq<(int, int)>)
    requires InRange(test, |pairs|)
    ensures |r| == |test|
    ensures forall t :: 0 <= t < |r| ==> r[t] == (test[t], pairs[test[t]].outcome)
  {
    seq(|test|, t requires 0 <= t < |test| => (test[t], pairs[test[t]].outcome))
  }

  /** The pairs after the first `k` comparisons of the zip: the pair named by
      `local[t]` records whether its outcome equals the peer's. */
  function Compared(pairs: seq<PairInfo>, local: seq<(int, int)>, target: seq<(int, int)>, k: nat)
    : (r: seq<PairInfo>)
    requires k <= |local| && k <= |target|
    requires forall t :: 0 <= t < |local| ==> 0 <= local[t].0 < |pairs|
    ensures |r| == |pairs|
    ensures forall j :: 0 <= j < |r| ==>
      SameMeasurement(r[j], pairs[j]) && r[j].sameBasis == pairs[j].sameBasis &&
      r[j].testOutcome == pairs[j].testOutcome
    ensures forall j :: 0 <= j < |r| && (forall t :: 0 <= t < k ==> local[t].0 != j) ==>
      r[j].sameOutcome == pairs[j].sameOutcome
    decreases k
  {
    if k == 0 then pairs
    else
      var q := Compared(pairs, local, target, k - 1);
      var i := local[k - 1].0;
      q[i := q[i].(sameOutcome := Some(local[k - 1].1 == target[k - 1].1))]
  }

  /** `num_error` after the first `k` comparisons. */
  function Mismatches(local: seq<(int, int)>, target: seq<(int, int)>, k: nat): (n: nat)
    requires k <= |local| && k <= |target|
    ensures n <= k
    ensures n == 0 <==> forall t :: 0 <= t < k ==> local[t].1 == target[t].1
    decreases k
  {
    if k == 0 then 0
    else Mismatches(local, target, k - 1) + (if local[k - 1].1 != target[k - 1].1 then 1 else 0)
  }

  /** With distinct test indices every compared pair keeps its own result:
      the pair named by `local[t]` records whether the outcomes at
      position `t` agree. */
  lemma {:induction false} ComparedAt(pairs: seq<PairInfo>, local: seq<(int, int)>,
                                      target: seq<(int, int)>, k: nat, t: nat)
    requires k <= |local| && k <= |target| && t < k
    requires forall s :: 0 <= s < |local| ==> 0 <= local[s].0 < |pairs|
    requires forall s, u :: 0 <= s < u < |local| ==> local[s].0 != local[u].0
    ensures Compared(pairs, local, target, k)[local[t].0].sameOutcome
         == Some(local[t].1 == target[t].1)
    decreases k
  {
    if t < k - 1 {
      ComparedAt(pairs, local, target, k - 1, t);
      assert local[k - 1].0 != local[t].0;
    }
  }

  /** Pairs outside the test set never get a comparison result. */
  lemma ComparedOnlyTested(pairs: seq<PairInfo>, test: seq<int>,
                           target: seq<(int, int)>, k: nat, j: nat)
    requires InRange(test, |pairs|) && j < |pairs| && j !in test
    requires k <= |test| && k <= |target|
    ensures Compared(pairs, LocalOutcomes(pairs, test), target, k)[j].sameOutcome
         == pairs[j].sameOutcome
  {
    var local := LocalOutcomes(pairs, test);
    forall t | 0 <= t < k ensures local[t].0 != j {
      assert local[t].0 == test[t];
    }
  }

  /** Only same-basis pairs are tested: after marking a sample of the pool,
      `test_outcome` is true exactly on the sample, and only where
      `same_basis` is true. */
  lemma TestImpliesSameBasis(pairs: seq<PairInfo>, test: seq<int>)
    requires Indexed(pairs)
    requires forall t :: 0 <= t < |test| ==> test[t] in Pool(pairs)
    ensures forall j :: 0 <= j < |pairs| ==>
      (Truthy(Marked(pairs, test)[j].testOutcome) <==> j in test)
    ensures forall j :: 0 <= j < |pairs| && Truthy(Marked(pairs, test)[j].testOutcome) ==>
      Truthy(pairs[j].sameBasis)
  {
    var pool := Pool(pairs);
    forall j | 0 <= j < |pairs| && j in test
      ensures Truthy(pairs[j].sameBasis)
    {
      var t :| 0 <= t < |test| && test[t] == j;
      assert j in pool;
    }
  }

  /** A sample of the pool lies within the pair list. */
  lemma SampleInRange(pairs: seq<PairInfo>, test: seq<int>)
    requires Indexed(pairs)
    requires forall t :: 0 <= t < |test| ==> test[t] in Pool(pairs)
    ensures InRange(test, |pairs|)
  {
    var pool := Pool(pairs);
    forall t | 0 <= t < |test| ensures 0 <= test[t] < |pairs| {
      assert test[t] in pool;
    }
  }

  /** A distinct sample has distinct indices in its outcome list. */
  lemma LocalOutcomesDistinct(pairs: seq<PairInfo>, test: seq<int>)
    requires InRange(test, |pairs|) && Distinct(test)
    ensures var local := LocalOutcomes(pairs, test);
      forall s, u :: 0 <= s < u < |local| ==> local[s].0 != local[u].0
  {
  }

  /** Any prefix of an increasing pool is a sample of it, so a test set of
      every size up to the pool's size exists. */
  lemma SampleExists(pool: seq<int>, size: nat)
    requires Increasing(pool) && size <= |pool|
    ensures IsSample(pool[..size], pool, size)
  {
    assert forall t :: 0 <= t < size ==> pool[..size][t] == pool[t];
  }

  /** The returned error rate: `num_error / num_test_bits`, dividing by the
      requested test size, not by the number of compared pairs. */
  function Rate(numError: int, numTestBits: int): (r: Result<Ratio, Error>)
    ensures r.Err? <==> numTestBits == 0
    ensures r.Ok? ==> r.value.num == numError && r.value.den == numTestBits
  {
    if numTestBits == 0 then Err(ZeroDivision) else Ok(Ratio(numError, numTestBits))
  }

  /** `random.sample(pool, min(numTestBits, len(pool)))` for a pool without
      repeats: some valid sample, chosen nondeterministically. */
  method ChooseTestSet(pool: seq<int>, numTestBits: nat) returns (test: seq<int>)
    requires Increasing(pool)
    ensures IsSample(test, pool, if numTestBits < |pool| then numTestBits else |pool|)
  {
    var size := if numTestBits < |pool| then numTestBits else |pool|;
    SampleExists(pool, size);
    test :| IsSample(test, pool, size);
  }

  /** The loop `pair.test_outcome = pair.index in test_indices`. */
  method MarkTestSet(pairs: array<PairInfo>, test: seq<int>)
    modifies pairs
    ensures pairs[..] == Marked(old(pairs[..]), test)
  {
    for j := 0 to pairs.Length
      invariant forall u :: 0 <= u < j ==> pairs[u] == Marked(old(pairs[..]), test)[u]
      invariant forall u :: j <= u < pairs.Length ==> pairs[u] == old(pairs[u])
    {
      pairs[j] := pairs[j].(testOutcome := Some(pairs[j].index in test));
    }
  }

  /** The comparison loop over `zip(test_outcomes, target_test_outcomes)`:
      counts and records mismatches until the zip ends or an index assertion
      fails. */
  method CompareTestOutcomes(pairs: array<PairInfo>, local: seq<(int, int)>, target: seq<(int, int)>)
    returns (numError: nat)
    requires forall t :: 0 <= t < |local| ==> 0 <= local[t].0 < pairs.Length
    modifies pairs
    ensures pairs[..] == Compared(old(pairs[..]), local, target, AlignedPrefix(local, target))
    ensures numError == Mismatches(local, target, AlignedPrefix(local, target))
  {
    numError := 0;
    ghost var before := pairs[..];
    var m := if |local| < |target| then |local| else |target|;
    for t := 0 to m
      invariant pairs[..] == Compared(before, local, target, t)
      invariant numError == Mismatches(local, target, t)
      invariant forall s :: 0 <= s < t ==> local[s].0 == target[s].0
    {
      var i1, t1 := local[t].0, local[t].1;
      var i2, t2 := target[t].0, target[t].1;
      if i1 != i2 {
        AlignedPrefixIsFirstMismatch(local, target, t);
        return;
      }
      ghost var q := pairs[..];
      if t1 != t2 {
        numError := numError + 1;
        pairs[i1] := pairs[i1].(sameOutcome := Some(false));
      } else {
        pairs[i1] := pairs[i1].(sameOutcome := Some(true));
      }
      assert pairs[..] == q[i1 := q[i1].(sameOutcome := Some(t1 == t2))];
    }
    AlignedPrefixIsFirstMismatch(local, target, m);
  }

  /** `estimate_error_rate`. Bob answers the test indices Alice sends:
      `reply(testIndices)` is his `target_test_outcomes`. Pairs are marked and
      compared in place; a failed index assertion keeps the comparisons made
      before it. The sent payloads are returned with the result. */
  method EstimateErrorRate(pairs: array<PairInfo>, numTestBits: int, reply: seq<int> -> seq<(int, int)>)
    returns (testIndices: seq<int>, testOutcomes: seq<(int, int)>, r: Result<Ratio, Error>)
    requires Indexed(pairs[..])
    modifies pairs
    ensures numTestBits < 0 ==>
      r == Err(NegativeSample) && pairs[..] == old(pairs[..]) && testIndices == [] && testOutcomes == []
    ensures numTestBits >= 0 ==>
      var pool := Pool(old(pairs[..]));
      var target := reply(testIndices);
      IsSample(testIndices, pool, if numTestBits < |pool| then numTestBits else |pool|) &&
      InRange(testIndices, pairs.Length) &&
      testOutcomes == LocalOutcomes(old(pairs[..]), testIndices) &&
      pairs[..] == Compared(Marked(old(pairs[..]), testIndices), testOutcomes, target,
                            AlignedPrefix(testOutcomes, target)) &&
      r == if !FullyAligned(testOutcomes, target) then Err(DesyncAt(testOutcomes, target))
           else Rate(Mismatches(testOutcomes, target, AlignedPrefix(testOutcomes, target)), numTestBits)
  {
    if numTestBits < 0 {
      return [], [], Err(NegativeSample);
    }
    ghost var before := pairs[..];
    var pool := Pool(pairs[..]);
    testIndices := ChooseTestSet(pool, numTestBits);
    SampleInRange(before, testIndices);
    MarkTestSet(pairs, testIndices);
    testOutcomes := LocalOutcomes(pairs[..], testIndices);
    assert testOutcomes == LocalOutcomes(before, testIndices);
    var target := reply(testIndices);
    var numError := CompareTestOutcomes(pairs, testOutcomes, target);
    if !FullyAligned(testOutcomes, target) {
      r := Err(DesyncAt(testOutcomes, target));
    } else {
      r := Rate(numError, numTestBits);
    }
  }
}
