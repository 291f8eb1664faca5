/** The post-measurement part of `main`: build the pair list, reconcile
    bases, estimate the error rate, and report; together with the facts that
    connect the stages. */
module Pipeline {
  import opened Wrappers
  import opened Pairs
  import opened Reconciliation
  import opened ErrorEstimation
  import opened KeyExtraction

  // ---------------------------------------------------------------------
  // Counting pairs through the test list

  /** The number of positions that are in `test` and whose pair satisfies `f`. */
  function CountAt(pairs: seq<PairInfo>, f: PairInfo -> bool, test: seq<int>): nat
    decreases |pairs|
  {
    if |pairs| == 0 then 0
    else
      var n := |pairs| - 1;
      CountAt(pairs[..n], f, test) + (if n in test && f(pairs[n]) then 1 else 0)
  }

  /** The number of the first `k` test indices whose pair satisfies `f`. */
  function CountSample(pairs: seq<PairInfo>, f: PairInfo -> bool, test: seq<int>, k: nat): nat
    requires k <= |test| && InRange(test, |pairs|)
    decreases k
  {
    if k == 0 then 0
    else CountSample(pairs, f, test, k - 1) + (if f(pairs[test[k - 1]]) then 1 else 0)
  }

  /** When `f` holds only at positions in `test`, counting over `test`
      counts everything. */
  lemma {:induction false} CountAtCovers(pairs: seq<PairInfo>, f: PairInfo -> bool, test: seq<int>)
    requires forall j :: 0 <= j < |pairs| && f(pairs[j]) ==> j in test
    ensures Count(pairs, f) == CountAt(pairs, f, test)
    decreases |pairs|
  {
    if |pairs| > 0 {
      var init := pairs[..|pairs| - 1];
      assert forall j :: 0 <= j < |init| ==> init[j] == pairs[j];
      CountAtCovers(init, f, test);
    }
  }

  /** Only the members below `|pairs|` matter to `CountAt`. */
  lemma {:induction false} CountAtSameMembers(pairs: seq<PairInfo>, f: PairInfo -> bool, a: seq<int>, b: seq<int>)
    requires forall j :: 0 <= j < |pairs| ==> (j in a <==> j in b)
    ensures CountAt(pairs, f, a) == CountAt(pairs, f, b)
    decreases |pairs|
  {
    if |pairs| > 0 {
      CountAtSameMembers(pairs[..|pairs| - 1], f, a, b);
    }
  }

  /** One more test index adds its own pair to the count. */
  lemma {:induction false} CountAtSnoc(pairs: seq<PairInfo>, f: PairInfo -> bool, test: seq<int>, s: int)
    requires 0 <= s < |pairs| && s !in test
    ensures CountAt(pairs, f, test + [s]) == CountAt(pairs, f, test) + (if f(pairs[s]) then 1 else 0)
    decreases |pairs|
  {
    var n := |pairs| - 1;
    var init := pairs[..n];
    if s == n {
      CountAtSameMembers(init, f, test + [s], test);
    } else {
      assert init[s] == pairs[s];
      CountAtSnoc(init, f, test, s);
    }
  }

  /** Counting positions in a distinct test list equals counting along it. */
  lemma {:induction false} CountAtIsCountSample(pairs: seq<PairInfo>, f: PairInfo -> bool, test: seq<int>, k: nat)
    requires k <= |test| && InRange(test, |pairs|) && Distinct(test)
    ensures CountAt(pairs, f, test[..k]) == CountSample(pairs, f, test, k)
    decreases k
  {
    if k == 0 {
      CountAtSameMembers(pairs, f, test[..0], []);
      CountAtEmpty(pairs, f);
    } else {
      CountAtIsCountSample(pairs, f, test, k - 1);
      assert test[..k] == test[..k - 1] + [test[k - 1]];
      assert test[k - 1] !in test[..k - 1];
      CountAtSnoc(pairs, f, test[..k - 1], test[k - 1]);
    }
  }

  /** Nothing is counted through an empty test list. */
  lemma {:induction false} CountAtEmpty(pairs: seq<PairInfo>, f: PairInfo -> bool)
    ensures CountAt(pairs, f, []) == 0
    decreases |pairs|
  {
    if |pairs| > 0 {
      CountAtEmpty(pairs[..|pairs| - 1], f);
    }
  }

  /** Counting along the test list what the pairwise comparison flags. */
  lemma {:induction false} CountSampleIsMismatches(pairs: seq<PairInfo>, f: PairInfo -> bool, test: seq<int>,
                                                   local: seq<(int, int)>, target: seq<(int, int)>, k: nat)
    requires k <= |test| && k <= |local| && k <= |target| && InRange(test, |pairs|)
    requires forall t :: 0 <= t < k ==> (f(pairs[test[t]]) <==> local[t].1 != target[t].1)
    ensures CountSample(pairs, f, test, k) == Mismatches(local, target, k)
    decreases k
  {
    if k > 0 {
      CountSampleIsMismatches(pairs, f, test, local, target, k - 1);
    }
  }

  /** Counting along the test list something true of every tested pair. */
  lemma {:induction false} CountSampleAll(pairs: seq<PairInfo>, f: PairInfo -> bool, test: seq<int>, k: nat)
    requires k <= |test| && InRange(test, |pairs|)
    requires forall t :: 0 <= t < k ==> f(pairs[test[t]])
    ensures CountSample(pairs, f, test, k) == k
    decreases k
  {
    if k > 0 {
      CountSampleAll(pairs, f, test, k - 1);
    }
  }

  /** Counting the whole list through a distinct test list that covers `f`. */
  lemma ThroughTest(pairs: seq<PairInfo>, f: PairInfo -> bool, test: seq<int>)
    requires InRange(test, |pairs|) && Distinct(test)
    requires forall j :: 0 <= j < |pairs| && f(pairs[j]) ==> j in test
    ensures Count(pairs, f) == CountSample(pairs, f, test, |test|)
  {
    CountAtCovers(pairs, f, test);
    CountAtIsCountSample(pairs, f, test, |test|);
    assert test[..|test|] == test;
  }

  // ---------------------------------------------------------------------
  // From error estimation to the report

  /** The pairs after error estimation, before the report. */
  function Estimated(reconciled: seq<PairInfo>, test: seq<int>, target: seq<(int, int)>): seq<PairInfo>
    requires InRange(test, |reconciled|)
  {
    var local := LocalOutcomes(reconciled, test);
    Compared(Marked(reconciled, test), local, target, AlignedPrefix(local, target))
  }

  /** The situation error estimation starts from in `main`: a reconciled,
      indexed list whose test and comparison flags are still unset, a test
      set that is a sample of the same-basis pool, and a peer reply that
      passes every index assertion. */
  predicate EstimationInput(reconciled: seq<PairInfo>, test: seq<int>, target: seq<(int, int)>)
  {
    Indexed(reconciled) &&
    (forall j :: 0 <= j < |reconciled| ==>
       reconciled[j].testOutcome == None && reconciled[j].sameOutcome == None) &&
    Distinct(test) && (forall t :: 0 <= t < |test| ==> test[t] in Pool(reconciled)) &&
    InRange(test, |reconciled|) &&
    FullyAligned(LocalOutcomes(reconciled, test), target)
  }

  /** Error estimation changes only the test and comparison flags, marks
      exactly the test set, and tests only same-basis pairs. */
  lemma EstimatedShape(reconciled: seq<PairInfo>, test: seq<int>, target: seq<(int, int)>)
    requires EstimationInput(reconciled, test, target)
    ensures var after := Estimated(reconciled, test, target);
      |after| == |reconciled| &&
      (forall j :: 0 <= j < |after| ==>
         SameMeasurement(after[j], reconciled[j]) && after[j].sameBasis == reconciled[j].sameBasis &&
         after[j].testOutcome == Some(j in test)) &&
      TestedOnlySameBasis(after)
  {
    TestImpliesSameBasis(reconciled, test);
  }

  /** The report's comparison count is the size of the test set. */
  lemma EstimatedComparisons(reconciled: seq<PairInfo>, test: seq<int>, target: seq<(int, int)>)
    requires EstimationInput(reconciled, test, target)
    ensures Count(Estimated(reconciled, test, target), ComparedPair) == |test|
  {
    var after := Estimated(reconciled, test, target);
    EstimatedShape(reconciled, test, target);
    assert forall j :: 0 <= j < |after| ==> (ComparedPair(after[j]) <==> j in test);
    ThroughTest(after, ComparedPair, test);
    CountSampleAll(after, ComparedPair, test, |test|);
  }

  /** Each compared test pair holds the result of its own comparison. */
  lemma EstimatedResults(reconciled: seq<PairInfo>, test: seq<int>, target: seq<(int, int)>, t: nat)
    requires EstimationInput(reconciled, test, target)
    requires t < |test| && t < |target|
    ensures Estimated(reconciled, test, target)[test[t]].sameOutcome
         == Some(reconciled[test[t]].outcome == target[t].1)
  {
    var local := LocalOutcomes(reconciled, test);
    LocalOutcomesDistinct(reconciled, test);
    ComparedAt(Marked(reconciled, test), local, target, AlignedPrefix(local, target), t);
  }

  /** Every tested pair holds a comparison result exactly when the peer sent
      an outcome for every test index. */
  lemma EstimatedComplete(reconciled: seq<PairInfo>, test: seq<int>, target: seq<(int, int)>)
    requires EstimationInput(reconciled, test, target)
    ensures var after := Estimated(reconciled, test, target);
      (forall j :: 0 <= j < |after| && Truthy(after[j].testOutcome) ==> after[j].sameOutcome.Some?)
      <==> |target| >= |test|
  {
    var after := Estimated(reconciled, test, target);
    EstimatedShape(reconciled, test, target);
    if |target| < |test| {
      var j := test[|target|];
      var local := LocalOutcomes(reconciled, test);
      forall t | 0 <= t < AlignedPrefix(local, target) ensures local[t].0 != j {
        assert test[t] != test[|target|];
      }
      assert after[j].sameOutcome == None;
      assert Truthy(after[j].testOutcome);
    } else {
      forall j | 0 <= j < |after| && Truthy(after[j].testOutcome)
        ensures after[j].sameOutcome.Some?
      {
        var t :| 0 <= t < |test| && test[t] == j;
        EstimatedResults(reconciled, test, target, t);
      }
    }
  }

  /** With a full reply, the disagreeing tested pairs are exactly the
      mismatches the estimation counted as `num_error`. */
  lemma EstimatedMismatches(reconciled: seq<PairInfo>, test: seq<int>, target: seq<(int, int)>)
    requires EstimationInput(reconciled, test, target) && |target| >= |test|
    ensures Count(Estimated(reconciled, test, target), DisagreeingTestPair)
         == Mismatches(LocalOutcomes(reconciled, test), target, |test|)
  {
    var after := Estimated(reconciled, test, target);
    var local := LocalOutcomes(reconciled, test);
    EstimatedShape(reconciled, test, target);
    forall t | 0 <= t < |test|
      ensures DisagreeingTestPair(after[test[t]]) <==> local[t].1 != target[t].1
    {
      EstimatedResults(reconciled, test, target, t);
    }
    ThroughTest(after, DisagreeingTestPair, test);
    CountSampleIsMismatches(after, DisagreeingTestPair, test, local, target, |test|);
  }

  /** The pair list `main` builds from the measurements, before any flag is
      set. */
  predicate Fresh(list: seq<PairInfo>, bitFlips: seq<int>, basisFlips: seq<int>)
  {
    |list| == |bitFlips| == |basisFlips| &&
    forall j :: 0 <= j < |list| ==> list[j] == PairInfo(j, basisFlips[j], bitFlips[j], None, None, None)
  }

  /** The pairs after `filter_bases` returned. */
  function Reconciled(list: seq<PairInfo>, remote: seq<(int, int)>): seq<PairInfo>
  {
    Reconcile(list, remote, AlignedPrefix(LocalBases(list), remote))
  }

  /** The situation after the first two stages returned without raising. */
  predicate StagesPassed(list: seq<PairInfo>, bitFlips: seq<int>, basisFlips: seq<int>,
                         remote: seq<(int, int)>, test: seq<int>, target: seq<(int, int)>)
  {
    Fresh(list, bitFlips, basisFlips) && FullyAligned(LocalBases(list), remote) &&
    Distinct(test) && (forall t :: 0 <= t < |test| ==> test[t] in Pool(Reconciled(list, remote))) &&
    InRange(test, |list|) &&
    FullyAligned(LocalOutcomes(Reconciled(list, remote), test), target)
  }

  /** After both stages each pair keeps its measurement, shares Bob's basis
      exactly when the flag says so (for the positions Bob sent), and is
      tested exactly when in the test set; the test set holds only pairs
      whose bases agree. */
  lemma RunShape(list: seq<PairInfo>, bitFlips: seq<int>, basisFlips: seq<int>,
                 remote: seq<(int, int)>, test: seq<int>, target: seq<(int, int)>)
    requires StagesPassed(list, bitFlips, basisFlips, remote, test, target)
    requires |remote| >= |list|
    ensures var final := Estimated(Reconciled(list, remote), test, target);
      |final| == |bitFlips| && Indexed(final) &&
      (forall j :: 0 <= j < |final| ==>
         final[j].basis == basisFlips[j] && final[j].outcome == bitFlips[j] &&
         (Truthy(final[j].sameBasis) <==> basisFlips[j] == remote[j].1) &&
         (Truthy(final[j].testOutcome) <==> j in test) &&
         (KeyPair(final[j]) <==> basisFlips[j] == remote[j].1 && j !in test)) &&
      (forall t :: 0 <= t < |test| ==>
         0 <= test[t] < |bitFlips| && basisFlips[test[t]] == remote[test[t]].1)
  {
    var rec := Reconciled(list, remote);
    assert EstimationInput(rec, test, target);
    EstimatedShape(rec, test, target);
    var pool := Pool(rec);
    forall t | 0 <= t < |test| ensures basisFlips[test[t]] == remote[test[t]].1 {
      assert test[t] in pool;
    }
  }

  /** The report is produced exactly when Bob's basis list covers every pair
      and his outcome list covers every test index. */
  lemma RunSucceeds(list: seq<PairInfo>, bitFlips: seq<int>, basisFlips: seq<int>,
                    remote: seq<(int, int)>, test: seq<int>, target: seq<(int, int)>, keyLength: int)
    requires StagesPassed(list, bitFlips, basisFlips, remote, test, target)
    ensures MakeReport(Estimated(Reconciled(list, remote), test, target), |list|, keyLength).Ok?
        <==> |remote| >= |list| && |target| >= |test|
  {
    EstimatedSummable(list, bitFlips, basisFlips, remote, test, target);
  }

  /** The sums of the report meet no unset flag exactly when both replies
      were complete. */
  lemma EstimatedSummable(list: seq<PairInfo>, bitFlips: seq<int>, basisFlips: seq<int>,
                          remote: seq<(int, int)>, test: seq<int>, target: seq<(int, int)>)
    requires StagesPassed(list, bitFlips, basisFlips, remote, test, target)
    ensures Summable(Estimated(Reconciled(list, remote), test, target))
        <==> |remote| >= |list| && |target| >= |test|
  {
    var rec := Reconciled(list, remote);
    var final := Estimated(rec, test, target);
    assert EstimationInput(rec, test, target);
    EstimatedShape(rec, test, target);
    EstimatedComplete(rec, test, target);
    if |remote| < |list| {
      assert final[|remote|].sameBasis == None;
    }
  }

  /** On success the report's counts agree with the estimation: as many
      comparisons as test indices, as many differences as `num_error`, and a
      QBER between 0 and 1. */
  lemma RunCounts(list: seq<PairInfo>, bitFlips: seq<int>, basisFlips: seq<int>,
                  remote: seq<(int, int)>, test: seq<int>, target: seq<(int, int)>, keyLength: int)
    requires StagesPassed(list, bitFlips, basisFlips, remote, test, target)
    requires |remote| >= |list| && |target| >= |test|
    ensures var rec := Reconciled(list, remote);
      var r := MakeReport(Estimated(rec, test, target), |list|, keyLength);
      var local := LocalOutcomes(rec, test);
      r.Ok? &&
      r.value.outcomeComparisonCount == |test| &&
      AlignedPrefix(local, target) == |test| &&
      r.value.diffOutcomeCount == Mismatches(local, target, |test|) &&
      0 <= r.value.diffOutcomeCount <= r.value.outcomeComparisonCount &&
      1 <= r.value.qber.den && 0 <= r.value.qber.num <= r.value.qber.den
  {
    var rec := Reconciled(list, remote);
    var local := LocalOutcomes(rec, test);
    var final := Estimated(rec, test, target);
    assert EstimationInput(rec, test, target);
    RunSucceeds(list, bitFlips, basisFlips, remote, test, target, keyLength);
    var r := MakeReport(final, |list|, keyLength);
    assert Summable(final);
    EstimatedShape(rec, test, target);
    EstimatedComparisons(rec, test, target);
    assert r.value.outcomeComparisonCount == |test|;
    EstimatedMismatches(rec, test, target);
    QberInUnitInterval(final, |list|, keyLength);
  }

  /** With a full reply every test pair records whether Alice's bit equals
      the one Bob sent for it, and every other pair records nothing. */
  lemma RunResults(list: seq<PairInfo>, bitFlips: seq<int>, basisFlips: seq<int>,
                   remote: seq<(int, int)>, test: seq<int>, target: seq<(int, int)>)
    requires StagesPassed(list, bitFlips, basisFlips, remote, test, target)
    requires |target| >= |test|
    ensures var final := Estimated(Reconciled(list, remote), test, target);
      (forall t :: 0 <= t < |test| ==>
         final[test[t]].sameOutcome == Some(bitFlips[test[t]] == target[t].1)) &&
      (forall j :: 0 <= j < |final| && j !in test ==> final[j].sameOutcome == None)
  {
    var rec := Reconciled(list, remote);
    var final := Estimated(rec, test, target);
    var local := LocalOutcomes(rec, test);
    assert EstimationInput(rec, test, target);
    forall t | 0 <= t < |test|
      ensures final[test[t]].sameOutcome == Some(bitFlips[test[t]] == target[t].1)
    {
      EstimatedResults(rec, test, target, t);
    }
    var marked := Marked(rec, test);
    assert LocalOutcomes(marked, test) == local;
    forall j | 0 <= j < |final| && j !in test ensures final[j].sameOutcome == None {
      ComparedOnlyTested(marked, test, target, AlignedPrefix(local, target), j);
    }
  }

  /** The same-basis pool depends only on the indices and `same_basis`
      flags, which estimation leaves alone. */
  lemma {:induction false} PoolUnchanged(a: seq<PairInfo>, b: seq<PairInfo>)
    requires |a| == |b|
    requires forall j :: 0 <= j < |a| ==> a[j].index == b[j].index && a[j].sameBasis == b[j].sameBasis
    ensures Pool(a) == Pool(b)
    decreases |a|
  {
    if |a| > 0 {
      PoolUnchanged(a[..|a| - 1], b[..|b| - 1]);
    }
  }

  /** The post-processing tail of `main` on the measured `bitFlips` and
      `basisFlips`. Bob's replies are inputs: `remoteBases` answers the bases
      message, and `reply(testIndices)` answers the test indices Alice sends. */
  method PostProcess(bitFlips: seq<int>, basisFlips: seq<int>, remoteBases: seq<(int, int)>,
                     reply: seq<int> -> seq<(int, int)>, keyLength: int)
    returns (final: seq<PairInfo>, testIndices: seq<int>, testOutcomes: seq<(int, int)>,
             errorRate: Result<Ratio, Error>, r: Result<Report, Error>)
    requires |bitFlips| == |basisFlips|
    ensures InRange(testIndices, |bitFlips|) && |testOutcomes| == |testIndices| &&
      forall t :: 0 <= t < |testIndices| ==> testOutcomes[t] == (testIndices[t], bitFlips[testIndices[t]])
    ensures r.Ok? <==>
      |remoteBases| >= |bitFlips| && (forall i :: 0 <= i < |bitFlips| ==> remoteBases[i].0 == i) &&
      FullyAligned(testOutcomes, reply(testIndices)) && |reply(testIndices)| >= |testIndices|
    ensures r.Ok? ==>
      r == MakeReport(final, |bitFlips|, keyLength) &&
      SuccessfulRun(bitFlips, basisFlips, remoteBases, testIndices, testOutcomes, reply(testIndices),
                    final, r.value) &&
      errorRate == Ok(Ratio(r.value.diffOutcomeCount, NumTestBits(|bitFlips|))) &&
      r.value.xBasisCount + r.value.zBasisCount == |bitFlips| &&
      (keyLength >= 0 ==> |r.value.secretKey| <= keyLength)
  {
    var numBits := |bitFlips|;
    var numTestBits := NumTestBits(numBits);
    var list := BuildPairs(bitFlips, basisFlips);
    assert Fresh(list, bitFlips, basisFlips);
    var pairs := new PairInfo[|list|](i requires 0 <= i < |list| => list[i]);
    assert pairs[..] == list;
    var bases, filtered := FilterBases(pairs, remoteBases);
    if filtered.Err? {
      NotAligned(list, bases, remoteBases);
      return pairs[..], [], [], Err(filtered.error), Err(filtered.error);
    }
    ghost var reconciled := pairs[..];
    assert reconciled == Reconciled(list, remoteBases);
    testIndices, testOutcomes, errorRate := EstimateErrorRate(pairs, numTestBits, reply);
    final := pairs[..];
    ghost var target := reply(testIndices);
    r := if errorRate.Err? then Err(errorRate.error) else MakeReport(final, numBits, keyLength);
    AlignedCoversAll(list, bases, remoteBases);
    Concluded(list, bitFlips, basisFlips, remoteBases, testIndices, testOutcomes, target, final,
              errorRate, r, keyLength);
  }

  /** What `PostProcess` promises, stated on the values its stages left:
      once reconciliation has passed, the outcome list is Alice's bits at the
      test indices, and the report is produced exactly when estimation passed
      and both replies are complete. */
  lemma Concluded(list: seq<PairInfo>, bitFlips: seq<int>, basisFlips: seq<int>,
                  remote: seq<(int, int)>, test: seq<int>, local: seq<(int, int)>,
                  target: seq<(int, int)>, final: seq<PairInfo>,
                  errorRate: Result<Ratio, Error>, r: Result<Report, Error>, keyLength: int)
    requires Fresh(list, bitFlips, basisFlips) && FullyAligned(LocalBases(list), remote)
    requires |remote| >= |list| ==> forall i :: 0 <= i < |list| ==> remote[i].0 == i
    requires InRange(test, |list|)
    requires var pool := Pool(Reconciled(list, remote));
      IsSample(test, pool, if NumTestBits(|list|) < |pool| then NumTestBits(|list|) else |pool|)
    requires local == LocalOutcomes(Reconciled(list, remote), test)
    requires final == Compared(Marked(Reconciled(list, remote), test), local, target,
                               AlignedPrefix(local, target))
    requires errorRate == if !FullyAligned(local, target) then Err(DesyncAt(local, target))
      else Rate(Mismatches(local, target, AlignedPrefix(local, target)), NumTestBits(|list|))
    requires r == if errorRate.Err? then Err(errorRate.error) else MakeReport(final, |list|, keyLength)
    ensures |local| == |test| &&
      forall t :: 0 <= t < |test| ==> local[t] == (test[t], bitFlips[test[t]])
    ensures r.Ok? <==>
      |remote| >= |bitFlips| && (forall i :: 0 <= i < |bitFlips| ==> remote[i].0 == i) &&
      FullyAligned(local, target) && |target| >= |test|
    ensures r.Ok? ==>
      r == MakeReport(final, |bitFlips|, keyLength) &&
      SuccessfulRun(bitFlips, basisFlips, remote, test, local, target, final, r.value) &&
      errorRate == Ok(Ratio(r.value.diffOutcomeCount, NumTestBits(|bitFlips|))) &&
      r.value.xBasisCount + r.value.zBasisCount == |bitFlips| &&
      (keyLength >= 0 ==> |r.value.secretKey| <= keyLength)
  {
    LocalOutcomesOfFresh(list, bitFlips, basisFlips, remote, test);
    if FullyAligned(local, target) {
      EstimatedRun(list, bitFlips, basisFlips, remote, test, local, target, final, keyLength);
    }
  }

  /** Alice's outcome list after reconciliation holds her measured bits. */
  lemma LocalOutcomesOfFresh(list: seq<PairInfo>, bitFlips: seq<int>, basisFlips: seq<int>,
                             remote: seq<(int, int)>, test: seq<int>)
    requires Fresh(list, bitFlips, basisFlips) && FullyAligned(LocalBases(list), remote)
    requires InRange(test, |list|)
    ensures var local := LocalOutcomes(Reconciled(list, remote), test);
      forall t :: 0 <= t < |test| ==> local[t] == (test[t], bitFlips[test[t]])
  {
    var rec := Reconciled(list, remote);
    forall t | 0 <= t < |test| ensures rec[test[t]].outcome == bitFlips[test[t]] {
      assert SameMeasurement(rec[test[t]], list[test[t]]);
    }
  }

  /** The last stage of `PostProcess` on values: once reconciliation and
      error estimation have passed, the report is produced exactly when both
      replies are complete, and then the run is successful. */
  lemma EstimatedRun(list: seq<PairInfo>, bitFlips: seq<int>, basisFlips: seq<int>,
                     remote: seq<(int, int)>, test: seq<int>, local: seq<(int, int)>,
                     target: seq<(int, int)>, final: seq<PairInfo>, keyLength: int)
    requires Fresh(list, bitFlips, basisFlips) && FullyAligned(LocalBases(list), remote)
    requires InRange(test, |list|)
    requires var pool := Pool(Reconciled(list, remote));
      IsSample(test, pool, if NumTestBits(|list|) < |pool| then NumTestBits(|list|) else |pool|)
    requires local == LocalOutcomes(Reconciled(list, remote), test) && FullyAligned(local, target)
    requires final == Compared(Marked(Reconciled(list, remote), test), local, target,
                               AlignedPrefix(local, target))
    ensures var r := MakeReport(final, |list|, keyLength);
      (r.Ok? <==> |remote| >= |list| && |target| >= |test|) &&
      (r.Ok? ==> SuccessfulRun(bitFlips, basisFlips, remote, test, local, target, final, r.value))
  {
    var rec := Reconciled(list, remote);
    assert StagesPassed(list, bitFlips, basisFlips, remote, test, target);
    assert final == Estimated(rec, test, target);
    RunSucceeds(list, bitFlips, basisFlips, remote, test, target, keyLength);
    if |remote| >= |list| && |target| >= |test| {
      OkRun(list, bitFlips, basisFlips, remote, test, target, keyLength);
    }
  }

  /** What a successful run promises about its final pairs, its test set and
      outcome list, Bob's reply `target` to the test set, and its report. */
  predicate SuccessfulRun(bitFlips: seq<int>, basisFlips: seq<int>, remote: seq<(int, int)>,
                          test: seq<int>, local: seq<(int, int)>, target: seq<(int, int)>,
                          final: seq<PairInfo>, report: Report)
  {
    RunPairs(bitFlips, basisFlips, remote, test, final) &&
    RunTests(bitFlips, test, target, final) &&
    RunTally(test, local, target, report)
  }

  /** Every pair keeps its measurement, shares Bob's basis exactly when the
      bases agree, is tested exactly when in the test set, and feeds the key
      exactly when it shares the basis and is not tested. */
  predicate RunPairs(bitFlips: seq<int>, basisFlips: seq<int>, remote: seq<(int, int)>,
                     test: seq<int>, final: seq<PairInfo>)
  {
    |final| == |bitFlips| && |final| == |basisFlips| && Indexed(final) && |remote| >= |final| &&
    (forall j :: 0 <= j < |final| ==>
       final[j].basis == basisFlips[j] && final[j].outcome == bitFlips[j] &&
       (Truthy(final[j].sameBasis) <==> basisFlips[j] == remote[j].1) &&
       (Truthy(final[j].testOutcome) <==> j in test) &&
       (KeyPair(final[j]) <==> basisFlips[j] == remote[j].1 && j !in test) &&
       (j !in test ==> final[j].sameOutcome == None)) &&
    (forall t :: 0 <= t < |test| ==>
       0 <= test[t] < |final| && basisFlips[test[t]] == remote[test[t]].1)
  }

  /** The test set is a sample of the right size of the same-basis pairs, and
      each test pair records whether Alice's bit equals the one Bob sent. */
  predicate RunTests(bitFlips: seq<int>, test: seq<int>, target: seq<(int, int)>,
                     final: seq<PairInfo>)
  {
    |target| >= |test| && |final| == |bitFlips| &&
    (forall t :: 0 <= t < |test| ==>
       0 <= test[t] < |final| &&
       final[test[t]].sameOutcome == Some(bitFlips[test[t]] == target[t].1)) &&
    IsSample(test, Pool(final),
             if NumTestBits(|final|) < |Pool(final)| then NumTestBits(|final|) else |Pool(final)|)
  }

  /** The report counts one comparison per test index and the mismatches of
      the outcome list against Bob's reply, and its QBER lies in [0, 1]. */
  predicate RunTally(test: seq<int>, local: seq<(int, int)>, target: seq<(int, int)>, report: Report)
  {
    |target| >= |test| && |local| == |test| &&
    AlignedPrefix(local, target) == |test| &&
    report.outcomeComparisonCount == |test| &&
    report.diffOutcomeCount == Mismatches(local, target, |test|) &&
    0 <= report.diffOutcomeCount <= report.outcomeComparisonCount &&
    1 <= report.qber.den && 0 <= report.qber.num <= report.qber.den
  }

  /** Both stages passed with full replies: the run is successful; its
      pairs are `Estimated(Reconciled(..))` and its outcome list is
      `LocalOutcomes`. */
  lemma OkRun(list: seq<PairInfo>, bitFlips: seq<int>, basisFlips: seq<int>,
              remote: seq<(int, int)>, test: seq<int>, target: seq<(int, int)>, keyLength: int)
    requires StagesPassed(list, bitFlips, basisFlips, remote, test, target)
    requires |remote| >= |list| && |target| >= |test|
    requires IsSample(test, Pool(Reconciled(list, remote)),
                      if NumTestBits(|list|) < |Pool(Reconciled(list, remote))| then NumTestBits(|list|)
                      else |Pool(Reconciled(list, remote))|)
    ensures var rec := Reconciled(list, remote);
      var final := Estimated(rec, test, target);
      var r := MakeReport(final, |list|, keyLength);
      r.Ok? && SuccessfulRun(bitFlips, basisFlips, remote, test, LocalOutcomes(rec, test), target, final, r.value)
  {
    var rec := Reconciled(list, remote);
    var final := Estimated(rec, test, target);
    OkRunPairs(list, bitFlips, basisFlips, remote, test, target);
    OkRunTests(list, bitFlips, basisFlips, remote, test, target);
    RunCounts(list, bitFlips, basisFlips, remote, test, target, keyLength);
  }

  /** The per-pair facts of a successful run. */
  lemma OkRunPairs(list: seq<PairInfo>, bitFlips: seq<int>, basisFlips: seq<int>,
                   remote: seq<(int, int)>, test: seq<int>, target: seq<(int, int)>)
    requires StagesPassed(list, bitFlips, basisFlips, remote, test, target)
    requires |remote| >= |list| && |target| >= |test|
    ensures RunPairs(bitFlips, basisFlips, remote, test, Estimated(Reconciled(list, remote), test, target))
  {
    RunShape(list, bitFlips, basisFlips, remote, test, target);
    RunResults(list, bitFlips, basisFlips, remote, test, target);
  }

  /** The test-set facts of a successful run. */
  lemma OkRunTests(list: seq<PairInfo>, bitFlips: seq<int>, basisFlips: seq<int>,
                   remote: seq<(int, int)>, test: seq<int>, target: seq<(int, int)>)
    requires StagesPassed(list, bitFlips, basisFlips, remote, test, target)
    requires |remote| >= |list| && |target| >= |test|
    requires IsSample(test, Pool(Reconciled(list, remote)),
                      if NumTestBits(|list|) < |Pool(Reconciled(list, remote))| then NumTestBits(|list|)
                      else |Pool(Reconciled(list, remote))|)
    ensures RunTests(bitFlips, test, target, Estimated(Reconciled(list, remote), test, target))
  {
    EstimatedSample(Reconciled(list, remote), test, target);
    RunResults(list, bitFlips, basisFlips, remote, test, target);
  }

  /** Estimation keeps the pool, so the test set is still a sample of it. */
  lemma EstimatedSample(rec: seq<PairInfo>, test: seq<int>, target: seq<(int, int)>)
    requires EstimationInput(rec, test, target)
    requires IsSample(test, Pool(rec), if NumTestBits(|rec|) < |Pool(rec)| then NumTestBits(|rec|) else |Pool(rec)|)
    ensures var final := Estimated(rec, test, target);
      |final| == |rec| &&
      IsSample(test, Pool(final),
               if NumTestBits(|final|) < |Pool(final)| then NumTestBits(|final|) else |Pool(final)|)
  {
    var final := Estimated(rec, test, target);
    EstimatedShape(rec, test, target);
    PoolUnchanged(final, rec);
  }

  /** What an honest Bob answers to a list of test indices: his own outcome
      at each of them. */
  function BobAnswer(bobBits: seq<int>, test: seq<int>): (a: seq<(int, int)>)
    ensures |a| == |test|
    ensures forall t :: 0 <= t < |test| ==>
      a[t] == (test[t], if 0 <= test[t] < |bobBits| then bobBits[test[t]] else 0)
  {
    seq(|test|, t requires 0 <= t < |test| =>
      (test[t], if 0 <= test[t] < |bobBits| then bobBits[test[t]] else 0))
  }

  /** The whole tail of `main` against an honest Bob who measured `bobBases`
      and `bobBits` and answers both messages truthfully. Every index
      assertion passes and the report is produced; the pairs sharing Bob's
      basis are flagged, each test pair records whether the two bits agree,
      and no error is counted exactly when every tested bit agrees. */
  method HonestRun(bitFlips: seq<int>, basisFlips: seq<int>, bobBases: seq<int>, bobBits: seq<int>,
                   keyLength: int)
    returns (final: seq<PairInfo>, testIndices: seq<int>, r: Result<Report, Error>)
    requires |bitFlips| == |basisFlips| == |bobBases| == |bobBits|
    ensures r.Ok?
    ensures |final| == |bitFlips| &&
      forall j :: 0 <= j < |final| ==> (Truthy(final[j].sameBasis) <==> basisFlips[j] == bobBases[j])
    ensures InRange(testIndices, |bitFlips|) &&
      forall t :: 0 <= t < |testIndices| ==>
        basisFlips[testIndices[t]] == bobBases[testIndices[t]] &&
        final[testIndices[t]].sameOutcome == Some(bitFlips[testIndices[t]] == bobBits[testIndices[t]])
    ensures r.value.outcomeComparisonCount == |testIndices|
    ensures r.value.diffOutcomeCount == 0 <==>
      forall t :: 0 <= t < |testIndices| ==> bitFlips[testIndices[t]] == bobBits[testIndices[t]]
  {
    var remoteBases := seq(|bobBases|, i requires 0 <= i < |bobBases| => (i, bobBases[i]));
    var reply := (test: seq<int>) => BobAnswer(bobBits, test);
    var testOutcomes, errorRate;
    final, testIndices, testOutcomes, errorRate, r := PostProcess(bitFlips, basisFlips, remoteBases, reply, keyLength);
    HonestAligned(bitFlips, bobBits, testIndices, testOutcomes);
    assert reply(testIndices) == BobAnswer(bobBits, testIndices);
    assert r.Ok?;
    HonestReport(bitFlips, basisFlips, bobBases, bobBits, remoteBases, testIndices, testOutcomes,
                 final, r.value);
  }

  /** Bob's honest answer lines up with Alice's outcome list and covers it. */
  lemma HonestAligned(bitFlips: seq<int>, bobBits: seq<int>, test: seq<int>, local: seq<(int, int)>)
    requires InRange(test, |bitFlips|) && |local| == |test|
    requires forall t :: 0 <= t < |test| ==> local[t] == (test[t], bitFlips[test[t]])
    ensures FullyAligned(local, BobAnswer(bobBits, test)) && |BobAnswer(bobBits, test)| >= |test|
  {
    AlignedPrefixIsFirstMismatch(local, BobAnswer(bobBits, test), |test|);
  }

  /** A successful run against an honest Bob, read in terms of his bases and
      bits. */
  lemma HonestReport(bitFlips: seq<int>, basisFlips: seq<int>, bobBases: seq<int>, bobBits: seq<int>,
                     remote: seq<(int, int)>, test: seq<int>, local: seq<(int, int)>,
                     final: seq<PairInfo>, report: Report)
    requires |bobBits| == |bitFlips| && |remote| == |bobBases|
    requires forall i :: 0 <= i < |remote| ==> remote[i] == (i, bobBases[i])
    requires InRange(test, |bitFlips|) && |local| == |test|
    requires forall t :: 0 <= t < |test| ==> local[t] == (test[t], bitFlips[test[t]])
    requires SuccessfulRun(bitFlips, basisFlips, remote, test, local, BobAnswer(bobBits, test), final, report)
    ensures |final| == |bitFlips| &&
      forall j :: 0 <= j < |final| ==> (Truthy(final[j].sameBasis) <==> basisFlips[j] == bobBases[j])
    ensures InRange(test, |bitFlips|) &&
      forall t :: 0 <= t < |test| ==>
        basisFlips[test[t]] == bobBases[test[t]] &&
        final[test[t]].sameOutcome == Some(bitFlips[test[t]] == bobBits[test[t]])
    ensures report.outcomeComparisonCount == |test|
    ensures report.diffOutcomeCount == 0 <==>
      forall t :: 0 <= t < |test| ==> bitFlips[test[t]] == bobBits[test[t]]
  {
  }

  /** Positions 0..n-1 of a reply that passed reconciliation carry their own
      index, once it covers all n pairs. */
  lemma AlignedCoversAll(list: seq<PairInfo>, bases: seq<(int, int)>, remote: seq<(int, int)>)
    requires bases == LocalBases(list) && FullyAligned(bases, remote)
    ensures |remote| >= |list| ==> forall i :: 0 <= i < |list| ==> remote[i].0 == i
  {
  }

  /** A failed reconciliation means Bob's indices are not the positions. */
  lemma NotAligned(list: seq<PairInfo>, bases: seq<(int, int)>, remote: seq<(int, int)>)
    requires bases == LocalBases(list) && !FullyAligned(bases, remote)
    ensures !(|remote| >= |list| && forall i :: 0 <= i < |list| ==> remote[i].0 == i)
  {
    var k := AlignedPrefix(bases, remote);
    assert bases[k].0 == k;
  }
}
