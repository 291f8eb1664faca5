/** Key extraction and the run's statistics: the post-measurement tail of
    `main`, `extract_key`, and the test-set size rule. */
module KeyExtraction {
  import opened Wrappers
  import opened Pairs

  /** `max(int(num_bits / 4), 1)`: a quarter of the pairs, the division
      truncated toward zero, and never fewer than one test bit. */
  function NumTestBits(numBits: int): (k: int)
    ensures k >= 1
    ensures numBits >= 8 ==> k == numBits / 4 && 4 * k <= numBits
    ensures numBits < 8 ==> k == 1
  {
    var quarter := if numBits >= 0 then numBits / 4 else -((-numBits) / 4);
    if quarter > 1 then quarter else 1
  }

  /** Every element is 0 or 1. */
  predicate Bits(s: seq<int>)
  {
    forall i :: 0 <= i < |s| ==> s[i] == 0 || s[i] == 1
  }

  /** `sum([xj * rj for xj, rj in zip(x, r)])`. On bit strings it counts
      the positions of the zip where both bits are 1. */
  function InnerProduct(x: seq<int>, r: seq<int>): (ip: int)
    ensures Bits(x) && Bits(r) ==> ip == CommonOnes(x, r)
    decreases |x|
  {
    if |x| == 0 || |r| == 0 then 0
    else
      assert Bits(x) ==> Bits(x[1..]) by {
        assert forall i :: 0 <= i < |x| - 1 ==> x[1..][i] == x[i + 1];
      }
      assert Bits(r) ==> Bits(r[1..]) by {
        assert forall i :: 0 <= i < |r| - 1 ==> r[1..][i] == r[i + 1];
      }
      x[0] * r[0] + InnerProduct(x[1..], r[1..])
  }

  /** The number of positions of the zip where both bits are 1. */
  function CommonOnes(x: seq<int>, r: seq<int>): nat
    decreases |x|
  {
    if |x| == 0 || |r| == 0 then 0
    else (if x[0] == 1 && r[0] == 1 then 1 else 0) + CommonOnes(x[1..], r[1..])
  }

  /** `extract_key(x, r)`: the inner product modulo 2 (Python's `%` by a
      positive modulus is never negative, as Dafny's). */
  function ExtractKey(x: seq<int>, r: seq<int>): (b: int)
    ensures b == 0 || b == 1
  {
    InnerProduct(x, r) % 2
  }

  /** `extract_key` of two bit strings is the parity of the number of
      positions where both hold 1. */
  lemma ExtractKeyIsParity(x: seq<int>, r: seq<int>)
    requires Bits(x) && Bits(r)
    ensures ExtractKey(x, r) == CommonOnes(x, r) % 2
    ensures ExtractKey(x, r) == 1 <==> CommonOnes(x, r) % 2 == 1
  {
  }

  // ---------------------------------------------------------------------
  // Counting over the pair list

  /** The number of pairs satisfying `f`, in list order. */
  function Count(pairs: seq<PairInfo>, f: PairInfo -> bool): (n: nat)
    ensures n <= |pairs|
    decreases |pairs|
  {
    if |pairs| == 0 then 0
    else Count(pairs[..|pairs| - 1], f) + (if f(pairs[|pairs| - 1]) then 1 else 0)
  }

  /** Bob measured in the same basis. */
  predicate SameBasisPair(x: PairInfo) { Truthy(x.sameBasis) }

  /** A same-basis pair whose outcome was compared. */
  predicate ComparedPair(x: PairInfo) { Truthy(x.sameBasis) && Truthy(x.testOutcome) }

  /** A tested pair whose outcome equalled Bob's. */
  predicate AgreeingTestPair(x: PairInfo) { Truthy(x.testOutcome) && Truthy(x.sameOutcome) }

  /** A tested pair whose outcome differed from Bob's. */
  predicate DisagreeingTestPair(x: PairInfo) { Truthy(x.testOutcome) && x.sameOutcome == Some(false) }

  /** A pair that contributes to the raw key: same basis, not tested. */
  predicate KeyPair(x: PairInfo) { Truthy(x.sameBasis) && !Truthy(x.testOutcome) }

  /** A pair measured in the X basis. */
  predicate XPair(x: PairInfo) { x.basis == 1 }

  /** A pair measured in the Z basis. */
  predicate ZPair(x: PairInfo) { x.basis == 0 }

  /** `sum(pair.basis for pair in pairs_info)`. With every basis 0 or 1 it
      is the number of X pairs. */
  function SumBases(pairs: seq<PairInfo>): (s: int)
    ensures (forall j :: 0 <= j < |pairs| ==> pairs[j].basis == 0 || pairs[j].basis == 1) ==>
      s == Count(pairs, XPair)
    decreases |pairs|
  {
    if |pairs| == 0 then 0
    else
      var init := pairs[..|pairs| - 1];
      assert forall j :: 0 <= j < |init| ==> init[j] == pairs[j];
      SumBases(init) + pairs[|pairs| - 1].basis
  }

  /** The three sums of the report do not meet an unset flag: every
      `same_basis` is set, every same-basis pair has `test_outcome` set, and
      every tested pair has `same_outcome` set. Otherwise Python raises
      TypeError on adding `None`. */
  predicate Summable(pairs: seq<PairInfo>)
  {
    forall j :: 0 <= j < |pairs| ==>
      pairs[j].sameBasis.Some? &&
      (Truthy(pairs[j].sameBasis) ==> pairs[j].testOutcome.Some?) &&
      (Truthy(pairs[j].testOutcome) ==> pairs[j].sameOutcome.Some?)
  }

  /** The invariant error estimation leaves behind: only same-basis pairs
      are marked as tested. */
  predicate TestedOnlySameBasis(pairs: seq<PairInfo>)
  {
    forall j :: 0 <= j < |pairs| ==> Truthy(pairs[j].testOutcome) ==> Truthy(pairs[j].sameBasis)
  }

  // ---------------------------------------------------------------------
  // Raw key

  /** The positions that contribute to the raw key, in increasing order. */
  function KeyPositions(pairs: seq<PairInfo>): (ps: seq<int>)
    ensures Increasing(ps) && InRange(ps, |pairs|)
    ensures forall j :: j in ps <==> 0 <= j < |pairs| && KeyPair(pairs[j])
    decreases |pairs|
  {
    if |pairs| == 0 then []
    else
      var n := |pairs| - 1;
      var init := pairs[..n];
      var ps := KeyPositions(init);
      assert forall j :: 0 <= j < n ==> init[j] == pairs[j];
      assert forall t :: 0 <= t < |ps| ==> ps[t] in ps && ps[t] < n;
      ps + (if KeyPair(pairs[n]) then [n] else [])
  }

  /** `raw_key`: the outcomes of the same-basis pairs that were not tested,
      in list order. It has one bit per such pair. */
  function RawKey(pairs: seq<PairInfo>): (key: seq<int>)
    ensures |key| == Count(pairs, KeyPair)
    decreases |pairs|
  {
    if |pairs| == 0 then []
    else
      var n := |pairs| - 1;
      RawKey(pairs[..n]) + (if KeyPair(pairs[n]) then [pairs[n].outcome] else [])
  }

  /** The raw key selects in order: its `t`-th bit is the outcome of the
      `t`-th pair that has the same basis and was not tested. */
  lemma {:induction false} RawKeySelects(pairs: seq<PairInfo>)
    ensures |RawKey(pairs)| == |KeyPositions(pairs)|
    ensures forall t :: 0 <= t < |RawKey(pairs)| ==>
      RawKey(pairs)[t] == pairs[KeyPositions(pairs)[t]].outcome
    decreases |pairs|
  {
    if |pairs| > 0 {
      var n := |pairs| - 1;
      var init := pairs[..n];
      RawKeySelects(init);
      var key, ps := RawKey(pairs), KeyPositions(pairs);
      var key0, ps0 := RawKey(init), KeyPositions(init);
      assert key == key0 + (if KeyPair(pairs[n]) then [pairs[n].outcome] else []);
      assert ps == ps0 + (if KeyPair(pairs[n]) then [n] else []);
      forall t | 0 <= t < |key| ensures key[t] == pairs[ps[t]].outcome {
        if t < |key0| {
          assert key[t] == key0[t] && ps[t] == ps0[t];
          assert ps0[t] in ps0;
          assert init[ps0[t]] == pairs[ps0[t]];
        }
      }
    }
  }

  /** The raw key has one bit per same-basis pair that was not compared. */
  lemma {:induction false} RawKeyLength(pairs: seq<PairInfo>)
    ensures |RawKey(pairs)| == Count(pairs, SameBasisPair) - Count(pairs, ComparedPair)
    ensures Count(pairs, ComparedPair) <= Count(pairs, SameBasisPair)
    decreases |pairs|
  {
    if |pairs| > 0 {
      var init := pairs[..|pairs| - 1];
      RawKeyLength(init);
      assert |RawKey(pairs)| == |RawKey(init)| + (if KeyPair(pairs[|pairs| - 1]) then 1 else 0);
    }
  }

  /** `raw_key[0:key_length]` with Python's slice rules: a non-negative
      length keeps at most that many leading bits, a negative one drops that
      many trailing bits. The result is always a prefix. */
  function SecretKey(rawKey: seq<int>, keyLength: int): (key: seq<int>)
    ensures |key| <= |rawKey| && key == rawKey[..|key|]
    ensures keyLength >= 0 ==> |key| == if keyLength < |rawKey| then keyLength else |rawKey|
    ensures keyLength < 0 ==> |key| == if |rawKey| + keyLength > 0 then |rawKey| + keyLength else 0
  {
    if keyLength >= 0 then
      (if keyLength < |rawKey| then rawKey[..keyLength] else rawKey)
    else
      (if |rawKey| + keyLength > 0 then rawKey[..|rawKey| + keyLength] else [])
  }

  // ---------------------------------------------------------------------
  // Table and report

  /** The check column: "-" for untested pairs, else the comparison result. */
  datatype Check = Untested | Tested(sameOutcome: Option<bool>)

  /** One row of the table: index, basis label, same-basis flag, outcome,
      check. */
  datatype Row = Row(index: int, basis: string, sameBasis: Option<bool>, outcome: int, check: Check)

  /** The table row of one pair: basis 1 is labelled "X", any other "Z";
      the check is shown only for tested pairs. */
  function TableRow(x: PairInfo): (row: Row)
    ensures row.index == x.index && row.sameBasis == x.sameBasis && row.outcome == x.outcome
    ensures row.basis == (if x.basis == 1 then "X" else "Z")
    ensures row.check == Untested <==> !Truthy(x.testOutcome)
    ensures Truthy(x.testOutcome) ==> row.check == Tested(x.sameOutcome)
  {
    Row(x.index, if x.basis == 1 then "X" else "Z", x.sameBasis, x.outcome,
        if Truthy(x.testOutcome) then Tested(x.sameOutcome) else Untested)
  }

  /** The table: one row per pair, in list order. */
  function Table(pairs: seq<PairInfo>): (table: seq<Row>)
    ensures |table| == |pairs|
    ensures forall j :: 0 <= j < |pairs| ==> table[j] == TableRow(pairs[j])
  {
    seq(|pairs|, j requires 0 <= j < |pairs| => TableRow(pairs[j]))
  }

  /** The loop of `main` that appends one row per pair. */
  method BuildTable(pairs: seq<PairInfo>) returns (table: seq<Row>)
    ensures table == Table(pairs)
  {
    table := [];
    for j := 0 to |pairs|
      invariant |table| == j
      invariant forall u :: 0 <= u < j ==> table[u] == TableRow(pairs[u])
    {
      var x := pairs[j];
      var basis := if x.basis == 1 then "X" else "Z";
      var check := if Truthy(x.testOutcome) then Tested(x.sameOutcome) else Untested;
      table := table + [Row(x.index, basis, x.sameBasis, x.outcome, check)];
    }
  }

  /** The dictionary `main` returns, without the floating-point
      `key_rate_potential`. */
  datatype Report = Report(
    secretKey: seq<int>,
    table: seq<Row>,
    xBasisCount: int,
    zBasisCount: int,
    sameBasisCount: nat,
    outcomeComparisonCount: nat,
    diffOutcomeCount: int,
    qber: Ratio,
    rawKey: seq<int>)

  /** The QBER: the share of compared pairs that disagreed, and 1 when
      nothing was compared. */
  function Qber(diff: int, comparisons: nat): (q: Ratio)
    ensures comparisons == 0 ==> q == Ratio(1, 1)
    ensures comparisons > 0 ==> q == Ratio(diff, comparisons)
  {
    if comparisons == 0 then Ratio(1, 1) else Ratio(diff, comparisons)
  }

  /** The statistics of the run, or the TypeError raised when a sum meets an
      unset flag. The basis counts add up to `numBits`, the raw key has one
      bit per same-basis pair that was not compared, and the secret key is
      its prefix. */
  function MakeReport(pairs: seq<PairInfo>, numBits: int, keyLength: int): (r: Result<Report, Error>)
    ensures r.Err? <==> !Summable(pairs)
    ensures r.Err? ==> r.error == Unset
    ensures r.Ok? ==>
      r.value.xBasisCount + r.value.zBasisCount == numBits &&
      r.value.outcomeComparisonCount <= r.value.sameBasisCount &&
      |r.value.rawKey| == r.value.sameBasisCount - r.value.outcomeComparisonCount &&
      r.value.secretKey == SecretKey(r.value.rawKey, keyLength) &&
      |r.value.table| == |pairs|
    ensures r.Ok? ==>
      r.value.rawKey == RawKey(pairs) && r.value.table == Table(pairs) &&
      r.value.xBasisCount == SumBases(pairs) &&
      r.value.sameBasisCount == Count(pairs, SameBasisPair) &&
      r.value.outcomeComparisonCount == Count(pairs, ComparedPair) &&
      r.value.diffOutcomeCount == Count(pairs, ComparedPair) - Count(pairs, AgreeingTestPair) &&
      r.value.qber == Qber(r.value.diffOutcomeCount, r.value.outcomeComparisonCount)
  {
    if !Summable(pairs) then Err(Unset)
    else
      var rawKey := RawKey(pairs);
      var x := SumBases(pairs);
      var sameBasis := Count(pairs, SameBasisPair);
      var comparisons := Count(pairs, ComparedPair);
      var diff := comparisons - Count(pairs, AgreeingTestPair);
      RawKeyLength(pairs);
      Ok(Report(SecretKey(rawKey, keyLength), Table(pairs), x, numBits - x, sameBasis,
                comparisons, diff, Qber(diff, comparisons), rawKey))
  }
  // ---------------------------------------------------------------------
  // Properties of the report

  /** With every basis 0 or 1 and one pair per bit, `x_basis_count` counts
      the X pairs and `z_basis_count` the Z pairs. */
  lemma BasisCounts(pairs: seq<PairInfo>, numBits: int)
    requires |pairs| == numBits
    requires forall j :: 0 <= j < |pairs| ==> pairs[j].basis == 0 || pairs[j].basis == 1
    ensures SumBases(pairs) == Count(pairs, XPair)
    ensures numBits - SumBases(pairs) == Count(pairs, ZPair)
  {
    BinaryBases(pairs);
  }

  /** Summing 0/1 bases counts the ones, and the rest are zeros. */
  lemma {:induction false} BinaryBases(pairs: seq<PairInfo>)
    requires forall j :: 0 <= j < |pairs| ==> pairs[j].basis == 0 || pairs[j].basis == 1
    ensures Count(pairs, XPair) + Count(pairs, ZPair) == |pairs|
    decreases |pairs|
  {
    if |pairs| > 0 {
      var init := pairs[..|pairs| - 1];
      assert forall j :: 0 <= j < |init| ==> init[j] == pairs[j];
      BinaryBases(init);
    }
  }

  /** When only same-basis pairs are tested and every tested pair holds a
      comparison result, the compared pairs split into agreeing and
      disagreeing ones. */
  lemma {:induction false} ComparedSplits(pairs: seq<PairInfo>)
    requires TestedOnlySameBasis(pairs)
    requires forall j :: 0 <= j < |pairs| && Truthy(pairs[j].testOutcome) ==> pairs[j].sameOutcome.Some?
    ensures Count(pairs, ComparedPair)
         == Count(pairs, AgreeingTestPair) + Count(pairs, DisagreeingTestPair)
    decreases |pairs|
  {
    if |pairs| > 0 {
      var init := pairs[..|pairs| - 1];
      assert forall j :: 0 <= j < |init| ==> init[j] == pairs[j];
      ComparedSplits(init);
      var x := pairs[|pairs| - 1];
      assert ComparedPair(x) <==> Truthy(x.testOutcome);
      assert Truthy(x.testOutcome) ==> x.sameOutcome.Some?;
      if Truthy(x.testOutcome) {
        if x.sameOutcome.value {
          assert x.sameOutcome == Some(true);
        } else {
          assert x.sameOutcome == Some(false);
        }
      }
      assert !Truthy(x.testOutcome) ==> !AgreeingTestPair(x) && !DisagreeingTestPair(x);
    }
  }

  /** Agreeing test pairs are among the compared pairs when only same-basis
      pairs are tested. */
  lemma {:induction false} AgreeingWithinCompared(pairs: seq<PairInfo>)
    requires TestedOnlySameBasis(pairs)
    ensures Count(pairs, AgreeingTestPair) <= Count(pairs, ComparedPair)
    decreases |pairs|
  {
    if |pairs| > 0 {
      var init := pairs[..|pairs| - 1];
      assert forall j :: 0 <= j < |init| ==> init[j] == pairs[j];
      AgreeingWithinCompared(init);
    }
  }

  /** The QBER is a proper fraction: after error estimation (only same-basis
      pairs tested) `diff_outcome_count` counts the tested pairs whose
      outcome differed, lies between 0 and the comparison count, and the QBER
      is their ratio, or 1 when nothing was compared. */
  lemma QberInUnitInterval(pairs: seq<PairInfo>, numBits: int, keyLength: int)
    requires TestedOnlySameBasis(pairs)
    ensures var r := MakeReport(pairs, numBits, keyLength);
      r.Ok? ==>
        r.value.diffOutcomeCount == Count(pairs, DisagreeingTestPair) &&
        0 <= r.value.diffOutcomeCount <= r.value.outcomeComparisonCount &&
        1 <= r.value.qber.den && 0 <= r.value.qber.num <= r.value.qber.den &&
        (r.value.outcomeComparisonCount == 0 ==> r.value.qber == Ratio(1, 1)) &&
        (r.value.outcomeComparisonCount > 0 ==>
           r.value.qber == Ratio(r.value.diffOutcomeCount, r.value.outcomeComparisonCount))
  {
    if Summable(pairs) {
      AgreeingWithinCompared(pairs);
      ComparedSplits(pairs);
    }
  }
}
