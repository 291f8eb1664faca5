/** What Alice knows about each generated pair (the `PairInfo` dataclass),
    the errors the post-processing stages raise, and the construction of the
    pair list in `main`. */
module Pairs {
  import opened Wrappers

  /** One generated pair. `basis` is 0 for Z and 1 for X; the three flags are
      filled in by the later stages and start out unset (`None`). */
  datatype PairInfo = PairInfo(
    index: int,
    basis: int,
    outcome: int,
    sameBasis: Option<bool>,
    testOutcome: Option<bool>,
    sameOutcome: Option<bool>)

  /** Why a post-processing stage raises. */
  datatype Error =
    | Desync(local: int, remote: int)  // `assert i == remote_i` fails: the lists are misaligned
    | NegativeSample                   // `random.sample` asked for a negative count
    | ZeroDivision                     // the error count divided by a zero test size
    | Unset                            // `sum` over a flag still `None` raises TypeError

  /** Python truthiness of an optional flag: only `True` counts. */
  predicate Truthy(b: Option<bool>)
  {
    b == Some(true)
  }

  /** Every pair's index is its position in the list. */
  predicate Indexed(pairs: seq<PairInfo>)
  {
    forall i :: 0 <= i < |pairs| ==> pairs[i].index == i
  }

  /** Only the three flags differ between `p` and `q`. */
  predicate SameMeasurement(p: PairInfo, q: PairInfo)
  {
    p.index == q.index && p.basis == q.basis && p.outcome == q.outcome
  }

  /** The loop of `main` that builds `pairs_info` from the measured outcomes
      (`bit_flips`) and bases (`basis_flips`) of the distribution stage: pair
      `i` carries index `i`, basis `i` and outcome `i`, with every flag unset. */
  method BuildPairs(bitFlips: seq<int>, basisFlips: seq<int>) returns (pairs: seq<PairInfo>)
    requires |bitFlips| == |basisFlips|
    ensures |pairs| == |bitFlips| && Indexed(pairs)
    ensures forall i :: 0 <= i < |pairs| ==>
      pairs[i].basis == basisFlips[i] && pairs[i].outcome == bitFlips[i]
    ensures forall i :: 0 <= i < |pairs| ==>
      pairs[i].sameBasis == None && pairs[i].testOutcome == None && pairs[i].sameOutcome == None
  {
    pairs := [];
    for i := 0 to |bitFlips|
      invariant |pairs| == i && Indexed(pairs)
      invariant forall j :: 0 <= j < i ==>
        pairs[j] == PairInfo(j, basisFlips[j], bitFlips[j], None, None, None)
    {
      pairs := pairs + [PairInfo(i, basisFlips[i], bitFlips[i], None, None, None)];
    }
  }
  /** No element of `s` occurs twice. */
  predicate Distinct(s: seq<int>)
  {
    forall i, j :: 0 <= i < j < |s| ==> s[i] != s[j]
  }

  /** The elements of `s` strictly increase. */
  predicate Increasing(s: seq<int>)
  {
    forall i, j :: 0 <= i < j < |s| ==> s[i] < s[j]
  }

  /** Every element of `test` is a position of a list of length `n`. */
  predicate InRange(test: seq<int>, n: int)
  {
    forall t :: 0 <= t < |test| ==> 0 <= test[t] < n
  }

  /** A ratio of integers, for Python's `/` on counts (never a float here). */
  datatype Ratio = Ratio(num: int, den: int)

  /** The aligned prefix of an `(index, value)` list zipped with the peer's:
      how many leading positions pass `assert i == remote_i`. `zip` stops at
      the shorter list; a shorter result marks the first failing position. */
  function AlignedPrefix(local: seq<(int, int)>, remote: seq<(int, int)>): (k: nat)
    ensures k <= |local| && k <= |remote|
    ensures forall t :: 0 <= t < k ==> local[t].0 == remote[t].0
    ensures k < |local| && k < |remote| ==> local[k].0 != remote[k].0
    decreases |local|
  {
    if |local| == 0 || |remote| == 0 || local[0].0 != remote[0].0 then 0
    else 1 + AlignedPrefix(local[1..], remote[1..])
  }

  /** The aligned prefix is the first failing position, or the shorter
      length when none fails. */
  lemma AlignedPrefixIsFirstMismatch(local: seq<(int, int)>, remote: seq<(int, int)>, i: nat)
    requires i <= |local| && i <= |remote|
    requires forall t :: 0 <= t < i ==> local[t].0 == remote[t].0
    requires i == |local| || i == |remote| || local[i].0 != remote[i].0
    ensures AlignedPrefix(local, remote) == i
  {
  }

  /** Whether the zip of `local` and `remote` passes every index assertion. */
  predicate FullyAligned(local: seq<(int, int)>, remote: seq<(int, int)>)
  {
    var k := AlignedPrefix(local, remote);
    k == |local| || k == |remote|
  }

  /** The error raised when the zip is not fully aligned. */
  function DesyncAt(local: seq<(int, int)>, remote: seq<(int, int)>): Error
    requires !FullyAligned(local, remote)
  {
    var k := AlignedPrefix(local, remote);
    Desync(local[k].0, remote[k].0)
  }
}
