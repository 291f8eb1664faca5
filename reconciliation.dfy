/** Basis reconciliation, `filter_bases`: Alice sends the basis of every
    pair, receives Bob's list, and records per pair whether the two bases
    agree. */
module Reconciliation {
  import opened Wrappers
  import opened Pairs

  /** The `(index, basis)` list Alice sends: each pair's position and basis. */
  function LocalBases(pairs: seq<PairInfo>): (bases: seq<(int, int)>)
    ensures |bases| == |pairs|
    ensures forall i :: 0 <= i < |pairs| ==> bases[i] == (i, pairs[i].basis)
  {
    seq(|pairs|, i requires 0 <= i < |pairs| => (i, pairs[i].basis))
  }

  /** The pairs after the first `k` positions of the zip have been handled:
      each of those records whether its basis equals the peer's basis at the
      same position; nothing else in any pair changes. */
  function Reconcile(pairs: seq<PairInfo>, remote: seq<(int, int)>, k: nat): (r: seq<PairInfo>)
    requires k <= |pairs| && k <= |remote|
    ensures |r| == |pairs|
    ensures forall i :: 0 <= i < |r| ==>
      SameMeasurement(r[i], pairs[i]) &&
      r[i].testOutcome == pairs[i].testOutcome && r[i].sameOutcome == pairs[i].sameOutcome
    ensures forall i :: 0 <= i < k ==> r[i].sameBasis == Some(pairs[i].basis == remote[i].1)
    ensures forall i :: k <= i < |r| ==> r[i] == pairs[i]
  {
    seq(|pairs|, i requires 0 <= i < |pairs| =>
      if i < k then pairs[i].(sameBasis := Some(pairs[i].basis == remote[i].1)) else pairs[i])
  }

  /** `filter_bases` with Bob's reply `remote` as input. Positions before the
      first misaligned index are updated in place even when the assertion
      fails later; positions past the end of the shorter list keep their flag
      untouched. */
  method FilterBases(pairs: array<PairInfo>, remote: seq<(int, int)>)
    returns (bases: seq<(int, int)>, r: Result<(), Error>)
    modifies pairs
    ensures bases == LocalBases(old(pairs[..]))
    ensures pairs[..] == Reconcile(old(pairs[..]), remote, AlignedPrefix(bases, remote))
    ensures r == if FullyAligned(bases, remote) then Ok(()) else Err(DesyncAt(bases, remote))
  {
    bases := LocalBases(pairs[..]);
    ghost var before := pairs[..];
    var m := if pairs.Length < |remote| then pairs.Length else |remote|;
    for i := 0 to m
      invariant pairs[..] == Reconcile(before, remote, i)
      invariant forall t :: 0 <= t < i ==> bases[t].0 == remote[t].0
    {
      if bases[i].0 != remote[i].0 {
        assert AlignedPrefix(bases, remote) == i by {
          AlignedPrefixIsFirstMismatch(bases, remote, i);
        }
        return bases, Err(Desync(bases[i].0, remote[i].0));
      }
      pairs[i] := pairs[i].(sameBasis := Some(bases[i].1 == remote[i].1));
      assert pairs[..] == Reconcile(before, remote, i + 1);
    }
    AlignedPrefixIsFirstMismatch(bases, remote, m);
    r := Ok(());
  }

  /** Both parties agree on which pairs share a basis: reconciling Alice's
      pairs against Bob's list and Bob's against Alice's gives each position
      the same flag. */
  lemma PeersAgree(alice: seq<PairInfo>, bob: seq<PairInfo>)
    requires |alice| == |bob|
    ensures var a := Reconcile(alice, LocalBases(bob), |alice|);
            var b := Reconcile(bob, LocalBases(alice), |bob|);
            forall i :: 0 <= i < |alice| ==> a[i].sameBasis == b[i].sameBasis
  {
  }

  /** The worked reconciliation of bases (Z, X, Z) against the peer's
      (Z, Z, Z): the flags come out (true, false, true). */
  lemma ReconcileExample()
    ensures var p := [PairInfo(0, 0, 0, None, None, None),
                      PairInfo(1, 1, 0, None, None, None),
                      PairInfo(2, 0, 1, None, None, None)];
            var r := Reconcile(p, [(0, 0), (1, 0), (2, 0)], 3);
            r[0].sameBasis == Some(true) && r[1].sameBasis == Some(false) &&
            r[2].sameBasis == Some(true)
  {
  }
}
