/** Block reconstruction from short ids and candidate transactions, in the
    case the relay tests pin down (sync/src/relayer/tests/reconstruct_block.rs):
    a compact block without prefilled transactions. Each short id is looked
    up among the candidates; when any position stays unresolved the outcome
    is the ascending list of those positions, never a partial block. */
module Reconstruction {
  import opened Wrappers
  import opened Sequences
  import opened CompactBlocks
  import opened Verifier

  /** Some candidate carries the fingerprint `id`. */
  ghost predicate Matched(id: ShortId, candidates: seq<Transaction>, shortIdOf: Transaction -> ShortId)
  {
    exists j :: 0 <= j < |candidates| && shortIdOf(candidates[j]) == id
  }

  /** A candidate with fingerprint `id`, if there is one. Which one is
      returned when several collide is deliberately left unstated. */
  function Lookup(id: ShortId, candidates: seq<Transaction>, shortIdOf: Transaction -> ShortId): (r: Option<Transaction>)
    ensures r.Some? ==> r.value in candidates && shortIdOf(r.value) == id
    ensures r.None? <==> !Matched(id, candidates, shortIdOf)
  {
    if |candidates| == 0 then None
    else if shortIdOf(candidates[0]) == id then Some(candidates[0])
    else
      var r := Lookup(id, candidates[1..], shortIdOf);
      assert Matched(id, candidates, shortIdOf) ==> Matched(id, candidates[1..], shortIdOf) by {
        if Matched(id, candidates, shortIdOf) {
          var j :| 0 <= j < |candidates| && shortIdOf(candidates[j]) == id;
          assert j != 0 && candidates[1..][j - 1] == candidates[j];
        }
      }
      r
  }

  /** Every short id is carried by some candidate. */
  ghost predicate AllResolved(ids: seq<ShortId>, candidates: seq<Transaction>, shortIdOf: Transaction -> ShortId)
  {
    forall k :: 0 <= k < |ids| ==> Matched(ids[k], candidates, shortIdOf)
  }

  /** The positions of `shortIds` that no candidate resolves, ascending. */
  function MissingPositions(shortIds: seq<ShortId>, candidates: seq<Transaction>, shortIdOf: Transaction -> ShortId): (m: seq<nat>)
    ensures StrictlyIncreasing(m)
    ensures forall k :: k in m ==> k < |shortIds|
    ensures forall k :: 0 <= k < |shortIds| ==> (k in m <==> !Matched(shortIds[k], candidates, shortIdOf))
    decreases |shortIds|
  {
    if |shortIds| == 0 then []
    else
      var last := |shortIds| - 1;
      var prefix := shortIds[..last];
      var init := MissingPositions(prefix, candidates, shortIdOf);
      var tail: seq<nat> := if Lookup(shortIds[last], candidates, shortIdOf).None? then [last] else [];
      AppendAbove(init, tail, last);
      assert forall k :: 0 <= k < last ==> prefix[k] == shortIds[k];
      init + tail
  }

  /** Appending values no smaller than `bound` to an increasing sequence of
      values below `bound` keeps it increasing. */
  lemma AppendAbove(init: seq<nat>, tail: seq<nat>, bound: nat)
    requires StrictlyIncreasing(init) && forall k :: k in init ==> k < bound
    requires tail == [] || tail == [bound]
    ensures StrictlyIncreasing(init + tail)
  {
    var m := init + tail;
    forall i, j | 0 <= i < j < |m| ensures m[i] < m[j] {
      if j < |init| {
        assert m[i] == init[i] && m[j] == init[j];
      } else {
        assert m[i] == init[i] && init[i] in init;
      }
    }
  }

  /** `reconstruct_block` on a compact block without prefilled transactions:
      either every short id is resolved, in order, or the unresolved
      positions are reported. */
  function ReconstructBlock(b: CompactBlock, candidates: seq<Transaction>, shortIdOf: Transaction -> ShortId): (r: Result<seq<Transaction>, seq<nat>>)
    requires |b.prefilledTransactions| == 0
    ensures r.Success? <==> AllResolved(b.shortIds, candidates, shortIdOf)
    ensures r.Failure? ==> StrictlyIncreasing(r.error)
    ensures r.Failure? ==> forall k :: k in r.error ==> k < |b.shortIds|
    ensures r.Failure? ==> forall k :: 0 <= k < |b.shortIds| ==>
      (k in r.error <==> !Matched(b.shortIds[k], candidates, shortIdOf))
    ensures r.Success? ==> |r.value| == |b.shortIds|
    ensures r.Success? ==> forall k :: 0 <= k < |r.value| ==>
      r.value[k] in candidates && shortIdOf(r.value[k]) == b.shortIds[k]
  {
    var ids := b.shortIds;
    var missing := MissingPositions(ids, candidates, shortIdOf);
    NoMissingIffResolved(ids, candidates, shortIdOf);
    if |missing| > 0 then
      Failure(missing)
    else
      Success(ResolveAll(ids, candidates, shortIdOf))
  }

  /** No position is missing exactly when every short id is resolved. */
  lemma NoMissingIffResolved(ids: seq<ShortId>, candidates: seq<Transaction>, shortIdOf: Transaction -> ShortId)
    ensures |MissingPositions(ids, candidates, shortIdOf)| == 0 <==> AllResolved(ids, candidates, shortIdOf)
  {
  }

  /** The candidate found for each short id, in short-id order. */
  function ResolveAll(ids: seq<ShortId>, candidates: seq<Transaction>, shortIdOf: Transaction -> ShortId): (ts: seq<Transaction>)
    requires AllResolved(ids, candidates, shortIdOf)
    ensures |ts| == |ids|
    ensures forall k :: 0 <= k < |ts| ==> ts[k] in candidates && shortIdOf(ts[k]) == ids[k]
  {
    seq(|ids|, k requires 0 <= k < |ids| => Lookup(ids[k], candidates, shortIdOf).value)
  }

  /** More candidates never add missing positions, and a block that
      reconstructs keeps reconstructing. */
  lemma MoreCandidatesFewerMissing(b: CompactBlock, c1: seq<Transaction>, c2: seq<Transaction>, shortIdOf: Transaction -> ShortId)
    requires |b.prefilledTransactions| == 0
    requires forall t :: t in c1 ==> t in c2
    ensures ReconstructBlock(b, c1, shortIdOf).Success? ==> ReconstructBlock(b, c2, shortIdOf).Success?
    ensures ReconstructBlock(b, c2, shortIdOf).Failure? ==>
      forall k :: k in ReconstructBlock(b, c2, shortIdOf).error ==> k in ReconstructBlock(b, c1, shortIdOf).error
  {
    forall id | Matched(id, c1, shortIdOf) ensures Matched(id, c2, shortIdOf) {
      var j :| 0 <= j < |c1| && shortIdOf(c1[j]) == id;
      assert c1[j] in c2;
      var j' :| 0 <= j' < |c2| && c2[j'] == c1[j];
    }
  }

  // ---------------------------------------------------------------------
  // The relay tests' scenarios

  /** The fingerprints of `txs`, in order. */
  function ShortIdsOf(txs: seq<Transaction>, shortIdOf: Transaction -> ShortId): (ids: seq<ShortId>)
    ensures |ids| == |txs|
    ensures forall i :: 0 <= i < |txs| ==> ids[i] == shortIdOf(txs[i])
  {
    seq(|txs|, i requires 0 <= i < |txs| => shortIdOf(txs[i]))
  }

  /** The test's twenty prepared transactions, which have pairwise distinct
      short ids. */
  ghost predicate Prepared(txs: seq<Transaction>, shortIdOf: Transaction -> ShortId)
  {
    |txs| == 20 && Distinct(ShortIdsOf(txs, shortIdOf))
  }

  /** The compact block of the first two test cases: the empty block with the
      short ids of all prepared transactions. */
  function AllShortIdsBlock(header: Header, txs: seq<Transaction>, shortIdOf: Transaction -> ShortId): CompactBlock
  {
    Default(header).(shortIds := ShortIdsOf(txs, shortIdOf))
  }

  /** With distinct fingerprints and candidates drawn from `txs`, a position is
      unresolved exactly when its transaction is not a candidate. */
  lemma {:induction false} MatchedIffCandidate(txs: seq<Transaction>, candidates: seq<Transaction>, shortIdOf: Transaction -> ShortId, k: nat)
    requires Distinct(ShortIdsOf(txs, shortIdOf))
    requires forall t :: t in candidates ==> t in txs
    requires k < |txs|
    ensures Matched(shortIdOf(txs[k]), candidates, shortIdOf) <==> txs[k] in candidates
  {
    var ids := ShortIdsOf(txs, shortIdOf);
    if Matched(shortIdOf(txs[k]), candidates, shortIdOf) {
      var j :| 0 <= j < |candidates| && shortIdOf(candidates[j]) == shortIdOf(txs[k]);
      assert candidates[j] in txs;
      var i :| 0 <= i < |txs| && txs[i] == candidates[j];
      assert ids[i] == ids[k];
      assert i == k;
    }
    if txs[k] in candidates {
      var j :| 0 <= j < |candidates| && candidates[j] == txs[k];
      assert shortIdOf(candidates[j]) == shortIdOf(txs[k]);
    }
  }

  /** Case "miss tx.0": every prepared transaction but the first is a
      candidate, so only position 0 is reported, although the verifier would
      reject the block for its missing cellbase. */
  lemma MissFirstTransaction(header: Header, txs: seq<Transaction>, shortIdOf: Transaction -> ShortId)
    requires Prepared(txs, shortIdOf)
    ensures ReconstructBlock(AllShortIdsBlock(header, txs, shortIdOf), txs[1..], shortIdOf) == Failure([0])
    ensures Verify(AllShortIdsBlock(header, txs, shortIdOf), shortIdOf) == Fail(CellbaseNotPrefilled)
  {
    var b := AllShortIdsBlock(header, txs, shortIdOf);
    var c := txs[1..];
    var ids := ShortIdsOf(txs, shortIdOf);
    assert forall t :: t in c ==> t in txs;
    var missing := MissingPositions(ids, c, shortIdOf);
    forall k: nat ensures k in missing <==> k in [0] {
      if k < |txs| {
        MatchedIffCandidate(txs, c, shortIdOf, k);
        if k == 0 {
          assert txs[0] !in c by {
            forall j | 0 <= j < |c| ensures c[j] != txs[0] {
              assert ids[j + 1] != ids[0];
            }
          }
        } else {
          assert c[k - 1] == txs[k];
        }
      }
    }
    IncreasingDeterminedByElements(missing, [0]);
  }

  /** The odd-indexed prepared transactions, as chosen by the second case. */
  function OddTransactions(txs: seq<Transaction>): (c: seq<Transaction>)
    ensures |c| == |txs| / 2
    ensures forall j :: 0 <= j < |c| ==> c[j] == txs[2 * j + 1]
  {
    seq(|txs| / 2, j requires 0 <= j < |txs| / 2 => txs[2 * j + 1])
  }

  /** The even positions below `n`, ascending. */
  function EvenPositions(n: nat): (e: seq<nat>)
    ensures |e| == (n + 1) / 2
    ensures forall j :: 0 <= j < |e| ==> e[j] == 2 * j
  {
    seq((n + 1) / 2, j requires 0 <= j < (n + 1) / 2 => 2 * j)
  }

  /** With distinct fingerprints, the odd-indexed transactions are exactly
      the prepared transactions at odd positions. */
  lemma OddTransactionsMembership(txs: seq<Transaction>, shortIdOf: Transaction -> ShortId, k: nat)
    requires Distinct(ShortIdsOf(txs, shortIdOf))
    requires k < |txs|
    ensures txs[k] in OddTransactions(txs) <==> k % 2 == 1
  {
    var c := OddTransactions(txs);
    var ids := ShortIdsOf(txs, shortIdOf);
    if k % 2 == 1 {
      assert c[k / 2] == txs[k];
    } else {
      forall j | 0 <= j < |c| ensures c[j] != txs[k] {
        assert ids[2 * j + 1] != ids[k];
      }
    }
  }

  /** Case "miss multiple txs": only the odd-indexed prepared transactions are
      candidates, so the even positions 0, 2, ..., 18 are reported. */
  lemma MissEvenTransactions(header: Header, txs: seq<Transaction>, shortIdOf: Transaction -> ShortId)
    requires Prepared(txs, shortIdOf)
    ensures ReconstructBlock(AllShortIdsBlock(header, txs, shortIdOf), OddTransactions(txs), shortIdOf)
      == Failure(EvenPositions(20))
  {
    var b := AllShortIdsBlock(header, txs, shortIdOf);
    var c := OddTransactions(txs);
    var ids := ShortIdsOf(txs, shortIdOf);
    assert forall t :: t in c ==> t in txs by {
      forall t | t in c ensures t in txs {
        var j :| 0 <= j < |c| && c[j] == t;
        assert txs[2 * j + 1] == t;
      }
    }
    var missing := MissingPositions(ids, c, shortIdOf);
    var expected := EvenPositions(20);
    forall k: nat ensures k in missing <==> k in expected {
      if k < |txs| {
        MatchedIffCandidate(txs, c, shortIdOf, k);
        OddTransactionsMembership(txs, shortIdOf, k);
      }
      EvenPositionsMembership(20, k);
    }
    assert StrictlyIncreasing(expected);
    IncreasingDeterminedByElements(missing, expected);
    assert b.shortIds == ids;
  }

  /** The positions the second case expects, written out. */
  lemma EvenPositionsBelowTwenty()
    ensures EvenPositions(20) == [0, 2, 4, 6, 8, 10, 12, 14, 16, 18]
  {
  }

  /** `EvenPositions(n)` holds the even numbers below `n`. */
  lemma EvenPositionsMembership(n: nat, k: nat)
    ensures k in EvenPositions(n) <==> k < n && k % 2 == 0
  {
    var e := EvenPositions(n);
    if k < n && k % 2 == 0 {
      assert e[k / 2] == k;
    }
  }

  /** The block of the third case: the odd-indexed prepared transactions are
      prefilled at their own positions and the even-indexed ones are sent by
      short id. The test asserts nothing about it; the verifier rejects it,
      because its first prefilled index is 1. */
  lemma OddPrefilledBlockRejected(header: Header, txs: seq<Transaction>, shortIdOf: Transaction -> ShortId)
    requires |txs| == 20
    ensures
      var prefilled := seq(10, j requires 0 <= j < 10 => IndexTransaction(2 * j + 1, txs[2 * j + 1]));
      var shortIds := seq(10, j requires 0 <= j < 10 => shortIdOf(txs[2 * j]));
      var b := Default(header).(shortIds := shortIds, prefilledTransactions := prefilled);
      PrefilledVerify(b) == Fail(CellbaseNotPrefilled) && Verify(b, shortIdOf) == Fail(CellbaseNotPrefilled)
  {
  }
}
