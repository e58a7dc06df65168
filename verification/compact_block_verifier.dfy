/** The structural checks a compact block must pass before reconstruction
    (sync/src/relayer/compact_block_verifier.rs). Both sub-verifiers are
    pure: they read the block and return a verdict. The fingerprint of a
    transaction (`proposal_short_id()`) is a parameter, `shortIdOf`, about
    which nothing is assumed; in particular distinct transactions may share
    a fingerprint. */
module Verifier {
  import opened Wrappers
  import opened Sequences
  import opened CompactBlocks

  /** Why a compact block was rejected. */
  datatype Misbehavior =
    | CellbaseNotPrefilled
    | UnorderedPrefilledTransactions
    | OverflowPrefilledTransactions
    | DuplicatedShortIds
    | IntersectedPrefilledTransactions

  /** The declared number of transactions of the block. */
  function TxsLen(b: CompactBlock): nat
  {
    |b.prefilledTransactions| + |b.shortIds|
  }

  /** The prefilled indices, in order. */
  function Indices(p: seq<IndexTransaction>): (ix: seq<nat>)
    ensures |ix| == |p|
    ensures forall i :: 0 <= i < |p| ==> ix[i] == p[i].index
  {
    seq(|p|, i requires 0 <= i < |p| => p[i].index)
  }

  /** The short ids as a set. */
  function ShortIdSet(b: CompactBlock): set<ShortId>
  {
    Elements(b.shortIds)
  }

  // ---------------------------------------------------------------------
  // The verifiers as the relay code runs them

  /** Some adjacent pair of prefilled indices is not strictly increasing. */
  predicate HasUnorderedWindow(p: seq<IndexTransaction>)
  {
    exists i :: 0 <= i < |p| - 1 && p[i].index >= p[i + 1].index
  }

  /** `PrefilledVerifier::verify`. The non-emptiness test before the last
      check is redundant after the first check, and is kept as written. */
  function PrefilledVerify(b: CompactBlock): (r: Outcome<Misbehavior>)
    ensures r == Fail(CellbaseNotPrefilled) <==> !StartsWithCellbase(b)
    ensures r == Fail(UnorderedPrefilledTransactions) <==>
      StartsWithCellbase(b) && !IndicesIncreasing(b)
    ensures r == Fail(OverflowPrefilledTransactions) <==>
      StartsWithCellbase(b) && IndicesIncreasing(b) && !IndicesInRange(b)
    ensures r == Pass <==> PrefilledWellFormed(b)
  {
    var p := b.prefilledTransactions;
    var txsLen := |p| + |b.shortIds|;
    AdjacentIncreasingIsIncreasing(Indices(p));
    if |p| == 0 || p[0].index != 0 then
      Fail(CellbaseNotPrefilled)
    else if HasUnorderedWindow(p) then
      assert !AdjacentIncreasing(Indices(p)) by {
        var i :| 0 <= i < |p| - 1 && p[i].index >= p[i + 1].index;
        assert Indices(p)[i] >= Indices(p)[i + 1];
      }
      Fail(UnorderedPrefilledTransactions)
    else if |p| != 0 && p[|p| - 1].index >= txsLen then
      Fail(OverflowPrefilledTransactions)
    else
      assert IndicesInRange(b) by {
        forall i | 0 <= i < |p| ensures p[i].index < txsLen {
          assert i == |p| - 1 || Indices(p)[i] < Indices(p)[|p| - 1];
        }
      }
      Pass
  }

  /** `ShortIdsVerifier::verify`: the duplicate check compares the length of
      the short-id list with the size of its set. */
  function ShortIdsVerify(b: CompactBlock, shortIdOf: Transaction -> ShortId): (r: Outcome<Misbehavior>)
    ensures r == Fail(DuplicatedShortIds) <==> !Distinct(b.shortIds)
    ensures r == Fail(IntersectedPrefilledTransactions) <==>
      Distinct(b.shortIds) && Intersects(b, shortIdOf)
    ensures r == Pass <==> ShortIdsWellFormed(b, shortIdOf)
  {
    var shortIdSet := ShortIdSet(b);
    ElementsCardinality(b.shortIds);
    if |b.shortIds| != |shortIdSet| then
      Fail(DuplicatedShortIds)
    else if exists pt :: pt in b.prefilledTransactions && shortIdOf(pt.transaction) in shortIdSet then
      Fail(IntersectedPrefilledTransactions)
    else
      Pass
  }

  /** `CompactBlockVerifier::verify`: the prefilled checks, then, only if
      they pass, the short-id checks. */
  function Verify(b: CompactBlock, shortIdOf: Transaction -> ShortId): (r: Outcome<Misbehavior>)
    ensures PrefilledVerify(b).Fail? ==> r == PrefilledVerify(b)
    ensures PrefilledVerify(b).Pass? ==> r == ShortIdsVerify(b, shortIdOf)
    ensures r == Pass <==> Valid(b, shortIdOf)
  {
    match PrefilledVerify(b)
    case Fail(e) => Fail(e)
    case Pass =>
      match ShortIdsVerify(b, shortIdOf)
      case Fail(e) => Fail(e)
      case Pass => Pass
  }

  // ---------------------------------------------------------------------
  // Reference conditions, stated over the whole block

  /** The cellbase is sent in full, at position 0. */
  ghost predicate StartsWithCellbase(b: CompactBlock)
  {
    |b.prefilledTransactions| > 0 && b.prefilledTransactions[0].index == 0
  }

  /** Every prefilled index is below every later one. */
  ghost predicate IndicesIncreasing(b: CompactBlock)
  {
    StrictlyIncreasing(Indices(b.prefilledTransactions))
  }

  /** Every prefilled index is a position of the block. */
  ghost predicate IndicesInRange(b: CompactBlock)
  {
    forall i :: 0 <= i < |b.prefilledTransactions| ==> b.prefilledTransactions[i].index < TxsLen(b)
  }

  /** Some prefilled transaction is also referenced by a short id. */
  ghost predicate Intersects(b: CompactBlock, shortIdOf: Transaction -> ShortId)
  {
    exists i, k :: 0 <= i < |b.prefilledTransactions| && 0 <= k < |b.shortIds|
      && shortIdOf(b.prefilledTransactions[i].transaction) == b.shortIds[k]
  }

  ghost predicate PrefilledWellFormed(b: CompactBlock)
  {
    StartsWithCellbase(b) && IndicesIncreasing(b) && IndicesInRange(b)
  }

  ghost predicate ShortIdsWellFormed(b: CompactBlock, shortIdOf: Transaction -> ShortId)
  {
    Distinct(b.shortIds) && !Intersects(b, shortIdOf)
  }

  /** The structural invariant of a compact block that reconstruction
      relies on. */
  ghost predicate Valid(b: CompactBlock, shortIdOf: Transaction -> ShortId)
  {
    PrefilledWellFormed(b) && ShortIdsWellFormed(b, shortIdOf)
  }

  /** Whether the block breaks the rule behind `m`, regardless of the other
      rules. */
  ghost predicate Violates(b: CompactBlock, shortIdOf: Transaction -> ShortId, m: Misbehavior)
  {
    match m
    case CellbaseNotPrefilled => !StartsWithCellbase(b)
    case UnorderedPrefilledTransactions => !IndicesIncreasing(b)
    case OverflowPrefilledTransactions => !IndicesInRange(b)
    case DuplicatedShortIds => !Distinct(b.shortIds)
    case IntersectedPrefilledTransactions => Intersects(b, shortIdOf)
  }

  /** The order in which violations are reported, most urgent first. */
  function Priority(m: Misbehavior): nat
  {
    match m
    case CellbaseNotPrefilled => 0
    case UnorderedPrefilledTransactions => 1
    case OverflowPrefilledTransactions => 2
    case DuplicatedShortIds => 3
    case IntersectedPrefilledTransactions => 4
  }

  // ---------------------------------------------------------------------
  // Properties

  /** The verifier reports the most urgent rule the block breaks, and passes
      exactly the blocks that break none. */
  lemma VerifyReportsFirstViolation(b: CompactBlock, shortIdOf: Transaction -> ShortId, m: Misbehavior)
    ensures Verify(b, shortIdOf) == Fail(m) <==>
      Violates(b, shortIdOf, m)
      && forall m' :: Priority(m') < Priority(m) ==> !Violates(b, shortIdOf, m')
    ensures Verify(b, shortIdOf) == Pass <==> forall m' :: !Violates(b, shortIdOf, m')
  {
    // Each rule, unfolded; the verdicts' contracts then settle the order.
    assert Violates(b, shortIdOf, UnorderedPrefilledTransactions) <==> !IndicesIncreasing(b);
    assert !Violates(b, shortIdOf, CellbaseNotPrefilled) <==> StartsWithCellbase(b);
    assert !Violates(b, shortIdOf, DuplicatedShortIds) <==> Distinct(b.shortIds);
    assert !Violates(b, shortIdOf, IntersectedPrefilledTransactions) <==> !Intersects(b, shortIdOf);
    assert !Violates(b, shortIdOf, OverflowPrefilledTransactions) <==> IndicesInRange(b);
  }

  /** A block whose prefilled transactions pass their checks has pairwise
      distinct prefilled indices, all within the declared transaction count
      (and so does every block the whole verifier accepts, by the contract
      of `Verify`). */
  lemma AcceptedIndicesDistinctInRange(b: CompactBlock)
    requires PrefilledVerify(b) == Pass
    ensures Distinct(Indices(b.prefilledTransactions))
    ensures forall i :: 0 <= i < |b.prefilledTransactions| ==>
      i <= b.prefilledTransactions[i].index < TxsLen(b)
  {
    var ix := Indices(b.prefilledTransactions);
    IncreasingAtLeastPosition(ix);
  }

  /** In any strictly increasing sequence of naturals the values are
      distinct and each is at least its position. */
  lemma {:induction false} IncreasingAtLeastPosition(ix: seq<nat>)
    requires StrictlyIncreasing(ix)
    ensures Distinct(ix)
    ensures forall i :: 0 <= i < |ix| ==> i <= ix[i]
  {
    if |ix| > 0 {
      var init := ix[..|ix| - 1];
      assert StrictlyIncreasing(init) by {
        forall i, j | 0 <= i < j < |init| ensures init[i] < init[j] {
          assert init[i] == ix[i] && init[j] == ix[j];
        }
      }
      IncreasingAtLeastPosition(init);
      forall i | 0 <= i < |ix| ensures i <= ix[i] {
        if i < |ix| - 1 {
          assert ix[i] == init[i];
        } else if i > 0 {
          assert init[i - 1] == ix[i - 1] && ix[i - 1] < ix[i];
        }
      }
    }
  }

  /** The empty compact block is rejected because its cellbase is missing. */
  lemma DefaultRejected(header: Header, shortIdOf: Transaction -> ShortId)
    ensures Verify(Default(header), shortIdOf) == Fail(CellbaseNotPrefilled)
  {
  }
}
