# Compact-block relay core, modelled in Dafny

A compact block announces a new block as its header, a list of short
transaction fingerprints (`ProposalShortId`s) and a few transactions sent in
full ("prefilled", each tagged with its absolute position). This project
models three parts of that relay layer:

- **Records and their decoding** (`compact_block.dfy`, module `CompactBlocks`):
  `CompactBlock`, `BlockProposal`, `GetBlockProposal`, the empty
  `CompactBlock`, and the three fallible conversions from wire form. Each wire
  field is either absent (the required-field cast fails) or a vector of
  per-element conversion results. A conversion runs every cast in field order,
  then collects the element results all-or-nothing. The first failure wins.
  Decoding is characterised exactly: it succeeds on a wire form iff that form
  is the encoding of the result.
- **Structural verifier** (`compact_block_verifier.dfy`, module `Verifier`):
  `PrefilledVerify`, `ShortIdsVerify` and their composition `Verify`. Each is
  written the way the relay code computes it: adjacent windows, the last index,
  and a set-size test for duplicates. Each is proved equal to a whole-block
  reference condition: strictly increasing indices, all indices in range,
  pairwise distinct short ids, no prefilled fingerprint among the short ids.
  `VerifyReportsFirstViolation` shows that the verdict names the most urgent
  rule the block breaks. The order is Cellbase > Unordered > Overflow >
  Duplicated > Intersected.
- **Reconstruction, as the relay tests pin it down** (`reconstruct_block.dfy`,
  module `Reconstruction`): for a compact block without prefilled
  transactions, each short id is looked up among the candidate transactions.
  The result is either the resolved transactions in short-id order, or the
  ascending list of unresolved positions (never a partial list). The two
  asserted test cases are proved for any twenty transactions with pairwise
  distinct fingerprints. A third lemma states the verifier's verdict on the
  block built by the third test case.

Shared pieces live in `wrappers.dfy` (`Option`, `Result`, `Outcome`) and
`sequences.dfy` (collection of results, distinctness through a set,
increasing sequences).

Parameters stand in for code outside the model:
- `proposal_short_id()` is the parameter `shortIdOf: Transaction -> ShortId`.
  Nothing is assumed about it, so distinct transactions may collide. Only the
  test scenarios require the twenty test transactions to have distinct
  fingerprints.
- The header built by the default header builder is the `header` argument
  of `Default`.
- `Header`, `UncleBlock`, `H256`, `Transaction`, `ShortId` and the cause of a
  failed element conversion are opaque types.

## Model

| member | source | states |
|---|---|---|
| `CompactBlocks.Default` | sync/src/relayer/compact_block.rs:18-28 | the default compact block carries the given header and has no uncles, short ids, prefilled transactions or proposals |
| `CompactBlocks.DecodeCompactBlock` | sync/src/relayer/compact_block.rs:34-60 | an absent field fails with the first absent field in the order header, short ids, prefilled, uncles, proposals, even if other elements fail too; with every field present, decoding fails iff some conversion fails, and then with the first one in the order header, short ids, prefilled, uncles, proposals; on success every vector has the wire vector's length and order, element by element |
| `CompactBlocks.DecodeCompactBlockExactly` | sync/src/relayer/compact_block.rs:34-60 | decoding yields a block iff the wire form is that block's encoding: all fields present, every conversion succeeding with that block's values (round trip in both directions) |
| `CompactBlocks.DecodeBlockProposal` | sync/src/relayer/compact_block.rs:72-81 | an absent transactions vector fails as malformed; otherwise decoding succeeds iff every element converts, fails with the first failed element, and on success keeps length and order |
| `CompactBlocks.DecodeBlockProposalExactly` | sync/src/relayer/compact_block.rs:72-81 | a block proposal decodes from exactly one wire form, its encoding |
| `CompactBlocks.DecodeGetBlockProposal` | sync/src/relayer/compact_block.rs:93-104 | failure precedence: hash cast, proposals cast, hash conversion, then the first failed proposal id; success iff all of them pass, keeping the hash and the proposals in order |
| `CompactBlocks.DecodeGetBlockProposalExactly` | sync/src/relayer/compact_block.rs:93-104 | a proposal request decodes from exactly one wire form, its encoding |
| `Sequences.Collect` | sync/src/relayer/compact_block.rs:36-39 | collecting element results succeeds iff no element failed; the failure is the first failed element's; success wraps every element in order |
| `Sequences.CollectSucceed` | sync/src/relayer/compact_block.rs:36-39 | collection returns a vector of values iff every element is exactly the matching value, converted successfully |
| `Sequences.ElementsCardinality` | sync/src/relayer/compact_block_verifier.rs:77-82 | the short-id set is as large as the short-id list iff no short id repeats |
| `Sequences.AdjacentIncreasingIsIncreasing` | sync/src/relayer/compact_block_verifier.rs:44-47 | checking every window of two adjacent indices is the same as checking that every index is below every later one |
| `Verifier.PrefilledVerify` | sync/src/relayer/compact_block_verifier.rs:33-64 | reports `CellbaseNotPrefilled` iff the prefilled list is empty or does not start at index 0; otherwise `UnorderedPrefilledTransactions` iff some index is not below a later one (equal indices included); otherwise `OverflowPrefilledTransactions` iff some index reaches prefilled count plus short-id count; passes iff none applies |
| `Verifier.ShortIdsVerify` | sync/src/relayer/compact_block_verifier.rs:74-95 | reports `DuplicatedShortIds` iff some short id repeats; otherwise `IntersectedPrefilledTransactions` iff some prefilled transaction's short id is among the short ids; passes iff neither applies |
| `Verifier.Verify` | sync/src/relayer/compact_block_verifier.rs:19-23 | a failure of the prefilled checks is returned unchanged; otherwise the short-id verdict is returned; passes iff the block satisfies the whole structural invariant |
| `Verifier.VerifyReportsFirstViolation` | sync/src/relayer/compact_block_verifier.rs:19-95 | the verdict is the kind of the highest-priority rule the block breaks (Cellbase, Unordered, Overflow, Duplicated, Intersected); the block passes iff it breaks none |
| `Verifier.AcceptedIndicesDistinctInRange` | sync/src/relayer/compact_block_verifier.rs:33-64 | in every block the prefilled verifier accepts, the prefilled indices are pairwise distinct, and the i-th lies in `[i, prefilled count + short-id count)` |
| `Verifier.DefaultRejected` | sync/src/relayer/compact_block.rs:18-28 | the default compact block is rejected with `CellbaseNotPrefilled` |
| `Reconstruction.Lookup` | sync/src/relayer/tests/reconstruct_block.rs:15-19 | the lookup of a short id returns a candidate with that short id, and finds nothing iff no candidate has it |
| `Reconstruction.MissingPositions` | sync/src/relayer/tests/reconstruct_block.rs:29-34 | the missing positions ascend strictly, and are exactly the short-id positions no candidate resolves |
| `Reconstruction.ReconstructBlock` | sync/src/relayer/tests/reconstruct_block.rs:12-39 | without prefilled transactions, the result is an error iff some short id is unresolved; the error lists exactly the unresolved positions, ascending; a success holds, for each short id in order, a candidate with that short id |
| `Reconstruction.MoreCandidatesFewerMissing` | sync/src/relayer/tests/reconstruct_block.rs:12-39 | enlarging the candidate set never adds a missing position and never turns a success into a failure |
| `Reconstruction.MissFirstTransaction` | sync/src/relayer/tests/reconstruct_block.rs:12-22 | short ids of twenty transactions with distinct short ids, all but the first as candidates: reconstruction reports `[0]`, while the verifier would reject that block with `CellbaseNotPrefilled` |
| `Reconstruction.MissEvenTransactions` | sync/src/relayer/tests/reconstruct_block.rs:24-39 | same short ids, only the odd-indexed transactions as candidates: reconstruction reports the even positions below 20 |
| `Reconstruction.EvenPositionsBelowTwenty` | sync/src/relayer/tests/reconstruct_block.rs:29-34 | the expected list of the second case is `[0, 2, 4, ..., 18]` |
| `Reconstruction.OddPrefilledBlockRejected` | sync/src/relayer/tests/reconstruct_block.rs:42-65 | the block with odd-indexed transactions prefilled at their positions and even-indexed ones by short id is rejected with `CellbaseNotPrefilled`, its first prefilled index being 1 |

## Left out

- Reconstruction.ReconstructBlock: models only compact blocks without prefilled transactions. The body of `reconstruct_block`, which merges prefilled transactions with short-id matches, is not modelled, and the tests assert nothing about blocks with prefilled transactions.
- Reconstruction.Lookup: when several candidates share a short id, the contract does not say which one is used. The function picks the first in candidate order. The relay code's choice depends on a lookup structure outside this model.
- Reconstruction.OddPrefilledBlockRejected: states only the verifier's verdict. The third test case builds the block but asserts nothing about reconstructing it.
- Transaction eligibility (proposal window), the transaction pool, the relayer object and the test chain setup: the candidate list is an input.
- The wire framework (`cast!`, flatbuffers vectors and iterators): a field is absent or a vector of given conversion results. The field tag in `Malformed` stands for the cast that failed. In the relay code both kinds of failure are one error type.
- The verifiers return the `Misbehavior` kind itself rather than the enclosing `Error::Misbehavior` value. No other error variant is produced by these two verifiers.
- `PrefilledVerifier::new`, `ShortIdsVerifier::new` and `CompactBlockVerifier::new` build stateless values. The model uses plain functions.
- The `usize` sum of prefilled and short-id counts is a `nat`, so overflow is not modelled. `HashSet` is a Dafny `set`.
- Peer penalties, message dispatch, building and sending `GetBlockProposal` requests, and re-running reconstruction with a peer's `BlockProposal`: these live in the orchestration code.
- Determinism and idempotence of verify and reconstruct are not stated as lemmas: every member is a pure function.
