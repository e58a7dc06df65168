/** The relay records (`CompactBlock`, `BlockProposal`, `GetBlockProposal`),
    the empty compact block, and the fallible conversion of each record from
    its wire form (sync/src/relayer/compact_block.rs).

    The wire framework is a black box. What reaches the conversion code is,
    per field, either nothing (the required-field cast fails) or a vector of
    per-element conversion results that the black box has already computed.
    A conversion is then: the casts in field order, then the element
    results, collected all-or-nothing, with the first failure winning. */
module CompactBlocks {
  import opened Wrappers
  import opened Sequences

  /** Chain types whose contents play no part in the relay logic. */
  type Header
  type UncleBlock
  type H256
  type Transaction(==)
  /** `ProposalShortId`: a fingerprint of a transaction, compared by value. */
  type ShortId(==)

  /** A transaction sent in full, at absolute position `index` of the block. */
  datatype IndexTransaction = IndexTransaction(index: nat, transaction: Transaction)

  datatype CompactBlock = CompactBlock(
    header: Header,
    uncles: seq<UncleBlock>,
    shortIds: seq<ShortId>,
    prefilledTransactions: seq<IndexTransaction>,
    proposals: seq<ShortId>)

  datatype BlockProposal = BlockProposal(transactions: seq<Transaction>)

  datatype GetBlockProposal = GetBlockProposal(blockHash: H256, proposals: seq<ShortId>)

  /** The empty compact block around a given header (the header built by a
      default header builder, which is outside this model). */
  function Default(header: Header): (b: CompactBlock)
    ensures b.header == header
    ensures |b.uncles| == 0 && |b.shortIds| == 0
    ensures |b.prefilledTransactions| == 0 && |b.proposals| == 0
  {
    CompactBlock(header, [], [], [], [])
  }

  // ---------------------------------------------------------------------
  // Wire forms and their conversion

  /** The required fields of the three wire records. */
  datatype Field =
    | HeaderField | ShortIdsField | PrefilledTransactionsField | UnclesField
    | ProposalsField | TransactionsField | BlockHashField

  /** Why the black box could not convert one element or value. */
  type Cause

  datatype DecodeError =
    | Malformed(field: Field)   // the required-field cast found nothing
    | Invalid(cause: Cause)     // an element or value failed to convert

  /** A wire vector: absent, or the conversion result of each element. */
  type WireVector<T> = Option<seq<Result<T, Cause>>>

  /** A wire value: absent, or its conversion result. */
  type WireValue<T> = Option<Result<T, Cause>>

  datatype WireCompactBlock = WireCompactBlock(
    header: WireValue<Header>,
    shortIds: WireVector<ShortId>,
    prefilledTransactions: WireVector<IndexTransaction>,
    uncles: WireVector<UncleBlock>,
    proposals: WireVector<ShortId>)

  datatype WireBlockProposal = WireBlockProposal(transactions: WireVector<Transaction>)

  datatype WireGetBlockProposal = WireGetBlockProposal(
    blockHash: WireValue<H256>,
    proposals: WireVector<ShortId>)

  /** The required-field cast. */
  function Cast<T>(o: Option<T>, field: Field): (r: Result<T, DecodeError>)
  {
    o.OkOr(Malformed(field))
  }

  /** A conversion result as a decode result. */
  function Lift<T>(c: Result<T, Cause>): (r: Result<T, DecodeError>)
  {
    match c
    case Success(x) => Success(x)
    case Failure(e) => Failure(Invalid(e))
  }

  /** Absent fields of a compact block, in the order they are cast. */
  function MissingFields(w: WireCompactBlock): (fs: seq<Field>)
    ensures |fs| == 0 <==>
      w.header.Some? && w.shortIds.Some? && w.prefilledTransactions.Some?
      && w.uncles.Some? && w.proposals.Some?
  {
    (if w.header.None? then [HeaderField] else [])
    + (if w.shortIds.None? then [ShortIdsField] else [])
    + (if w.prefilledTransactions.None? then [PrefilledTransactionsField] else [])
    + (if w.uncles.None? then [UnclesField] else [])
    + (if w.proposals.None? then [ProposalsField] else [])
  }

  /** Element failures of a compact block whose fields are all present, in
      the order the record is assembled: header, short ids, prefilled
      transactions, uncles, proposals. */
  function ElementErrors(w: WireCompactBlock): seq<Cause>
    requires |MissingFields(w)| == 0
  {
    Errors([w.header.value]) + Errors(w.shortIds.value)
    + Errors(w.prefilledTransactions.value) + Errors(w.uncles.value)
    + Errors(w.proposals.value)
  }

  /** The wire form whose conversion yields exactly `b`. */
  function EncodeCompactBlock(b: CompactBlock): WireCompactBlock
  {
    WireCompactBlock(
      Some(Success(b.header)), Some(Succeed(b.shortIds)),
      Some(Succeed(b.prefilledTransactions)), Some(Succeed(b.uncles)),
      Some(Succeed(b.proposals)))
  }

  /** `CompactBlock::try_from`: every cast first, then every conversion; no
      partial record is ever returned. */
  function DecodeCompactBlock(w: WireCompactBlock): (r: Result<CompactBlock, DecodeError>)
    ensures |MissingFields(w)| > 0 ==> r == Failure(Malformed(MissingFields(w)[0]))
    ensures |MissingFields(w)| == 0 ==>
      (r.Success? <==> |ElementErrors(w)| == 0)
    ensures |MissingFields(w)| == 0 && r.Failure? ==>
      r == Failure(Invalid(ElementErrors(w)[0]))
    ensures r.Success? ==>
      && w.header == Some(Success(r.value.header))
      && Wraps(w.shortIds.value, r.value.shortIds)
      && Wraps(w.prefilledTransactions.value, r.value.prefilledTransactions)
      && Wraps(w.uncles.value, r.value.uncles)
      && Wraps(w.proposals.value, r.value.proposals)
  {
    var header :- Cast(w.header, HeaderField);
    var shortIds :- Cast(w.shortIds, ShortIdsField);
    var prefilled :- Cast(w.prefilledTransactions, PrefilledTransactionsField);
    var uncles :- Cast(w.uncles, UnclesField);
    var proposals :- Cast(w.proposals, ProposalsField);
    var h :- Lift(header);
    var s :- Lift(Collect(shortIds));
    var p :- Lift(Collect(prefilled));
    var u :- Lift(Collect(uncles));
    var q :- Lift(Collect(proposals));
    Success(CompactBlock(h, u, s, p, q))
  }

  /** A compact block decodes from exactly one wire form: its encoding. */
  lemma DecodeCompactBlockExactly(w: WireCompactBlock, b: CompactBlock)
    ensures DecodeCompactBlock(w) == Success(b) <==> w == EncodeCompactBlock(b)
  {
    var e := EncodeCompactBlock(b);
    if DecodeCompactBlock(w) == Success(b) {
      CollectSucceed(w.shortIds.value, b.shortIds);
      CollectSucceed(w.prefilledTransactions.value, b.prefilledTransactions);
      CollectSucceed(w.uncles.value, b.uncles);
      CollectSucceed(w.proposals.value, b.proposals);
    }
    if w == e {
      CollectSucceed(e.shortIds.value, b.shortIds);
      CollectSucceed(e.prefilledTransactions.value, b.prefilledTransactions);
      CollectSucceed(e.uncles.value, b.uncles);
      CollectSucceed(e.proposals.value, b.proposals);
    }
  }

  /** The wire form whose conversion yields exactly `p`. */
  function EncodeBlockProposal(p: BlockProposal): WireBlockProposal
  {
    WireBlockProposal(Some(Succeed(p.transactions)))
  }

  /** `BlockProposal::try_from`. */
  function DecodeBlockProposal(w: WireBlockProposal): (r: Result<BlockProposal, DecodeError>)
    ensures w.transactions.None? ==> r == Failure(Malformed(TransactionsField))
    ensures w.transactions.Some? ==>
      (r.Success? <==> |Errors(w.transactions.value)| == 0)
    ensures w.transactions.Some? && r.Failure? ==>
      r == Failure(Invalid(Errors(w.transactions.value)[0]))
    ensures r.Success? ==> Wraps(w.transactions.value, r.value.transactions)
  {
    var transactions :- Cast(w.transactions, TransactionsField);
    var t :- Lift(Collect(transactions));
    Success(BlockProposal(t))
  }

  /** A block proposal decodes from exactly one wire form: its encoding. */
  lemma DecodeBlockProposalExactly(w: WireBlockProposal, p: BlockProposal)
    ensures DecodeBlockProposal(w) == Success(p) <==> w == EncodeBlockProposal(p)
  {
    if DecodeBlockProposal(w) == Success(p) {
      CollectSucceed(w.transactions.value, p.transactions);
    }
    if w == EncodeBlockProposal(p) {
      CollectSucceed(w.transactions.value, p.transactions);
    }
  }

  /** The wire form whose conversion yields exactly `g`. */
  function EncodeGetBlockProposal(g: GetBlockProposal): WireGetBlockProposal
  {
    WireGetBlockProposal(Some(Success(g.blockHash)), Some(Succeed(g.proposals)))
  }

  /** `GetBlockProposal::try_from`: the hash cast, the proposals cast, the
      hash conversion, then the proposal ids. */
  function DecodeGetBlockProposal(w: WireGetBlockProposal): (r: Result<GetBlockProposal, DecodeError>)
    ensures w.blockHash.None? ==> r == Failure(Malformed(BlockHashField))
    ensures w.blockHash.Some? && w.proposals.None? ==> r == Failure(Malformed(ProposalsField))
    ensures w.blockHash.Some? && w.proposals.Some? ==>
      (r.Success? <==> w.blockHash.value.Success? && |Errors(w.proposals.value)| == 0)
    ensures w.blockHash.Some? && w.proposals.Some? && w.blockHash.value.Failure? ==>
      r == Failure(Invalid(w.blockHash.value.error))
    ensures w.blockHash.Some? && w.proposals.Some? && w.blockHash.value.Success? && r.Failure? ==>
      r == Failure(Invalid(Errors(w.proposals.value)[0]))
    ensures r.Success? ==>
      w.blockHash == Some(Success(r.value.blockHash)) && Wraps(w.proposals.value, r.value.proposals)
  {
    var blockHash :- Cast(w.blockHash, BlockHashField);
    var proposals :- Cast(w.proposals, ProposalsField);
    var h :- Lift(blockHash);
    var q :- Lift(Collect(proposals));
    Success(GetBlockProposal(h, q))
  }

  /** A proposal request decodes from exactly one wire form: its encoding. */
  lemma DecodeGetBlockProposalExactly(w: WireGetBlockProposal, g: GetBlockProposal)
    ensures DecodeGetBlockProposal(w) == Success(g) <==> w == EncodeGetBlockProposal(g)
  {
    if DecodeGetBlockProposal(w) == Success(g) {
      CollectSucceed(w.proposals.value, g.proposals);
    }
    if w == EncodeGetBlockProposal(g) {
      CollectSucceed(w.proposals.value, g.proposals);
    }
  }
}
