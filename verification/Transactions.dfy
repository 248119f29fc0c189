/** Transactions, blocks and the predicates that sort transactions into kinds. */
module Transactions {
  import opened U64

  /** An address as its string of bytes; `String()` and `Bytes()` agree on it. */
  type Address = string

  datatype Order = Order(address: Address, hash: string, signature: string)

  datatype OptionalOrder = NoOrder | WithOrder(order: Order)

  datatype Tx = Tx(
    nonce: u64,
    amount: u64,
    from: Address,
    to: Address,
    time: int,
    script: string,
    fee: u64,
    tag: int,
    order: OptionalOrder,
    ktoNum: u64,
    pckNum: u64)

  datatype Block = Block(height: u64, txs: seq<Tx>)

  const TRANSFER_TAG := 0
  const MINER_TAG := 1
  const FREEZE_TAG := 2
  const UNFREEZE_TAG := 3
  const CONVERT_PCK_TAG := 4
  const CONVERT_KTO_TAG := 5

  /** True as soon as one byte is zero, not only when all are. */
  predicate IsNil(a: Address) {
    exists i :: 0 <= i < |a| && a[i] == '\0'
  }

  predicate IsCoinBase(tx: Tx) {
    IsNil(tx.from) && tx.tag == MINER_TAG
  }

  predicate IsTransfer(tx: Tx) {
    tx.tag == TRANSFER_TAG
  }

  predicate IsFreeze(tx: Tx, admin: Address) {
    tx.from == admin && tx.tag == FREEZE_TAG
  }

  predicate IsUnfreeze(tx: Tx, admin: Address) {
    tx.from == admin && tx.tag == UNFREEZE_TAG
  }

  predicate IsConvertPck(tx: Tx) {
    tx.tag == CONVERT_PCK_TAG
  }

  predicate IsConvertKto(tx: Tx) {
    tx.tag == CONVERT_KTO_TAG
  }

  predicate IsToken(tx: Tx) {
    |tx.script| != 0 && tx.fee != 0
  }

  predicate IsOrder(tx: Tx) {
    tx.order.WithOrder? && |tx.order.order.signature| != 0
  }

  /** The fee that a committed transfer really charges: only token transfers pay one. */
  function TokenFee(tx: Tx): u64 {
    if IsToken(tx) then tx.fee else 0
  }

  datatype Kind = Coinbase | Transfer | Freeze | Unfreeze | ConvertPck | ConvertKto | Unknown

  function KindOf(tx: Tx, admin: Address): (k: Kind)
  {
    if tx.tag == TRANSFER_TAG then Transfer
    else if tx.tag == MINER_TAG && IsNil(tx.from) then Coinbase
    else if tx.tag == FREEZE_TAG && tx.from == admin then Freeze
    else if tx.tag == UNFREEZE_TAG && tx.from == admin then Unfreeze
    else if tx.tag == CONVERT_PCK_TAG then ConvertPck
    else if tx.tag == CONVERT_KTO_TAG then ConvertKto
    else Unknown
  }

  /** The classifiers exclude one another, so a transaction has one kind. */
  lemma KindMatchesClassifiers(tx: Tx, admin: Address)
    ensures IsCoinBase(tx) <==> KindOf(tx, admin) == Coinbase
    ensures IsTransfer(tx) <==> KindOf(tx, admin) == Transfer
    ensures IsFreeze(tx, admin) <==> KindOf(tx, admin) == Freeze
    ensures IsUnfreeze(tx, admin) <==> KindOf(tx, admin) == Unfreeze
    ensures IsConvertPck(tx) <==> KindOf(tx, admin) == ConvertPck
    ensures IsConvertKto(tx) <==> KindOf(tx, admin) == ConvertKto
  {
  }

  /** A coinbase comes from an address with any zero byte, not only from the zero address. */
  lemma CoinbaseIff(tx: Tx, admin: Address)
    ensures KindOf(tx, admin) == Coinbase <==> tx.tag == 1 && '\0' in tx.from
  {
    if '\0' in tx.from {
      var i :| 0 <= i < |tx.from| && tx.from[i] == '\0';
    }
  }
}
