/**
 * How the pool selects the transactions of the next block: transactions are popped one at
 * a time, in any order, and each is made ready, kept waiting or dropped.
 */
module PendingSpec {
  import opened U64
  import opened Wrappers
  import opened Transactions
  import opened LedgerSpec

  const NONCE_LIMITS: u64 := 200
  const READY_TOTAL := 500

  datatype Selection = Selection(
    nonces: map<Address, u64>,
    frz: map<Address, u64>,
    avl: map<Address, u64>,
    pd: map<Address, PckDkto>,
    ready: seq<Tx>,
    waiting: seq<Tx>)

  const NOTHING := Selection(map[], map[], map[], map[], [], [])

  /** The next nonce of an address; an address without an entry starts at one. */
  function ChainNonce(l: Ledger, a: Address): u64 {
    if a in l.nonce then l.nonce[a] else 1
  }

  /** The address whose amounts a transaction is checked against. */
  function Account(tx: Tx, admin: Address): Address {
    if IsFreeze(tx, admin) || IsUnfreeze(tx, admin) then tx.to else tx.from
  }

  function SelAvail(l: Ledger, s: Selection, a: Address): Option<u64> {
    Avail(l, Results(s.avl, map[], map[]), a)
  }

  function SelFrozen(l: Ledger, s: Selection, a: Address): u64 {
    Frozen(l, Results(map[], s.frz, map[]), a)
  }

  function SelConvertible(l: Ledger, s: Selection, a: Address): PckDkto {
    Convertible(l, Results(map[], map[], s.pd), a)
  }

  function SelNonce(l: Ledger, s: Selection, a: Address): u64 {
    if a in s.nonces then s.nonces[a] else ChainNonce(l, a)
  }

  function MakeReady(s: Selection, tx: Tx): Selection {
    s.(nonces := s.nonces[tx.from := Add(tx.nonce, 1)], ready := s.ready + [tx])
  }

  function KeepWaiting(s: Selection, tx: Tx): Selection {
    s.(waiting := s.waiting + [tx])
  }

  /** An unfreeze that is not ready waits only when its nonce is further ahead than the limit. */
  function SelectUnfreeze(s: Selection, tx: Tx, avl: u64, frz: u64, nonce: u64): Selection {
    if nonce == tx.nonce && frz >= tx.amount then
      MakeReady(s.(frz := s.frz[tx.to := frz - tx.amount], avl := s.avl[tx.to := Add(avl, tx.amount)]), tx)
    else if tx.nonce > nonce && Add(nonce, NONCE_LIMITS) < tx.nonce then KeepWaiting(s, tx)
    else s
  }

  /**
   * Conversions change the available amount recorded for the address, which is zero, not
   * the stored amount, if the address has not been met before.
   */
  function SelectConversion(s: Selection, tx: Tx, avl: u64, pd: PckDkto, k: Kind): Selection {
    if k == ConvertPck && avl >= tx.ktoNum && pd.pck + tx.pckNum < TWO64 && pd.dkto + tx.ktoNum < TWO64 then
      MakeReady(s.(avl := s.avl[tx.from := Sub(At(s.avl, tx.from), tx.ktoNum)],
                   pd := s.pd[tx.from := PckDkto(pd.pck + tx.pckNum, pd.dkto + tx.ktoNum)]), tx)
    else if k == ConvertKto && pd.pck >= tx.pckNum && pd.dkto + tx.ktoNum < TWO64 && avl + tx.ktoNum < TWO64 then
      MakeReady(s.(avl := s.avl[tx.from := Add(At(s.avl, tx.from), tx.ktoNum)],
                   pd := s.pd[tx.from := PckDkto(pd.pck - tx.pckNum, Sub(pd.dkto, tx.ktoNum))]), tx)
    else s
  }

  /** A freeze is charged its fee here, though the dry run and the commit never charge it. */
  function SelectOther(s: Selection, tx: Tx, avl: u64, frz: u64, pd: PckDkto, nonce: u64, admin: Address): Selection {
    var k, a := KindOf(tx, admin), Account(tx, admin);
    if nonce == tx.nonce then
      if (k == Transfer || k == Freeze) && avl >= tx.amount + tx.fee then
        MakeReady(s.(avl := s.avl[a := avl - tx.amount - tx.fee],
                     frz := if k == Freeze then s.frz[a := Add(frz, tx.amount)] else s.frz), tx)
      else SelectConversion(s, tx, avl, pd, k)
    else if tx.nonce > nonce && tx.nonce < Add(nonce, NONCE_LIMITS) then KeepWaiting(s, tx)
    else s
  }

  /** Nothing when the account of `tx` has more frozen than stored: the selection is abandoned. */
  function Select(l: Ledger, s: Selection, tx: Tx, admin: Address): Option<Selection> {
    var a := Account(tx, admin);
    var avl := SelAvail(l, s, a);
    if avl.None? then None
    else
      var frz, nonce := SelFrozen(l, s, a), SelNonce(l, s, tx.from);
      if KindOf(tx, admin) == Unfreeze then Some(SelectUnfreeze(s, tx, avl.value, frz, nonce))
      else Some(SelectOther(s, tx, avl.value, frz, SelConvertible(l, s, a), nonce, admin))
  }

  /** What a step does with `tx`, when the next nonce of its sender is `nonce`. */
  ghost predicate Progress(s: Selection, s': Selection, tx: Tx, nonce: u64) {
    || (s'.ready == s.ready && s'.nonces == s.nonces && s'.waiting == s.waiting)
    || (s'.ready == s.ready && s'.nonces == s.nonces && s'.waiting == s.waiting + [tx])
    || (s'.ready == s.ready + [tx] && s'.waiting == s.waiting
        && tx.nonce == nonce && s'.nonces == s.nonces[tx.from := Add(nonce, 1)])
  }

  lemma OtherProgress(s: Selection, tx: Tx, avl: u64, frz: u64, pd: PckDkto, nonce: u64, admin: Address)
    ensures Progress(s, SelectOther(s, tx, avl, frz, pd, nonce, admin), tx, nonce)
  {
  }

  lemma UnfreezeProgress(s: Selection, tx: Tx, avl: u64, frz: u64, nonce: u64)
    ensures Progress(s, SelectUnfreeze(s, tx, avl, frz, nonce), tx, nonce)
  {
  }

  /** Each popped transaction is dropped, kept waiting, or made ready with the next nonce of its sender. */
  lemma SelectProgress(l: Ledger, s: Selection, tx: Tx, admin: Address)
    requires Select(l, s, tx, admin).Some?
    ensures Progress(s, Select(l, s, tx, admin).value, tx, SelNonce(l, s, tx.from))
  {
    var a := Account(tx, admin);
    var avl, frz, nonce := SelAvail(l, s, a), SelFrozen(l, s, a), SelNonce(l, s, tx.from);
    UnfreezeProgress(s, tx, avl.value, frz, nonce);
    OtherProgress(s, tx, avl.value, frz, SelConvertible(l, s, a), nonce, admin);
  }

  /** The selection after popping `order`, and whether it was abandoned. */
  datatype Outcome = Outcome(s: Selection, abandoned: bool)

  function SelectAll(l: Ledger, s: Selection, order: seq<Tx>, admin: Address): Outcome
    decreases |order|
  {
    if order == [] then Outcome(s, false)
    else
      var next := Select(l, s, order[0], admin);
      if next.None? then Outcome(s, true) else SelectAll(l, next.value, order[1..], admin)
  }
}
