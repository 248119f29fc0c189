/**
 * What a block means to the two pieces of code that interpret it: the dry run whose
 * results leader and followers compare, and the commit that changes the stored ledger.
 */
module LedgerSpec {
  import opened U64
  import opened Wrappers
  import opened Transactions

  type TokenDb = map<string, string>

  /** What runs the script of a token transfer: the new token store, or nothing if the script is rejected. */
  type Runner = (TokenDb, string, Address) -> Option<TokenDb>

  /** The stored ledger. An address without an entry counts as zero. */
  datatype Ledger = Ledger(
    height: u64,
    bal: map<Address, u64>,
    frz: map<Address, u64>,
    pck: map<Address, u64>,
    dkto: map<Address, u64>,
    nonce: map<Address, u64>,
    pckTotal: u64,
    dKtoTotal: u64,
    tokens: TokenDb)

  function At(m: map<Address, u64>, a: Address): u64 {
    if a in m then m[a] else 0
  }

  // ---------------------------------------------------------------- dry run

  datatype PckDkto = PckDkto(pck: u64, dkto: u64)

  /** The result maps of a dry run: available, frozen and convertible amounts of the addresses met so far. */
  datatype Results = Results(avl: map<Address, u64>, frz: map<Address, u64>, pd: map<Address, PckDkto>)

  const NO_RESULTS := Results(map[], map[], map[])

  /** Available balance: from the results if met before, else stored balance less stored frozen amount. */
  function Avail(l: Ledger, r: Results, a: Address): Option<u64> {
    if a in r.avl then Some(r.avl[a])
    else if At(l.bal, a) < At(l.frz, a) then None
    else Some(At(l.bal, a) - At(l.frz, a))
  }

  function Frozen(l: Ledger, r: Results, a: Address): u64 {
    if a in r.frz then r.frz[a] else At(l.frz, a)
  }

  function Convertible(l: Ledger, r: Results, a: Address): PckDkto {
    if a in r.pd then r.pd[a] else PckDkto(At(l.pck, a), At(l.dkto, a))
  }

  function DryTransferFrom(r: Results, avl: u64, tx: Tx): Option<Results> {
    if avl < tx.amount + tx.fee then None
    else Some(r.(avl := r.avl[tx.from := avl - tx.amount - tx.fee]))
  }

  function DryConvertPck(r: Results, avl: u64, pd: PckDkto, tx: Tx): Option<Results> {
    if avl < tx.ktoNum || pd.pck + tx.pckNum >= TWO64 || pd.dkto + tx.ktoNum >= TWO64 then None
    else Some(r.(
              avl := r.avl[tx.from := avl - tx.ktoNum],
              pd := r.pd[tx.from := PckDkto(pd.pck + tx.pckNum, pd.dkto + tx.ktoNum)]))
  }

  function DryConvertKto(r: Results, avl: u64, pd: PckDkto, tx: Tx): Option<Results> {
    if pd.pck < tx.pckNum || pd.dkto < tx.ktoNum || avl + tx.ktoNum >= TWO64 then None
    else Some(r.(
              avl := r.avl[tx.from := avl + tx.ktoNum],
              pd := r.pd[tx.from := PckDkto(pd.pck - tx.pckNum, pd.dkto - tx.ktoNum)]))
  }

  /** The sender's half of a transaction. */
  function DrySender(l: Ledger, r: Results, tx: Tx, admin: Address): Option<Results> {
    var k := KindOf(tx, admin);
    if k != Transfer && k != ConvertPck && k != ConvertKto then Some(r)
    else
      var avail := Avail(l, r, tx.from);
      if avail.None? then None
      else if k == Transfer then DryTransferFrom(r, avail.value, tx)
      else if k == ConvertPck then DryConvertPck(r, avail.value, Convertible(l, r, tx.from), tx)
      else DryConvertKto(r, avail.value, Convertible(l, r, tx.from), tx)
  }

  function DryFreeze(r: Results, avl: u64, frz: u64, tx: Tx): Option<Results> {
    if avl < tx.amount then None
    else Some(r.(
              avl := r.avl[tx.to := avl - tx.amount],
              frz := r.frz[tx.to := Add(frz, tx.amount)]))
  }

  function DryUnfreeze(r: Results, avl: u64, frz: u64, tx: Tx): Option<Results> {
    if frz < tx.amount then None
    else Some(r.(
              avl := r.avl[tx.to := Add(avl, tx.amount)],
              frz := r.frz[tx.to := frz - tx.amount]))
  }

  /** The receiver's half of a transaction. Crediting does not check for overflow. */
  function DryReceiver(l: Ledger, r: Results, tx: Tx, admin: Address): Option<Results> {
    var k := KindOf(tx, admin);
    if k == ConvertPck || k == ConvertKto then Some(r)
    else
      var avail := Avail(l, r, tx.to);
      if avail.None? then None
      else if k == Coinbase || k == Transfer then
        Some(r.(avl := r.avl[tx.to := Add(avail.value, tx.amount)]))
      else if k == Freeze then DryFreeze(r, avail.value, Frozen(l, r, tx.to), tx)
      else if k == Unfreeze then DryUnfreeze(r, avail.value, Frozen(l, r, tx.to), tx)
      else None
  }

  function DryStep(l: Ledger, r: Results, tx: Tx, admin: Address): Option<Results> {
    var s := DrySender(l, r, tx, admin);
    if s.None? then None else DryReceiver(l, s.value, tx, admin)
  }

  function DryRun(l: Ledger, r: Results, txs: seq<Tx>, admin: Address): Option<Results>
    decreases |txs|
  {
    if txs == [] then Some(r)
    else
      var s := DryStep(l, r, txs[0], admin);
      if s.None? then None else DryRun(l, s.value, txs[1..], admin)
  }

  // ----------------------------------------------------------------- commit

  datatype CommitError = HeightMismatch | ScriptRejected | ConvertOverflow | TotalOverflow

  type Commit = Result<Ledger, CommitError>

  /** Freezing and unfreezing add to the frozen amount stored before the block, `frozenBefore`. */
  function CommitFreeze(frozenBefore: map<Address, u64>, w: Ledger, tx: Tx, freeze: bool): Ledger {
    var frozen := At(frozenBefore, tx.to);
    w.(nonce := w.nonce[tx.from := Add(tx.nonce, 1)],
       frz := w.frz[tx.to := if freeze then Add(tx.amount, frozen) else Sub(frozen, tx.amount)])
  }

  function CommitConvertPck(w: Ledger, tx: Tx): Commit {
    var pck, dkto, bal := At(w.pck, tx.from), At(w.dkto, tx.from), At(w.bal, tx.from);
    if MAXUINT64 - pck < tx.pckNum || MAXUINT64 - dkto < tx.ktoNum || bal < tx.ktoNum then Failure(ConvertOverflow)
    else if w.pckTotal + tx.pckNum >= TWO64 && w.dKtoTotal + tx.ktoNum >= TWO64 then Failure(TotalOverflow)
    else Success(w.(
                 nonce := w.nonce[tx.from := Add(tx.nonce, 1)],
                 pck := w.pck[tx.from := pck + tx.pckNum],
                 dkto := w.dkto[tx.from := dkto + tx.ktoNum],
                 bal := w.bal[tx.from := bal - tx.ktoNum],
                 pckTotal := Add(w.pckTotal, tx.pckNum),
                 dKtoTotal := Add(w.dKtoTotal, tx.ktoNum)))
  }

  function CommitConvertKto(w: Ledger, tx: Tx): Commit {
    var pck, dkto, bal := At(w.pck, tx.from), At(w.dkto, tx.from), At(w.bal, tx.from);
    if pck < tx.pckNum || dkto < tx.ktoNum || MAXUINT64 - bal < tx.ktoNum then Failure(ConvertOverflow)
    else if w.pckTotal < tx.pckNum && w.dKtoTotal < tx.ktoNum then Failure(TotalOverflow)
    else Success(w.(
                 nonce := w.nonce[tx.from := Add(tx.nonce, 1)],
                 pck := w.pck[tx.from := pck - tx.pckNum],
                 dkto := w.dkto[tx.from := dkto - tx.ktoNum],
                 bal := w.bal[tx.from := bal + tx.ktoNum],
                 pckTotal := Sub(w.pckTotal, tx.pckNum),
                 dKtoTotal := Sub(w.dKtoTotal, tx.ktoNum)))
  }

  /** Sender and receiver are both read before either is written; the receiver is written last. */
  function CommitAccount(bal: map<Address, u64>, tx: Tx): map<Address, u64> {
    var charged := if IsToken(tx) then Add(tx.amount, tx.fee) else tx.amount;
    var from, to := Sub(At(bal, tx.from), charged), Add(At(bal, tx.to), tx.amount);
    bal[tx.from := from][tx.to := to]
  }

  /** The balances after a transfer, with the fee of a token transfer paid to the miner first. */
  function TransferBalances(bal: map<Address, u64>, tx: Tx, miner: Address): map<Address, u64> {
    if IsToken(tx) then CommitAccount(bal[miner := Add(At(bal, miner), tx.fee)], tx) else CommitAccount(bal, tx)
  }

  function CommitTransfer(w: Ledger, tx: Tx, miner: Address, run: Runner): Commit {
    var tokens := if IsToken(tx) then run(w.tokens, tx.script, tx.from) else Some(w.tokens);
    if tokens.None? then Failure(ScriptRejected)
    else Success(w.(
                 nonce := w.nonce[tx.from := Add(tx.nonce, 1)],
                 tokens := tokens.value,
                 bal := TransferBalances(w.bal, tx, miner)))
  }

  function CommitStep(frozenBefore: map<Address, u64>, w: Ledger, tx: Tx, miner: Address,
            admin: Address, run: Runner): Commit {
    var k := KindOf(tx, admin);
    if k == Coinbase then Success(w.(bal := w.bal[tx.to := Add(At(w.bal, tx.to), tx.amount)]))
    else if k == Freeze || k == Unfreeze then Success(CommitFreeze(frozenBefore, w, tx, k == Freeze))
    else if k == ConvertPck then CommitConvertPck(w, tx)
    else if k == ConvertKto then CommitConvertKto(w, tx)
    else CommitTransfer(w, tx, miner, run)
  }

  function CommitRun(frozenBefore: map<Address, u64>, w: Ledger, txs: seq<Tx>,
            miner: Address, admin: Address, run: Runner): Commit
    decreases |txs|
  {
    if txs == [] then Success(w)
    else
      var s := CommitStep(frozenBefore, w, txs[0], miner, admin, run);
      if s.Failure? then s else CommitRun(frozenBefore, s.value, txs[1..], miner, admin, run)
  }

  /** The token store when the commit of some transactions ends: what the scripts that ran have made of it. */
  function TokensLeft(frozenBefore: map<Address, u64>, w: Ledger, txs: seq<Tx>, miner: Address, admin: Address,
          run: Runner): TokenDb
    decreases |txs|
  {
    if txs == [] then w.tokens
    else
      var s := CommitStep(frozenBefore, w, txs[0], miner, admin, run);
      if s.Failure? then w.tokens else TokensLeft(frozenBefore, s.value, txs[1..], miner, admin, run)
  }

  function CommitBlock(l: Ledger, b: Block, miner: Address, admin: Address, run: Runner): Commit {
    if b.height != Add(l.height, 1) then Failure(HeightMismatch)
    else
      var s := CommitRun(l.frz, l, b.txs, miner, admin, run);
      if s.Failure? then s else Success(s.value.(height := b.height))
  }
}
