/**
 * The dry run and the commit agree: a block that the dry run accepts commits, no
 * arithmetic of the commit wraps, and the supply grows by what the block mints.
 */
module LedgerProofs {
  import opened U64
  import opened MapSum
  import opened Wrappers
  import opened Transactions
  import opened LedgerSpec

  // ------------------------------------------------- the reference account book

  /** What transaction `tx` adds to the balance of `a`, as an unbounded integer. */
  function BalDelta(tx: Tx, miner: Address, admin: Address, a: Address): int {
    match KindOf(tx, admin)
    case Coinbase => if a == tx.to then tx.amount else 0
    case Transfer =>
      (if a == tx.to then tx.amount else 0)
      - (if a == tx.from && tx.from != tx.to then tx.amount + TokenFee(tx) else 0)
      + (if a == miner then TokenFee(tx) else 0)
    case ConvertPck => if a == tx.from then 0 - tx.ktoNum else 0
    case ConvertKto => if a == tx.from then tx.ktoNum else 0
    case Freeze => 0
    case Unfreeze => 0
    case Unknown => 0
  }

  function BalChange(txs: seq<Tx>, miner: Address, admin: Address, a: Address): int {
    if txs == [] then 0 else BalDelta(txs[0], miner, admin, a) + BalChange(txs[1..], miner, admin, a)
  }

  /**
   * Coins that come into being: coinbase amounts, and, because a transfer to oneself is
   * credited without being debited, its amount and fee.
   */
  function Minted(tx: Tx, admin: Address): nat {
    match KindOf(tx, admin)
    case Coinbase => tx.amount
    case Transfer => if tx.from == tx.to then tx.amount + TokenFee(tx) else 0
    case ConvertPck => 0
    case ConvertKto => 0
    case Freeze => 0
    case Unfreeze => 0
    case Unknown => 0
  }

  function MintedBy(txs: seq<Tx>, admin: Address): nat {
    if txs == [] then 0 else Minted(txs[0], admin) + MintedBy(txs[1..], admin)
  }

  /** All coins: balances plus the coins converted away. */
  ghost function Supply(w: Ledger): int {
    Sum(w.bal) + Sum(w.dkto)
  }

  /** The stored totals match the per-address amounts, the pck total only modulo 2^64. */
  ghost predicate TotalsMatch(w: Ledger) {
    && w.dKtoTotal == Sum(w.dkto)
    && w.pckTotal == Sum(w.pck) % TWO64
  }

  // --------------------------------------------------------------- the simulation

  /** At `a`, available plus frozen according to the dry run stay within the half-committed balance. */
  ghost predicate BalSim(l: Ledger, r: Results, bal: map<Address, u64>, a: Address) {
    && (a in r.frz ==> a in r.avl)
    && (if a in r.avl then r.avl[a] + Frozen(l, r, a) <= At(bal, a) else At(l.bal, a) <= At(bal, a))
  }

  /** At `a`, the dry run and the half-committed ledger hold the same pck and dKto. */
  ghost predicate ConvSim(l: Ledger, r: Results, w: Ledger, a: Address) {
    Convertible(l, r, a) == PckDkto(At(w.pck, a), At(w.dkto, a))
  }

  ghost predicate Sim(l: Ledger, r: Results, w: Ledger) {
    forall a :: BalSim(l, r, w.bal, a) && ConvSim(l, r, w, a)
  }

  /** One committed transaction: the balance of every address moves by its delta, unwrapped. */
  ghost predicate Booked(w: Ledger, w': Ledger, tx: Tx, miner: Address, admin: Address) {
    && Supply(w') == Supply(w) + Minted(tx, admin)
    && TotalsMatch(w')
    && (forall a :: At(w'.bal, a) == At(w.bal, a) + BalDelta(tx, miner, admin, a))
  }

  /** A token transfer whose script the token store of `w` rejects. */
  predicate ScriptFails(w: Ledger, tx: Tx, admin: Address, run: Runner) {
    KindOf(tx, admin) == Transfer && IsToken(tx) && run(w.tokens, tx.script, tx.from).None?
  }

  /**
   * What the dry run accepts commits, unless its token script is rejected, and the
   * simulation and the account book continue to hold.
   */
  ghost predicate StepOk(l: Ledger, r: Results, w: Ledger, tx: Tx, miner: Address, admin: Address, run: Runner)
    requires DryStep(l, r, tx, admin).Some?
  {
    var s := CommitStep(l.frz, w, tx, miner, admin, run);
    if ScriptFails(w, tx, admin, run) then s == Failure(ScriptRejected)
    else
      && s.Success?
      && Sim(l, DryStep(l, r, tx, admin).value, s.value)
      && Booked(w, s.value, tx, miner, admin)
  }

  lemma SupplyBounds(w: Ledger, a: Address)
    ensures 0 <= Sum(w.dkto) && At(w.dkto, a) <= Sum(w.dkto)
    ensures 0 <= At(w.bal, a) <= Sum(w.bal)
  {
    SumNonNegative(w.dkto);
    ValueAtMostSum(w.bal, a);
    ValueAtMostSum(w.dkto, a);
  }

  lemma AvailBound(l: Ledger, r: Results, bal: map<Address, u64>, a: Address)
    requires BalSim(l, r, bal, a) && Avail(l, r, a).Some?
    ensures Avail(l, r, a).value + Frozen(l, r, a) <= At(bal, a)
  {
  }

  /** What the receiver's half of a transaction adds to the coins of its receiver. */
  function Credit(tx: Tx, admin: Address): u64 {
    if KindOf(tx, admin) == Coinbase || KindOf(tx, admin) == Transfer then tx.amount else 0
  }

  /** From `r` to `r'`, available plus frozen coins of `a` grow by the credit, modulo 2^64, and no one else's change. */
  ghost predicate Credited(l: Ledger, r: Results, r': Results, a: Address, credit: u64) {
    && r'.pd == r.pd
    && (forall b :: b != a ==> Avail(l, r', b) == Avail(l, r, b) && Frozen(l, r', b) == Frozen(l, r, b))
    && Avail(l, r, a).Some? && Avail(l, r', a).Some?
    && var before, after := Avail(l, r, a).value + Frozen(l, r, a), Avail(l, r', a).value + Frozen(l, r', a);
       after == before + credit || after == before + credit - TWO64
  }

  /** Only coinbases and transfers credit their receiver; freezes move coins between available and frozen. */
  lemma ReceiverCredited(l: Ledger, r: Results, tx: Tx, admin: Address)
    requires DryReceiver(l, r, tx, admin).Some?
    ensures var k, r' := KindOf(tx, admin), DryReceiver(l, r, tx, admin).value;
            if k == ConvertPck || k == ConvertKto then r' == r
            else Credited(l, r, r', tx.to, Credit(tx, admin))
  {
  }

  /** Only the entry of `x` changes in the results, and no other stored balance shrinks. */
  lemma BalSimKept(l: Ledger, r: Results, r': Results, bal: map<Address, u64>, bal': map<Address, u64>, x: Address)
    requires forall a :: BalSim(l, r, bal, a)
    requires x in r'.avl && r'.avl == r.avl[x := r'.avl[x]]
    requires r'.frz == r.frz || (x in r'.frz && r'.frz == r.frz[x := r'.frz[x]])
    requires r'.avl[x] + Frozen(l, r', x) <= At(bal', x)
    requires forall a :: a != x ==> At(bal, a) <= At(bal', a)
    ensures forall a :: BalSim(l, r', bal', a)
  {
    forall a ensures BalSim(l, r', bal', a) {
      assert BalSim(l, r, bal, a);
    }
  }

  // Coinbase

  lemma CoinbaseStep(l: Ledger, r: Results, w: Ledger, tx: Tx, miner: Address, admin: Address, run: Runner)
    requires Sim(l, r, w) && TotalsMatch(w)
    requires KindOf(tx, admin) == Coinbase
    requires Supply(w) + Minted(tx, admin) < TWO64
    requires DryStep(l, r, tx, admin).Some?
    ensures StepOk(l, r, w, tx, miner, admin, run)
  {
    var r' := DryStep(l, r, tx, admin).value;
    var w' := CommitStep(l.frz, w, tx, miner, admin, run).value;
    SupplyBounds(w, tx.to);
    SumUpdate(w.bal, tx.to, At(w'.bal, tx.to));
    assert BalSim(l, r, w.bal, tx.to);
    AvailBound(l, r, w.bal, tx.to);
    BalSimKept(l, r, r', w.bal, w'.bal, tx.to);
    forall a ensures ConvSim(l, r', w', a) {
      assert ConvSim(l, r, w, a);
    }
  }

  // Freezing

  lemma FreezeStep(l: Ledger, r: Results, w: Ledger, tx: Tx, miner: Address, admin: Address, run: Runner)
    requires Sim(l, r, w) && TotalsMatch(w)
    requires KindOf(tx, admin) == Freeze || KindOf(tx, admin) == Unfreeze
    requires Supply(w) < TWO64
    requires DryStep(l, r, tx, admin).Some?
    ensures StepOk(l, r, w, tx, miner, admin, run)
  {
    var r' := DryStep(l, r, tx, admin).value;
    var w' := CommitStep(l.frz, w, tx, miner, admin, run).value;
    assert BalSim(l, r, w.bal, tx.to);
    AvailBound(l, r, w.bal, tx.to);
    BalSimKept(l, r, r', w.bal, w'.bal, tx.to);
    hide BalSim, Avail;
    forall a ensures ConvSim(l, r', w', a) {
      assert ConvSim(l, r, w, a);
    }
  }

  // Conversions

  lemma ConvSimKept(l: Ledger, r: Results, r': Results, w: Ledger, w': Ledger, x: Address)
    requires forall a :: ConvSim(l, r, w, a)
    requires x in r'.pd && r'.pd == r.pd[x := r'.pd[x]]
    requires w'.pck == w.pck[x := r'.pd[x].pck] && w'.dkto == w.dkto[x := r'.pd[x].dkto]
    ensures forall a :: ConvSim(l, r', w', a)
  {
    forall a ensures ConvSim(l, r', w', a) {
      assert ConvSim(l, r, w, a);
    }
  }

  /** The converted amounts of one address move together with the totals. */
  lemma ConvertTotals(w: Ledger, w': Ledger, a: Address, kto: int, pck: int)
    requires TotalsMatch(w)
    requires At(w.dkto, a) + kto == At(w'.dkto, a) && w'.dkto == w.dkto[a := At(w'.dkto, a)]
    requires At(w.pck, a) + pck == At(w'.pck, a) && w'.pck == w.pck[a := At(w'.pck, a)]
    requires w'.dKtoTotal == w.dKtoTotal + kto
    requires -TWO64 < pck < TWO64
    requires w'.pckTotal == if pck >= 0 then Add(w.pckTotal, pck) else Sub(w.pckTotal, -pck)
    ensures TotalsMatch(w') && Sum(w'.dkto) == Sum(w.dkto) + kto
  {
    SumUpdate(w.dkto, a, At(w'.dkto, a));
    SumUpdate(w.pck, a, At(w'.pck, a));
    ResidueStep(Sum(w.pck), w.pckTotal, if pck >= 0 then pck else -pck);
  }

  /** A conversion commits, unwrapped, when the amounts of the sender allow it. */
  lemma ConvertPckBooked(w: Ledger, tx: Tx, miner: Address, admin: Address)
    requires TotalsMatch(w) && KindOf(tx, admin) == ConvertPck
    requires Supply(w) < TWO64
    requires tx.ktoNum <= At(w.bal, tx.from) && At(w.pck, tx.from) + tx.pckNum < TWO64
    ensures CommitConvertPck(w, tx).Success? && Booked(w, CommitConvertPck(w, tx).value, tx, miner, admin)
  {
    SupplyBounds(w, tx.from);
    var w' := CommitConvertPck(w, tx).value;
    SumUpdate(w.bal, tx.from, At(w'.bal, tx.from));
    ConvertTotals(w, w', tx.from, tx.ktoNum, tx.pckNum);
  }

  lemma ConvertKtoBooked(w: Ledger, tx: Tx, miner: Address, admin: Address)
    requires TotalsMatch(w) && KindOf(tx, admin) == ConvertKto
    requires Supply(w) < TWO64
    requires tx.ktoNum <= At(w.dkto, tx.from) && tx.pckNum <= At(w.pck, tx.from)
    ensures CommitConvertKto(w, tx).Success? && Booked(w, CommitConvertKto(w, tx).value, tx, miner, admin)
  {
    SupplyBounds(w, tx.from);
    var w' := CommitConvertKto(w, tx).value;
    SumUpdate(w.bal, tx.from, At(w'.bal, tx.from));
    ConvertTotals(w, w', tx.from, 0 - tx.ktoNum, 0 - tx.pckNum);
  }

  lemma DryConvertPckForm(l: Ledger, r: Results, tx: Tx, admin: Address)
    requires KindOf(tx, admin) == ConvertPck
    requires DryStep(l, r, tx, admin).Some?
    ensures Avail(l, r, tx.from).Some?
    ensures var pd := Convertible(l, r, tx.from);
            && tx.ktoNum <= Avail(l, r, tx.from).value && pd.pck + tx.pckNum < TWO64 && pd.dkto + tx.ktoNum < TWO64
            && DryStep(l, r, tx, admin) == Some(Results(r.avl[tx.from := Avail(l, r, tx.from).value - tx.ktoNum],
                                     r.frz,
                                     r.pd[tx.from := PckDkto(pd.pck + tx.pckNum, pd.dkto + tx.ktoNum)]))
  {
  }

  lemma SimAt(l: Ledger, r: Results, w: Ledger, a: Address)
    requires Sim(l, r, w)
    ensures BalSim(l, r, w.bal, a) && ConvSim(l, r, w, a)
  {
  }

  /** Only the amounts of `x` change, in dry run and commit alike. */
  lemma ConversionSim(l: Ledger, r: Results, r': Results, w: Ledger, w': Ledger, x: Address)
    requires Sim(l, r, w)
    requires x in r'.avl && r'.avl == r.avl[x := r'.avl[x]] && r'.frz == r.frz
    requires x in r'.pd && r'.pd == r.pd[x := r'.pd[x]]
    requires x in w'.bal && w'.bal == w.bal[x := w'.bal[x]] && r'.avl[x] + Frozen(l, r, x) <= w'.bal[x]
    requires w'.pck == w.pck[x := r'.pd[x].pck] && w'.dkto == w.dkto[x := r'.pd[x].dkto]
    ensures Sim(l, r', w')
  {
    hide Convertible, Avail, ConvSim, BalSim;
    BalSimKept(l, r, r', w.bal, w'.bal, x);
    ConvSimKept(l, r, r', w, w', x);
  }

  lemma CommitConvertPckForm(w: Ledger, tx: Tx)
    requires CommitConvertPck(w, tx).Success?
    ensures var w', x := CommitConvertPck(w, tx).value, tx.from;
            && At(w.pck, x) + tx.pckNum < TWO64 && At(w.dkto, x) + tx.ktoNum < TWO64 && tx.ktoNum <= At(w.bal, x)
            && w'.pck == w.pck[x := At(w.pck, x) + tx.pckNum] && w'.dkto == w.dkto[x := At(w.dkto, x) + tx.ktoNum]
            && w'.bal == w.bal[x := At(w.bal, x) - tx.ktoNum]
  {
  }

  lemma ConvertPckSim(l: Ledger, r: Results, w: Ledger, tx: Tx, admin: Address)
    requires Sim(l, r, w) && Supply(w) < TWO64
    requires KindOf(tx, admin) == ConvertPck && DryStep(l, r, tx, admin).Some?
    ensures tx.ktoNum <= At(w.bal, tx.from) && At(w.pck, tx.from) + tx.pckNum < TWO64
    ensures CommitConvertPck(w, tx).Success? ==> Sim(l, DryStep(l, r, tx, admin).value, CommitConvertPck(w, tx).value)
  {
    hide Sim, DryStep, Supply, KindOf, CommitConvertPck;
    SimAt(l, r, w, tx.from);
    DryConvertPckForm(l, r, tx, admin);
    AvailBound(l, r, w.bal, tx.from);
    SupplyBounds(w, tx.from);
    if CommitConvertPck(w, tx).Success? {
      CommitConvertPckForm(w, tx);
      var r' := DryStep(l, r, tx, admin).value;
      var w' := CommitConvertPck(w, tx).value;
      var x := tx.from;
      assert r'.pd[x] == PckDkto(At(w.pck, x) + tx.pckNum, At(w.dkto, x) + tx.ktoNum);
      ConversionSim(l, r, r', w, w', x);
    }
  }

  lemma ConvertPckStep(l: Ledger, r: Results, w: Ledger, tx: Tx, miner: Address, admin: Address, run: Runner)
    requires Sim(l, r, w) && TotalsMatch(w)
    requires KindOf(tx, admin) == ConvertPck
    requires Supply(w) < TWO64
    requires DryStep(l, r, tx, admin).Some?
    ensures StepOk(l, r, w, tx, miner, admin, run)
  {
    hide Sim, Booked, TotalsMatch, Supply, DryStep, CommitConvertPck;
    ConvertPckSim(l, r, w, tx, admin);
    ConvertPckBooked(w, tx, miner, admin);
  }

  lemma DryConvertKtoForm(l: Ledger, r: Results, tx: Tx, admin: Address)
    requires KindOf(tx, admin) == ConvertKto
    requires DryStep(l, r, tx, admin).Some?
    ensures Avail(l, r, tx.from).Some?
    ensures var pd := Convertible(l, r, tx.from);
            && tx.pckNum <= pd.pck && tx.ktoNum <= pd.dkto && Avail(l, r, tx.from).value + tx.ktoNum < TWO64
            && DryStep(l, r, tx, admin) == Some(Results(r.avl[tx.from := Avail(l, r, tx.from).value + tx.ktoNum],
                                     r.frz,
                                     r.pd[tx.from := PckDkto(pd.pck - tx.pckNum, pd.dkto - tx.ktoNum)]))
  {
  }

  lemma ConvertKtoSim(l: Ledger, r: Results, w: Ledger, tx: Tx, admin: Address)
    requires Sim(l, r, w) && Supply(w) < TWO64
    requires KindOf(tx, admin) == ConvertKto && DryStep(l, r, tx, admin).Some?
    ensures tx.ktoNum <= At(w.dkto, tx.from) && tx.pckNum <= At(w.pck, tx.from)
    ensures CommitConvertKto(w, tx).Success? ==> Sim(l, DryStep(l, r, tx, admin).value, CommitConvertKto(w, tx).value)
  {
    hide Sim, DryStep, Supply, KindOf;
    SimAt(l, r, w, tx.from);
    DryConvertKtoForm(l, r, tx, admin);
    AvailBound(l, r, w.bal, tx.from);
    SupplyBounds(w, tx.from);
    if CommitConvertKto(w, tx).Success? {
      var r' := DryStep(l, r, tx, admin).value;
      var w' := CommitConvertKto(w, tx).value;
      var x := tx.from;
      assert r'.pd[x] == PckDkto(At(w.pck, x) - tx.pckNum, At(w.dkto, x) - tx.ktoNum);
      ConversionSim(l, r, r', w, w', x);
    }
  }

  lemma ConvertKtoStep(l: Ledger, r: Results, w: Ledger, tx: Tx, miner: Address, admin: Address, run: Runner)
    requires Sim(l, r, w) && TotalsMatch(w)
    requires KindOf(tx, admin) == ConvertKto
    requires Supply(w) < TWO64
    requires DryStep(l, r, tx, admin).Some?
    ensures StepOk(l, r, w, tx, miner, admin, run)
  {
    hide Sim, Booked, TotalsMatch, Supply, DryStep, CommitConvertKto;
    ConvertKtoSim(l, r, w, tx, admin);
    ConvertKtoBooked(w, tx, miner, admin);
  }

  // Transfers

  /** What a transfer does to the balance of `a`, exactly; see `BalDelta`. */
  ghost predicate TransferredAt(bal: map<Address, u64>, bal': map<Address, u64>, tx: Tx, miner: Address,
          fee: u64, a: Address) {
    At(bal', a) == At(bal, a)
                   + (if a == tx.to then tx.amount else 0)
                   - (if a == tx.from && tx.from != tx.to then tx.amount + fee else 0)
                   + (if a == miner then fee else 0)
  }

  lemma PlainTransfer(bal: map<Address, u64>, tx: Tx, miner: Address)
    requires tx.amount <= At(bal, tx.from) && !IsToken(tx)
    requires Sum(bal) + (if tx.from == tx.to then tx.amount else 0) < TWO64
    ensures var bal' := TransferBalances(bal, tx, miner);
            && Sum(bal') == Sum(bal) + (if tx.from == tx.to then tx.amount else 0)
            && forall a :: TransferredAt(bal, bal', tx, miner, 0, a)
  {
    var bal' := CommitAccount(bal, tx);
    var mid := bal[tx.from := Sub(At(bal, tx.from), tx.amount)];
    SumUpdate(bal, tx.from, At(mid, tx.from));
    SumUpdate(mid, tx.to, At(bal', tx.to));
    ValueAtMostSum(bal, tx.to);
    if tx.from != tx.to {
      TwoValuesAtMostSum(bal, tx.from, tx.to);
    }
  }

  /** The miner's balance may wrap between fee and debit when sender and miner are the same; the outcome never does. */
  lemma TokenTransferAt(bal: map<Address, u64>, tx: Tx, miner: Address, a: Address)
    requires tx.amount + tx.fee <= At(bal, tx.from) && IsToken(tx)
    requires Sum(bal) + (if tx.from == tx.to then tx.amount + tx.fee else 0) < TWO64
    ensures TransferredAt(bal, TransferBalances(bal, tx, miner), tx, miner, tx.fee, a)
  {
    ValueAtMostSum(bal, tx.to);
    if tx.from != tx.to {
      TwoValuesAtMostSum(bal, tx.from, tx.to);
    }
    if tx.from != miner {
      TwoValuesAtMostSum(bal, tx.from, miner);
    }
  }

  lemma TokenTransferSum(bal: map<Address, u64>, tx: Tx, miner: Address)
    requires tx.amount + tx.fee <= At(bal, tx.from) && IsToken(tx)
    requires Sum(bal) + (if tx.from == tx.to then tx.amount + tx.fee else 0) < TWO64
    ensures Sum(TransferBalances(bal, tx, miner)) == Sum(bal) + (if tx.from == tx.to then tx.amount + tx.fee else 0)
  {
    var bal' := TransferBalances(bal, tx, miner);
    TokenTransferAt(bal, tx, miner, tx.from);
    TokenTransferAt(bal, tx, miner, tx.to);
    TokenTransferAt(bal, tx, miner, miner);
    var b1 := bal[miner := At(bal', miner)];
    var b2 := b1[tx.from := At(bal', tx.from)];
    SumUpdate(bal, miner, At(bal', miner));
    SumUpdate(b1, tx.from, At(bal', tx.from));
    SumUpdate(b2, tx.to, At(bal', tx.to));
    assert b2[tx.to := At(bal', tx.to)] == bal';
  }

  /** Results after both halves of a transfer stay below the balance after it. */
  lemma TransferSimAt(l: Ledger, r: Results, bal: map<Address, u64>, bal': map<Address, u64>, tx: Tx,
          miner: Address, admin: Address, fee: u64, a: Address)
    requires BalSim(l, r, bal, tx.from) && BalSim(l, r, bal, a)
    requires KindOf(tx, admin) == Transfer && fee <= tx.fee
    requires DryStep(l, r, tx, admin).Some?
    requires TransferredAt(bal, bal', tx, miner, fee, a)
    ensures BalSim(l, DryStep(l, r, tx, admin).value, bal', a)
  {
  }

  lemma TransferredEverywhere(bal: map<Address, u64>, tx: Tx, miner: Address)
    requires tx.amount + tx.fee <= At(bal, tx.from)
    requires Sum(bal) + (if tx.from == tx.to then tx.amount + TokenFee(tx) else 0) < TWO64
    ensures var bal' := TransferBalances(bal, tx, miner);
            && Sum(bal') == Sum(bal) + (if tx.from == tx.to then tx.amount + TokenFee(tx) else 0)
            && forall a :: TransferredAt(bal, bal', tx, miner, TokenFee(tx), a)
  {
    if IsToken(tx) {
      TokenTransferSum(bal, tx, miner);
      forall a ensures TransferredAt(bal, TransferBalances(bal, tx, miner), tx, miner, tx.fee, a) {
        TokenTransferAt(bal, tx, miner, a);
      }
    } else {
      PlainTransfer(bal, tx, miner);
    }
  }

  lemma TransferAffordable(l: Ledger, r: Results, bal: map<Address, u64>, tx: Tx, admin: Address)
    requires BalSim(l, r, bal, tx.from)
    requires KindOf(tx, admin) == Transfer && DryStep(l, r, tx, admin).Some?
    ensures tx.amount + tx.fee <= At(bal, tx.from)
  {
    AvailBound(l, r, bal, tx.from);
  }

  lemma TransferredIsDelta(bal: map<Address, u64>, bal': map<Address, u64>, tx: Tx, miner: Address,
          admin: Address, a: Address)
    requires KindOf(tx, admin) == Transfer
    requires TransferredAt(bal, bal', tx, miner, TokenFee(tx), a)
    ensures At(bal', a) == At(bal, a) + BalDelta(tx, miner, admin, a)
  {
  }

  lemma TransferBooked(w: Ledger, w': Ledger, tx: Tx, miner: Address, admin: Address)
    requires TotalsMatch(w) && KindOf(tx, admin) == Transfer
    requires tx.amount + tx.fee <= At(w.bal, tx.from)
    requires Supply(w) + Minted(tx, admin) < TWO64
    requires w'.bal == TransferBalances(w.bal, tx, miner) && w'.pck == w.pck && w'.dkto == w.dkto
    requires w'.pckTotal == w.pckTotal && w'.dKtoTotal == w.dKtoTotal
    ensures Booked(w, w', tx, miner, admin)
  {
    SupplyBounds(w, tx.from);
    TransferredEverywhere(w.bal, tx, miner);
    forall a ensures At(w'.bal, a) == At(w.bal, a) + BalDelta(tx, miner, admin, a) {
      TransferredIsDelta(w.bal, w'.bal, tx, miner, admin, a);
    }
  }

  lemma TransferSim(l: Ledger, r: Results, w: Ledger, w': Ledger, tx: Tx, miner: Address, admin: Address)
    requires Sim(l, r, w) && TotalsMatch(w)
    requires KindOf(tx, admin) == Transfer
    requires Supply(w) + Minted(tx, admin) < TWO64
    requires DryStep(l, r, tx, admin).Some?
    requires w'.bal == TransferBalances(w.bal, tx, miner) && w'.pck == w.pck && w'.dkto == w.dkto
    ensures Sim(l, DryStep(l, r, tx, admin).value, w')
  {
    assert BalSim(l, r, w.bal, tx.from);
    TransferAffordable(l, r, w.bal, tx, admin);
    SupplyBounds(w, tx.from);
    TransferredEverywhere(w.bal, tx, miner);
    var r' := DryStep(l, r, tx, admin).value;
    forall a ensures BalSim(l, r', w'.bal, a) && ConvSim(l, r', w', a) {
      assert TransferredAt(w.bal, w'.bal, tx, miner, TokenFee(tx), a);
      assert BalSim(l, r, w.bal, a) && ConvSim(l, r, w, a);
      TransferSimAt(l, r, w.bal, w'.bal, tx, miner, admin, TokenFee(tx), a);
    }
  }

  // --------------------------------------------------------------- whole blocks

  lemma TransferStep(l: Ledger, r: Results, w: Ledger, tx: Tx, miner: Address, admin: Address, run: Runner)
    requires Sim(l, r, w) && TotalsMatch(w)
    requires KindOf(tx, admin) == Transfer
    requires Supply(w) + Minted(tx, admin) < TWO64
    requires DryStep(l, r, tx, admin).Some?
    ensures StepOk(l, r, w, tx, miner, admin, run)
  {
    var s := CommitTransfer(w, tx, miner, run);
    if s.Success? {
      assert BalSim(l, r, w.bal, tx.from);
      TransferAffordable(l, r, w.bal, tx, admin);
      TransferBooked(w, s.value, tx, miner, admin);
      TransferSim(l, r, w, s.value, tx, miner, admin);
    }
  }

  /** One step of the simulation. */
  lemma Step(l: Ledger, r: Results, w: Ledger, tx: Tx, miner: Address, admin: Address, run: Runner)
    requires Sim(l, r, w) && TotalsMatch(w)
    requires Supply(w) + Minted(tx, admin) < TWO64
    requires DryStep(l, r, tx, admin).Some?
    ensures StepOk(l, r, w, tx, miner, admin, run)
  {
    match KindOf(tx, admin)
    case Coinbase => CoinbaseStep(l, r, w, tx, miner, admin, run);
    case Freeze => FreezeStep(l, r, w, tx, miner, admin, run);
    case Unfreeze => FreezeStep(l, r, w, tx, miner, admin, run);
    case ConvertPck => ConvertPckStep(l, r, w, tx, miner, admin, run);
    case ConvertKto => ConvertKtoStep(l, r, w, tx, miner, admin, run);
    case Transfer => TransferStep(l, r, w, tx, miner, admin, run);
    case Unknown =>
  }

  /** The token store after one transaction: only a token transfer runs its script. */
  function TokensStep(tokens: TokenDb, tx: Tx, admin: Address, run: Runner): Option<TokenDb> {
    if KindOf(tx, admin) == Transfer && IsToken(tx) then run(tokens, tx.script, tx.from) else Some(tokens)
  }

  /** The token store after the transactions of a block, if no script fails. */
  function TokensAfter(tokens: TokenDb, txs: seq<Tx>, admin: Address, run: Runner): Option<TokenDb>
    decreases |txs|
  {
    if txs == [] then Some(tokens)
    else
      var t := TokensStep(tokens, txs[0], admin, run);
      if t.None? then None else TokensAfter(t.value, txs[1..], admin, run)
  }

  /** The state that `CommitRun` reaches from `w` is what the dry run, the account book and the scripts predict. */
  ghost predicate Followed(l: Ledger, r: Results, w: Ledger, w': Ledger, txs: seq<Tx>,
            miner: Address, admin: Address, run: Runner) {
    && Sim(l, r, w')
    && TotalsMatch(w')
    && Supply(w') == Supply(w) + MintedBy(txs, admin)
    && (forall a :: At(w'.bal, a) == At(w.bal, a) + BalChange(txs, miner, admin, a))
    && TokensAfter(w.tokens, txs, admin, run) == Some(w'.tokens)
  }

  lemma StepTokens(frozenBefore: map<Address, u64>, w: Ledger, tx: Tx, miner: Address, admin: Address, run: Runner)
    ensures var s := CommitStep(frozenBefore, w, tx, miner, admin, run);
            s.Success? && KindOf(tx, admin) != Unknown ==>
              TokensStep(w.tokens, tx, admin, run) == Some(s.value.tokens)
  {
  }

  /** The script of a committed transaction runs exactly if it is a transfer with a script and a fee. */
  lemma ScriptRunsIff(frozenBefore: map<Address, u64>, w: Ledger, tx: Tx, miner: Address, admin: Address, run: Runner)
    requires tx.tag == 0
    ensures var s := CommitStep(frozenBefore, w, tx, miner, admin, run);
            if tx.script != "" && tx.fee > 0
            then if run(w.tokens, tx.script, tx.from).Some?
                 then s.Success? && Some(s.value.tokens) == run(w.tokens, tx.script, tx.from)
                 else s == Failure(ScriptRejected)
            else s.Success? && s.value.tokens == w.tokens
  {
    hide TransferBalances;
  }

  lemma {:induction false} RunFollows(l: Ledger, r: Results, w: Ledger, txs: seq<Tx>,
            miner: Address, admin: Address, run: Runner)
    requires Sim(l, r, w) && TotalsMatch(w)
    requires Supply(w) + MintedBy(txs, admin) < TWO64
    requires DryRun(l, r, txs, admin).Some?
    ensures var s := CommitRun(l.frz, w, txs, miner, admin, run);
            if TokensAfter(w.tokens, txs, admin, run).None? then s == Failure(ScriptRejected)
            else s.Success? && Followed(l, DryRun(l, r, txs, admin).value, w, s.value, txs, miner, admin, run)
    decreases |txs|
  {
    if txs != [] {
      Step(l, r, w, txs[0], miner, admin, run);
      var s := CommitStep(l.frz, w, txs[0], miner, admin, run);
      if s.Success? {
        StepTokens(l.frz, w, txs[0], miner, admin, run);
        RunFollows(l, DryStep(l, r, txs[0], admin).value, s.value, txs[1..], miner, admin, run);
      }
    }
  }
}
