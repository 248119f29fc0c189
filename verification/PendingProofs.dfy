/**
 * Whatever order the pool pops its transactions in, the block built from them is accepted, exactly as long as
 * each conversion meets its guard.
 */
module PendingProofs {
  import opened U64
  import opened MapSum
  import opened Wrappers
  import opened Transactions
  import opened LedgerSpec
  import opened LedgerProofs
  import opened LedgerRuns
  import opened PendingSpec

  /** The selection's available amounts are at most the dry run's, its frozen and convertible amounts the same. */
  ghost predicate LowerAt(l: Ledger, s: Selection, r: Results, a: Address) {
    && SelAvail(l, s, a).Some? && Avail(l, r, a).Some?
    && SelAvail(l, s, a).value <= Avail(l, r, a).value
    && SelFrozen(l, s, a) == Frozen(l, r, a)
    && SelConvertible(l, s, a) == Convertible(l, r, a)
  }

  ghost predicate Lower(l: Ledger, s: Selection, r: Results) {
    forall a :: LowerAt(l, s, r, a)
  }

  /** Only the entries of `x` change, and in step. */
  lemma LowerKept(l: Ledger, s: Selection, s': Selection, r: Results, r': Results, x: Address)
    requires Lower(l, s, r)
    requires s'.avl == s.avl || (x in s'.avl && s'.avl == s.avl[x := s'.avl[x]])
    requires x in r'.avl && r'.avl == r.avl[x := r'.avl[x]]
    requires SelAvail(l, s', x).Some? && SelAvail(l, s', x).value <= r'.avl[x]
    requires || (s'.frz == s.frz && r'.frz == r.frz)
             || (x in s'.frz && s'.frz == s.frz[x := s'.frz[x]] && r'.frz == r.frz[x := s'.frz[x]])
    requires || (s'.pd == s.pd && r'.pd == r.pd)
             || (x in s'.pd && s'.pd == s.pd[x := s'.pd[x]] && r'.pd == r.pd[x := s'.pd[x]])
    ensures Lower(l, s', r')
  {
    forall a ensures LowerAt(l, s', r', a) {
      assert LowerAt(l, s, r, a);
    }
  }

  // Transfers

  /** What the dry run credits is never wrapped. */
  lemma TransferCreditFits(l: Ledger, r: Results, bal: map<Address, u64>, tx: Tx)
    requires BalSim(l, r, bal, tx.from) && BalSim(l, r, bal, tx.to)
    requires Avail(l, r, tx.from).Some? && Avail(l, r, tx.to).Some?
    requires tx.amount + tx.fee <= Avail(l, r, tx.from).value
    requires Sum(bal) + (if tx.from == tx.to then tx.amount else 0) < TWO64
    ensures Avail(l, r, tx.to).value + tx.amount < TWO64
  {
    AvailBound(l, r, bal, tx.from);
    AvailBound(l, r, bal, tx.to);
    if tx.from == tx.to {
      ValueAtMostSum(bal, tx.to);
    } else {
      TwoValuesAtMostSum(bal, tx.from, tx.to);
    }
  }

  lemma DryTransferForm(l: Ledger, r: Results, tx: Tx, admin: Address)
    requires KindOf(tx, admin) == Transfer
    requires Avail(l, r, tx.from).Some? && Avail(l, r, tx.to).Some?
    requires tx.amount + tx.fee <= Avail(l, r, tx.from).value
    requires Avail(l, r, tx.to).value + tx.amount < TWO64
    ensures var debited := r.avl[tx.from := Avail(l, r, tx.from).value - tx.amount - tx.fee];
            var to := if tx.to == tx.from then debited[tx.from] else Avail(l, r, tx.to).value;
            DryStep(l, r, tx, admin) == Some(Results(debited[tx.to := to + tx.amount], r.frz, r.pd))
  {
  }

  lemma TransferLower(l: Ledger, s: Selection, r: Results, bal: map<Address, u64>, tx: Tx, s': Selection,
          admin: Address)
    requires Lower(l, s, r) && (forall a :: BalSim(l, r, bal, a))
    requires KindOf(tx, admin) == Transfer
    requires SelAvail(l, s, tx.from).Some? && tx.amount + tx.fee <= SelAvail(l, s, tx.from).value
    requires Sum(bal) + (if tx.from == tx.to then tx.amount else 0) < TWO64
    requires s'.avl == s.avl[tx.from := SelAvail(l, s, tx.from).value - tx.amount - tx.fee]
    requires s'.frz == s.frz && s'.pd == s.pd
    ensures DryStep(l, r, tx, admin).Some?
    ensures Lower(l, s', DryStep(l, r, tx, admin).value)
  {
    assert LowerAt(l, s, r, tx.from) && LowerAt(l, s, r, tx.to);
    assert BalSim(l, r, bal, tx.from) && BalSim(l, r, bal, tx.to);
    TransferCreditFits(l, r, bal, tx);
    DryTransferForm(l, r, tx, admin);
    var r1 := Results(r.avl[tx.from := Avail(l, r, tx.from).value - tx.amount - tx.fee], r.frz, r.pd);
    LowerKept(l, s, s', r, r1, tx.from);
    assert LowerAt(l, s', r1, tx.to);
    LowerKept(l, s', s', r1, DryStep(l, r, tx, admin).value, tx.to);
  }

  // Freezing

  lemma FreezeLower(l: Ledger, s: Selection, r: Results, tx: Tx, s': Selection, admin: Address)
    requires Lower(l, s, r)
    requires KindOf(tx, admin) == Freeze
    requires SelAvail(l, s, tx.to).Some? && tx.amount + tx.fee <= SelAvail(l, s, tx.to).value
    requires s'.avl == s.avl[tx.to := SelAvail(l, s, tx.to).value - tx.amount - tx.fee]
    requires s'.frz == s.frz[tx.to := Add(SelFrozen(l, s, tx.to), tx.amount)] && s'.pd == s.pd
    ensures DryStep(l, r, tx, admin).Some?
    ensures Lower(l, s', DryStep(l, r, tx, admin).value)
  {
    assert LowerAt(l, s, r, tx.to);
    LowerKept(l, s, s', r, DryStep(l, r, tx, admin).value, tx.to);
  }

  lemma UnfreezeLower(l: Ledger, s: Selection, r: Results, bal: map<Address, u64>, tx: Tx, s': Selection,
          admin: Address)
    requires Lower(l, s, r) && BalSim(l, r, bal, tx.to)
    requires KindOf(tx, admin) == Unfreeze
    requires SelAvail(l, s, tx.to).Some? && tx.amount <= SelFrozen(l, s, tx.to)
    requires s'.avl == s.avl[tx.to := Add(SelAvail(l, s, tx.to).value, tx.amount)]
    requires s'.frz == s.frz[tx.to := SelFrozen(l, s, tx.to) - tx.amount] && s'.pd == s.pd
    ensures DryStep(l, r, tx, admin).Some?
    ensures Lower(l, s', DryStep(l, r, tx, admin).value)
  {
    assert LowerAt(l, s, r, tx.to);
    LowerKept(l, s, s', r, DryStep(l, r, tx, admin).value, tx.to);
  }

  // Conversions

  lemma DryConversionIff(l: Ledger, r: Results, tx: Tx, admin: Address)
    requires Avail(l, r, tx.from).Some?
    ensures var (avl, pd) := (Avail(l, r, tx.from).value, Convertible(l, r, tx.from));
            && (KindOf(tx, admin) == ConvertPck ==>
                  (DryStep(l, r, tx, admin).Some? <==>
                   tx.ktoNum <= avl && pd.pck + tx.pckNum < TWO64 && pd.dkto + tx.ktoNum < TWO64))
            && (KindOf(tx, admin) == ConvertKto ==>
                  (DryStep(l, r, tx, admin).Some? <==>
                   tx.pckNum <= pd.pck && tx.ktoNum <= pd.dkto && avl + tx.ktoNum < TWO64))
  {
    hide Avail, Convertible;
  }

  /**
   * A ready conversion to pck is always accepted, and keeps the selection below the dry run if and only if the
   * address has an entry to subtract from, or nothing is subtracted.
   */
  lemma ConvertPckLowerIff(l: Ledger, s: Selection, r: Results, tx: Tx, s': Selection, admin: Address)
    requires Lower(l, s, r)
    requires KindOf(tx, admin) == ConvertPck && Select(l, s, tx, admin) == Some(s') && s'.ready == s.ready + [tx]
    ensures DryStep(l, r, tx, admin).Some?
    ensures Lower(l, s', DryStep(l, r, tx, admin).value) <==> tx.from in s.avl || tx.ktoNum == 0
  {
    hide Select, DryStep;
    assert LowerAt(l, s, r, tx.from) && LowerAt(l, s, r, Account(tx, admin));
    var t := SelectTreats(l, s, tx, admin);
    DryConversionIff(l, r, tx, admin);
    DryConvertPckForm(l, r, tx, admin);
    var r' := DryStep(l, r, tx, admin).value;
    if tx.from in s.avl || tx.ktoNum == 0 {
      LowerKept(l, s, s', r, r', tx.from);
    } else {
      assert !LowerAt(l, s', r', tx.from);
    }
  }

  /** The stored dKto and available coins of an address are within the supply. */
  lemma RoomForKto(l: Ledger, r: Results, w: Ledger, a: Address)
    requires Sim(l, r, w) && Supply(w) < TWO64 && Avail(l, r, a).Some?
    ensures Avail(l, r, a).value + Convertible(l, r, a).dkto < TWO64
  {
    assert BalSim(l, r, w.bal, a) && ConvSim(l, r, w, a);
    AvailBound(l, r, w.bal, a);
    SupplyBounds(w, a);
  }

  /**
   * A ready conversion back is accepted if and only if the address has that much dKto, which the selection does
   * not look at; and then the selection stays below the dry run.
   */
  lemma ConvertKtoAcceptedIff(l: Ledger, s: Selection, r: Results, w: Ledger, tx: Tx, s': Selection, admin: Address)
    requires Lower(l, s, r) && Sim(l, r, w) && Supply(w) < TWO64
    requires KindOf(tx, admin) == ConvertKto && Select(l, s, tx, admin) == Some(s') && s'.ready == s.ready + [tx]
    ensures DryStep(l, r, tx, admin).Some? <==> tx.ktoNum <= SelConvertible(l, s, tx.from).dkto
    ensures DryStep(l, r, tx, admin).Some? ==> Lower(l, s', DryStep(l, r, tx, admin).value)
  {
    hide Select, Supply, Sim, DryStep;
    assert LowerAt(l, s, r, tx.from) && LowerAt(l, s, r, Account(tx, admin));
    var t := SelectTreats(l, s, tx, admin);
    RoomForKto(l, r, w, tx.from);
    DryConversionIff(l, r, tx, admin);
    if DryStep(l, r, tx, admin).Some? {
      DryConvertKtoForm(l, r, tx, admin);
      LowerKept(l, s, s', r, DryStep(l, r, tx, admin).value, tx.from);
    }
  }

  // Whole selections

  /** The ways a selection can treat a transaction. */
  datatype Treatment = LeftOut | ReadyTransfer | ReadyFreeze | ReadyUnfreeze | ReadyPck | ReadyKto

  ghost predicate Treated(l: Ledger, s: Selection, s': Selection, tx: Tx, admin: Address, t: Treatment)
    requires SelAvail(l, s, Account(tx, admin)).Some?
  {
    var k, avl, pd := KindOf(tx, admin), SelAvail(l, s, Account(tx, admin)).value, SelConvertible(l, s, tx.from);
    match t
    case LeftOut => s'.avl == s.avl && s'.frz == s.frz && s'.pd == s.pd && s'.ready == s.ready
    case ReadyTransfer =>
      && k == Transfer && tx.amount + tx.fee <= avl && Account(tx, admin) == tx.from
      && s'.avl == s.avl[tx.from := avl - tx.amount - tx.fee] && s'.frz == s.frz && s'.pd == s.pd
      && s'.ready == s.ready + [tx]
    case ReadyFreeze =>
      && k == Freeze && tx.amount + tx.fee <= avl && Account(tx, admin) == tx.to
      && s'.avl == s.avl[tx.to := avl - tx.amount - tx.fee]
      && s'.frz == s.frz[tx.to := Add(SelFrozen(l, s, tx.to), tx.amount)] && s'.pd == s.pd
      && s'.ready == s.ready + [tx]
    case ReadyUnfreeze =>
      && k == Unfreeze && tx.amount <= SelFrozen(l, s, tx.to) && Account(tx, admin) == tx.to
      && s'.avl == s.avl[tx.to := Add(avl, tx.amount)]
      && s'.frz == s.frz[tx.to := SelFrozen(l, s, tx.to) - tx.amount] && s'.pd == s.pd
      && s'.ready == s.ready + [tx]
    case ReadyPck =>
      && k == ConvertPck && tx.ktoNum <= avl && Account(tx, admin) == tx.from
      && pd.pck + tx.pckNum < TWO64 && pd.dkto + tx.ktoNum < TWO64
      && s'.avl == s.avl[tx.from := Sub(At(s.avl, tx.from), tx.ktoNum)] && s'.frz == s.frz
      && s'.pd == s.pd[tx.from := PckDkto(pd.pck + tx.pckNum, pd.dkto + tx.ktoNum)]
      && s'.nonces == s.nonces[tx.from := Add(tx.nonce, 1)] && s'.ready == s.ready + [tx]
    case ReadyKto =>
      && k == ConvertKto && tx.pckNum <= pd.pck && avl + tx.ktoNum < TWO64 && Account(tx, admin) == tx.from
      && s'.avl == s.avl[tx.from := Add(At(s.avl, tx.from), tx.ktoNum)] && s'.frz == s.frz
      && s'.pd == s.pd[tx.from := PckDkto(pd.pck - tx.pckNum, Sub(pd.dkto, tx.ktoNum))]
      && s'.ready == s.ready + [tx]
  }

  lemma UnfreezeTreats(l: Ledger, s: Selection, tx: Tx, admin: Address) returns (t: Treatment)
    requires SelAvail(l, s, Account(tx, admin)).Some? && KindOf(tx, admin) == Unfreeze
    ensures Select(l, s, tx, admin).Some?
    ensures Treated(l, s, Select(l, s, tx, admin).value, tx, admin, t)
  {
    hide SelAvail, SelFrozen, SelConvertible, Add, Sub, At;
    t := if |Select(l, s, tx, admin).value.ready| == |s.ready| then LeftOut else ReadyUnfreeze;
  }

  lemma ConversionTreats(l: Ledger, s: Selection, tx: Tx, admin: Address) returns (t: Treatment)
    requires SelAvail(l, s, Account(tx, admin)).Some?
    requires KindOf(tx, admin) == ConvertPck || KindOf(tx, admin) == ConvertKto
    ensures Select(l, s, tx, admin).Some?
    ensures Treated(l, s, Select(l, s, tx, admin).value, tx, admin, t)
  {
    hide SelAvail, SelFrozen, SelConvertible, Add, Sub, At, SelectUnfreeze;
    t := if |Select(l, s, tx, admin).value.ready| == |s.ready| then LeftOut
         else if KindOf(tx, admin) == ConvertPck then ReadyPck
         else ReadyKto;
  }

  lemma OtherTreats(l: Ledger, s: Selection, tx: Tx, admin: Address) returns (t: Treatment)
    requires SelAvail(l, s, Account(tx, admin)).Some? && KindOf(tx, admin) != Unfreeze
    requires KindOf(tx, admin) != ConvertPck && KindOf(tx, admin) != ConvertKto
    ensures Select(l, s, tx, admin).Some?
    ensures Treated(l, s, Select(l, s, tx, admin).value, tx, admin, t)
  {
    hide SelAvail, SelFrozen, SelConvertible, Add, Sub, At, SelectUnfreeze;
    t := if |Select(l, s, tx, admin).value.ready| == |s.ready| then LeftOut
         else if KindOf(tx, admin) == Transfer then ReadyTransfer
         else ReadyFreeze;
  }

  lemma SelectTreats(l: Ledger, s: Selection, tx: Tx, admin: Address) returns (t: Treatment)
    requires SelAvail(l, s, Account(tx, admin)).Some?
    ensures Select(l, s, tx, admin).Some?
    ensures Treated(l, s, Select(l, s, tx, admin).value, tx, admin, t)
  {
    hide *;
    match KindOf(tx, admin)
    case Unfreeze => t := UnfreezeTreats(l, s, tx, admin);
    case ConvertPck => t := ConversionTreats(l, s, tx, admin);
    case ConvertKto => t := ConversionTreats(l, s, tx, admin);
    case _ => t := OtherTreats(l, s, tx, admin);
  }

  /**
   * What a conversion that is made ready must meet: one to pck, that its address was met before or nothing is
   * converted; one back, that its address has that much dKto.
   */
  predicate MeetsGuard(l: Ledger, s: Selection, tx: Tx, admin: Address) {
    var s' := Select(l, s, tx, admin);
    s'.Some? && s'.value.ready != s.ready ==>
      && (KindOf(tx, admin) == ConvertPck ==> tx.from in s.avl || tx.ktoNum == 0)
      && (KindOf(tx, admin) == ConvertKto ==> tx.ktoNum <= SelConvertible(l, s, tx.from).dkto)
  }

  /** Each conversion meets its guard when it is popped. */
  predicate GuardsMet(l: Ledger, s: Selection, order: seq<Tx>, admin: Address)
    decreases |order|
  {
    order == [] ||
    (&& MeetsGuard(l, s, order[0], admin)
     && var next := Select(l, s, order[0], admin);
        next.Some? ==> GuardsMet(l, next.value, order[1..], admin))
  }

  /** What the selection and the dry run make of one popped transaction. */
  ghost predicate StaysLower(l: Ledger, s: Selection, r: Results, tx: Tx, admin: Address) {
    var s' := Select(l, s, tx, admin);
    && s'.Some?
    && (|| (s'.value.ready == s.ready && Lower(l, s'.value, r))
        || (s'.value.ready == s.ready + [tx]
            && DryStep(l, r, tx, admin).Some?
            && Lower(l, s'.value, DryStep(l, r, tx, admin).value)))
  }

  /**
   * One popped transaction is accepted, and the selection stays below the dry run, if and only if it meets its
   * guard.
   */
  lemma SelectLowerIff(l: Ledger, s: Selection, r: Results, w: Ledger, tx: Tx, admin: Address)
    requires Lower(l, s, r) && Sim(l, r, w) && Supply(w) < TWO64
    requires var s' := Select(l, s, tx, admin);
             s'.Some? && s'.value.ready == s.ready + [tx] ==> Supply(w) + Minted(tx, admin) < TWO64
    ensures StaysLower(l, s, r, tx, admin) <==> MeetsGuard(l, s, tx, admin)
    ensures Select(l, s, tx, admin).Some?
  {
    hide Select, SelAvail, SelFrozen, SelConvertible, DryStep, BalSim, ConvSim, Account, Avail;
    assert LowerAt(l, s, r, Account(tx, admin)) && BalSim(l, r, w.bal, tx.to);
    SumNonNegative(w.dkto);
    var t := SelectTreats(l, s, tx, admin);
    var s' := Select(l, s, tx, admin).value;
    match t
    case LeftOut => SameLower(l, s, s', r);
    case ReadyTransfer => TransferLower(l, s, r, w.bal, tx, s', admin);
    case ReadyFreeze => FreezeLower(l, s, r, tx, s', admin);
    case ReadyUnfreeze => UnfreezeLower(l, s, r, w.bal, tx, s', admin);
    case ReadyPck => ConvertPckLowerIff(l, s, r, tx, s', admin);
    case ReadyKto => ConvertKtoAcceptedIff(l, s, r, w, tx, s', admin);
  }

  lemma SameLower(l: Ledger, s: Selection, s': Selection, r: Results)
    requires Lower(l, s, r) && s'.avl == s.avl && s'.frz == s.frz && s'.pd == s.pd
    ensures Lower(l, s', r)
  {
    forall a ensures LowerAt(l, s', r, a) {
      assert LowerAt(l, s, r, a);
    }
  }

  lemma {:induction false} ReadyGrows(l: Ledger, s: Selection, order: seq<Tx>, admin: Address)
    ensures var ready := SelectAll(l, s, order, admin).s.ready;
            |s.ready| <= |ready| && ready[..|s.ready|] == s.ready
    decreases |order|
  {
    hide Select;
    if order != [] {
      var next := Select(l, s, order[0], admin);
      if next.Some? {
        SelectProgress(l, s, order[0], admin);
        ReadyGrows(l, next.value, order[1..], admin);
      }
    }
  }

  lemma MintedSnoc(txs: seq<Tx>, tx: Tx, admin: Address)
    ensures MintedBy(txs + [tx], admin) == MintedBy(txs, admin) + Minted(tx, admin)
  {
    MintedPrefix(txs + [tx], admin, |txs|);
    assert (txs + [tx])[..|txs|] == txs && (txs + [tx])[|txs|..] == [tx] && [tx][1..] == [];
  }

  lemma DryRunSnoc(l: Ledger, txs: seq<Tx>, tx: Tx, admin: Address)
    requires DryRun(l, NO_RESULTS, txs, admin).Some?
    ensures DryRun(l, NO_RESULTS, txs + [tx], admin) == DryStep(l, DryRun(l, NO_RESULTS, txs, admin).value, tx, admin)
  {
    DryRunConcat(l, NO_RESULTS, txs, [tx], admin);
    var s := DryStep(l, DryRun(l, NO_RESULTS, txs, admin).value, tx, admin);
    assert [tx][1..] == [];
    if s.Some? {
      assert DryRun(l, s.value, [], admin) == s;
    }
  }

  lemma {:induction false} DryRunConcat(l: Ledger, r: Results, xs: seq<Tx>, ys: seq<Tx>, admin: Address)
    requires DryRun(l, r, xs, admin).Some?
    ensures DryRun(l, r, xs + ys, admin) == DryRun(l, DryRun(l, r, xs, admin).value, ys, admin)
    decreases |xs|
  {
    if xs == [] {
      assert xs + ys == ys;
    } else {
      assert (xs + ys)[1..] == xs[1..] + ys;
      DryRunConcat(l, DryStep(l, r, xs[0], admin).value, xs[1..], ys, admin);
    }
  }

  /** What the rest of the selection may still mint on top of the supply of `w`. */
  ghost predicate Affordable(l: Ledger, s: Selection, w: Ledger, order: seq<Tx>, admin: Address) {
    Supply(w) + MintedBy(SelectAll(l, s, order, admin).s.ready, admin) - MintedBy(s.ready, admin) < TWO64
  }

  lemma StepAffordable(l: Ledger, s: Selection, w: Ledger, order: seq<Tx>, admin: Address)
    requires order != [] && Affordable(l, s, w, order, admin)
    ensures var s' := Select(l, s, order[0], admin);
            s'.Some? && s'.value.ready == s.ready ==> Affordable(l, s'.value, w, order[1..], admin)
    ensures var s' := Select(l, s, order[0], admin);
            s'.Some? && s'.value.ready == s.ready + [order[0]] ==>
              && Supply(w) + Minted(order[0], admin) < TWO64
              && forall w' :: Supply(w') <= Supply(w) + Minted(order[0], admin) ==>
                                Affordable(l, s'.value, w', order[1..], admin)
  {
    hide Select, Supply;
    var next := Select(l, s, order[0], admin);
    if next.Some? && next.value.ready == s.ready + [order[0]] {
      var s' := next.value;
      MintedSnoc(s.ready, order[0], admin);
      ReadyGrows(l, s', order[1..], admin);
      MintedPrefix(SelectAll(l, s, order, admin).s.ready, admin, |s'.ready|);
    }
  }

  lemma StartTogether(l: Ledger, admin: Address)
    requires Sound(l)
    ensures Together(l, NOTHING, NO_RESULTS, l, admin)
  {
    SimStart(l);
    forall a ensures LowerAt(l, NOTHING, NO_RESULTS, a) {
      assert At(l.frz, a) <= At(l.bal, a);
    }
  }

  /** Where dry run, selection and a committed ledger stand, after the transactions made ready so far. */
  ghost predicate Together(l: Ledger, s: Selection, r: Results, w: Ledger, admin: Address) {
    Lower(l, s, r) && Sim(l, r, w) && TotalsMatch(w) && DryRun(l, NO_RESULTS, s.ready, admin) == Some(r)
  }

  /** One popped transaction that meets its guard keeps them together. */
  lemma StepTogether(l: Ledger, s: Selection, r: Results, w: Ledger, order: seq<Tx>, admin: Address)
    returns (r': Results, w': Ledger)
    requires Together(l, s, r, w, admin) && order != [] && Affordable(l, s, w, order, admin) && Supply(w) < TWO64
    requires MeetsGuard(l, s, order[0], admin)
    ensures Select(l, s, order[0], admin).Some?
    ensures var s' := Select(l, s, order[0], admin).value;
            Together(l, s', r', w', admin) && Affordable(l, s', w', order[1..], admin) && Supply(w') < TWO64
  {
    var tx := order[0];
    hide Select, Lower, Sim, TotalsMatch, Supply, DryStep, SelectAll, DryRun, MeetsGuard;
    StepAffordable(l, s, w, order, admin);
    SelectLowerIff(l, s, r, w, tx, admin);
    var s' := Select(l, s, tx, admin).value;
    if s'.ready == s.ready && Lower(l, s', r) {
      r', w' := r, w;
    } else {
      r' := DryStep(l, r, tx, admin).value;
      DryRunSnoc(l, s.ready, tx, admin);
      var run: Runner := (tokens, script, owner) => Some(tokens);
      Step(l, r, w, tx, "", admin, run);
      w' := CommitStep(l.frz, w, tx, "", admin, run).value;
    }
  }

  lemma {:induction false} SelectionAccepted(l: Ledger, s: Selection, r: Results, w: Ledger, order: seq<Tx>,
          admin: Address)
    requires Together(l, s, r, w, admin) && Affordable(l, s, w, order, admin) && Supply(w) < TWO64
    requires GuardsMet(l, s, order, admin)
    ensures var out := SelectAll(l, s, order, admin);
            && !out.abandoned
            && DryRun(l, NO_RESULTS, out.s.ready, admin).Some?
            && Lower(l, out.s, DryRun(l, NO_RESULTS, out.s.ready, admin).value)
    decreases |order|
  {
    hide Select, Lower, Sim, TotalsMatch, Supply, Affordable, MeetsGuard;
    if order != [] {
      var r', w' := StepTogether(l, s, r, w, order, admin);
      SelectionAccepted(l, Select(l, s, order[0], admin).value, r', w', order[1..], admin);
    }
  }

  /** Coinbases are accepted wherever available amounts are known. */
  lemma {:induction false} CoinbasesAccepted(l: Ledger, r: Results, coinbases: seq<Tx>, admin: Address)
    requires forall a :: Avail(l, r, a).Some?
    requires forall i :: 0 <= i < |coinbases| ==> KindOf(coinbases[i], admin) == Coinbase
    ensures DryRun(l, r, coinbases, admin).Some?
    decreases |coinbases|
  {
    if coinbases != [] {
      var tx := coinbases[0];
      assert Avail(l, r, tx.to).Some?;
      var r' := DryStep(l, r, tx, admin).value;
      forall a ensures Avail(l, r', a).Some? {
        assert Avail(l, r, a).Some?;
      }
      CoinbasesAccepted(l, r', coinbases[1..], admin);
    }
  }

  /**
   * For a sound ledger, any pool and any order of popping in which each conversion meets its
   * guard: the selection is not abandoned, and the selected transactions followed by any
   * coinbases pass the dry run on the same ledger.
   */
  lemma PendingBlockAccepted(l: Ledger, order: seq<Tx>, coinbases: seq<Tx>, admin: Address)
    requires Sound(l) && GuardsMet(l, NOTHING, order, admin)
    requires Supply(l) + MintedBy(SelectAll(l, NOTHING, order, admin).s.ready, admin) < TWO64
    requires forall i :: 0 <= i < |coinbases| ==> KindOf(coinbases[i], admin) == Coinbase
    ensures var out := SelectAll(l, NOTHING, order, admin);
            !out.abandoned && DryRun(l, NO_RESULTS, out.s.ready + coinbases, admin).Some?
  {
    var ready := SelectAll(l, NOTHING, order, admin).s.ready;
    StartTogether(l, admin);
    SelectionAccepted(l, NOTHING, NO_RESULTS, l, order, admin);
    var r := DryRun(l, NO_RESULTS, ready, admin).value;
    forall a ensures Avail(l, r, a).Some? {
      assert LowerAt(l, SelectAll(l, NOTHING, order, admin).s, r, a);
    }
    CoinbasesAccepted(l, r, coinbases, admin);
    DryRunConcat(l, NO_RESULTS, ready, coinbases, admin);
  }

  // -------------------------------------------- what a conversion does to a selection

  function ConvertingPck(a: Address, kto: u64): Tx {
    Tx(1, 0, a, "", 0, "", 0, CONVERT_PCK_TAG, NoOrder, kto, 0)
  }

  function Sending(a: Address, b: Address, amount: u64): Tx {
    Tx(2, amount, a, b, 0, "", 0, TRANSFER_TAG, NoOrder, 0, 0)
  }

  /** The ledger of an address `a` with ten coins and next nonce one. */
  function TenCoins(a: Address): Ledger {
    Ledger(1, map[a := 10], map[], map[], map[], map[], 0, 0, map[])
  }

  /**
   * A conversion subtracts from a zero entry, so the address then seems to hold nearly 2^64
   * coins: a transfer of a hundred coins it never had is selected, and the block refused.
   */
  lemma ConversionOversells(a: Address, b: Address, admin: Address)
    ensures var l, order := TenCoins(a), [ConvertingPck(a, 5), Sending(a, b, 100)];
            && Sound(l)
            && SelectAll(l, NOTHING, order, admin).s.ready == order
            && DryRun(l, NO_RESULTS, order, admin).None?
  {
    var l, t1, t2 := TenCoins(a), ConvertingPck(a, 5), Sending(a, b, 100);
    var order := [t1, t2];
    var m: map<Address, u64> := map[];
    SumUpdate(m, a, 10);
    assert Supply(l) == 10 && TotalsMatch(l);
    assert order[1..] == [t2] && [t2][1..] == [];
    KindMatchesClassifiers(t1, admin);
    KindMatchesClassifiers(t2, admin);
    var s1 := Select(l, NOTHING, t1, admin);
    assert s1.Some? && s1.value.avl == map[a := TWO64 - 5] && s1.value.nonces == map[a := 2];
    var s2 := Select(l, s1.value, t2, admin);
    assert s2.Some? && s2.value.ready == order;
    assert SelectAll(l, NOTHING, order, admin) == SelectAll(l, s1.value, [t2], admin) ==
         SelectAll(l, s2.value, [], admin);
    var r1 := DryStep(l, NO_RESULTS, t1, admin);
    assert r1.Some? && r1.value.avl == map[a := 5];
    assert DryRun(l, NO_RESULTS, order, admin) == DryRun(l, r1.value, [t2], admin);
  }

  // ------------------------------------------------------- the guards are necessary

  /** A selection is accepted if it is not abandoned and the dry run accepts it. */
  predicate Accepted(l: Ledger, s: Selection, order: seq<Tx>, admin: Address) {
    var out := SelectAll(l, s, order, admin);
    !out.abandoned && DryRun(l, NO_RESULTS, out.s.ready, admin).Some?
  }

  /** A transfer to someone else: it mints nothing. */
  predicate NextTransfer(t: Tx, admin: Address) {
    KindOf(t, admin) == Transfer && t.from != t.to
  }

  function Spending(tx: Tx, amount: u64): Tx {
    Tx(Add(tx.nonce, 1), amount, tx.from, tx.from + "x", 0, "", 0, TRANSFER_TAG, NoOrder, 0, 0)
  }

  /** After a conversion to pck that does not meet its guard, one coin more than there is can be spent. */
  lemma OverspentAfterPck(l: Ledger, s: Selection, r: Results, tx: Tx, s': Selection, admin: Address)
    returns (t: Tx, s'': Selection)
    requires Lower(l, s, r)
    requires KindOf(tx, admin) == ConvertPck && Select(l, s, tx, admin) == Some(s') && s'.ready == s.ready + [tx]
    requires !(tx.from in s.avl || tx.ktoNum == 0)
    ensures DryStep(l, r, tx, admin).Some? && NextTransfer(t, admin)
    ensures Select(l, s', t, admin) == Some(s'') && s''.ready == s'.ready + [t]
    ensures DryStep(l, DryStep(l, r, tx, admin).value, t, admin).None?
  {
    hide Select, DryStep;
    assert LowerAt(l, s, r, tx.from) && LowerAt(l, s, r, Account(tx, admin));
    var treatment := SelectTreats(l, s, tx, admin);
    ConvertPckLowerIff(l, s, r, tx, s', admin);
    DryConvertPckForm(l, r, tx, admin);
    var r' := DryStep(l, r, tx, admin).value;
    var left := Avail(l, r, tx.from).value - tx.ktoNum;
    t := Spending(tx, left + 1);
    s'' := ReadySpending(l, s', tx, left + 1, admin);
    TooDear(l, r', t, admin);
  }

  lemma ReadySpending(l: Ledger, s: Selection, tx: Tx, amount: u64, admin: Address) returns (s': Selection)
    requires tx.from in s.avl && amount <= s.avl[tx.from]
    requires tx.from in s.nonces && s.nonces[tx.from] == Add(tx.nonce, 1)
    ensures var t := Spending(tx, amount); Select(l, s, t, admin) == Some(s') && s'.ready == s.ready + [t]
  {
    hide SelectUnfreeze, SelectConversion;
    var t := Spending(tx, amount);
    KindMatchesClassifiers(t, admin);
    s' := Select(l, s, t, admin).value;
  }

  lemma TooDear(l: Ledger, r: Results, t: Tx, admin: Address)
    requires KindOf(t, admin) == Transfer && t.from in r.avl && r.avl[t.from] < t.amount
    ensures DryStep(l, r, t, admin).None?
  {
  }

  lemma RefusedPrefix(l: Ledger, txs: seq<Tx>, n: nat, admin: Address)
    requires n <= |txs| && DryRun(l, NO_RESULTS, txs[..n], admin).None?
    ensures DryRun(l, NO_RESULTS, txs, admin).None?
  {
    if DryRun(l, NO_RESULTS, txs, admin).Some? {
      DryRunPrefix(l, NO_RESULTS, txs, admin, n);
    }
  }

  /** A conversion that does not meet its guard, followed by some transfer, makes a block that is refused. */
  lemma GuardNeeded(l: Ledger, s: Selection, r: Results, w: Ledger, tx: Tx, admin: Address) returns (t: Tx)
    requires Together(l, s, r, w, admin) && Supply(w) < TWO64 && !MeetsGuard(l, s, tx, admin)
    ensures NextTransfer(t, admin) && !Accepted(l, s, [tx, t], admin)
  {
    hide Select, DryStep, DryRun, Supply, Sim, Lower;
    SelectProgress(l, s, tx, admin);
    var s' := Select(l, s, tx, admin).value;
    DryRunSnoc(l, s.ready, tx, admin);
    assert SelectAll(l, s, [tx], admin).s == s' by {
      assert [tx][1..] == [];
    }
    if KindOf(tx, admin) == ConvertPck {
      var s'';
      t, s'' := OverspentAfterPck(l, s, r, tx, s', admin);
      DryRunSnoc(l, s'.ready, t, admin);
      SelectTwo(l, s, s', s'', tx, t, admin);
    } else {
      t := Spending(tx, 0);
      ConvertKtoAcceptedIff(l, s, r, w, tx, s', admin);
      ReadyGrows(l, s', [t], admin);
      assert [tx, t][1..] == [t];
      RefusedPrefix(l, SelectAll(l, s, [tx, t], admin).s.ready, |s'.ready|, admin);
    }
  }

  lemma SelectTwo(l: Ledger, s: Selection, s': Selection, s'': Selection, tx: Tx, t: Tx, admin: Address)
    requires Select(l, s, tx, admin) == Some(s') && Select(l, s', t, admin) == Some(s'')
    ensures SelectAll(l, s, [tx, t], admin) == Outcome(s'', false)
  {
    hide Select;
    assert [tx, t][1..] == [t] && [t][1..] == [];
    assert SelectAll(l, s', [t], admin) == SelectAll(l, s'', [], admin);
  }

  lemma AcceptedStep(l: Ledger, s: Selection, s': Selection, order: seq<Tx>, k: nat, t: Tx, admin: Address)
    requires order != [] && k <= |order[1..]| && Select(l, s, order[0], admin) == Some(s')
    ensures Accepted(l, s, order[..k + 1] + [t], admin) <==> Accepted(l, s', order[1..][..k] + [t], admin)
  {
    hide Select, DryRun;
    assert (order[..k + 1] + [t])[1..] == order[1..][..k] + [t];
  }

  lemma {:induction false} SomeRefused(l: Ledger, s: Selection, r: Results, w: Ledger, order: seq<Tx>, admin: Address)
    returns (k: nat, t: Tx)
    requires Together(l, s, r, w, admin) && Affordable(l, s, w, order, admin) && Supply(w) < TWO64
    requires !GuardsMet(l, s, order, admin)
    ensures k <= |order| && NextTransfer(t, admin) && !Accepted(l, s, order[..k] + [t], admin)
    decreases |order|
  {
    hide Select, Lower, Sim, TotalsMatch, Supply, Affordable, MeetsGuard, DryRun, SelectAll, Accepted, NextTransfer;
    if MeetsGuard(l, s, order[0], admin) {
      var r', w' := StepTogether(l, s, r, w, order, admin);
      var s' := Select(l, s, order[0], admin).value;
      k, t := SomeRefused(l, s', r', w', order[1..], admin);
      AcceptedStep(l, s, s', order, k, t, admin);
      k := k + 1;
    } else {
      k := 1;
      t := GuardNeeded(l, s, r, w, order[0], admin);
      assert order[..1] + [t] == [order[0], t];
    }
  }

  lemma {:induction false} GuardsPrefix(l: Ledger, s: Selection, order: seq<Tx>, k: nat, t: Tx, admin: Address)
    requires k <= |order| && GuardsMet(l, s, order, admin) && NextTransfer(t, admin)
    ensures GuardsMet(l, s, order[..k] + [t], admin)
    decreases k
  {
    hide Select;
    if k == 0 {
      assert order[..0] + [t] == [t] && [t][1..] == [];
    } else {
      assert (order[..k] + [t])[1..] == order[1..][..k - 1] + [t];
      if Select(l, s, order[0], admin).Some? {
        GuardsPrefix(l, Select(l, s, order[0], admin).value, order[1..], k - 1, t, admin);
      }
    }
  }

  /** A prefix with one transfer more mints no more than the whole selection. */
  lemma {:induction false} PrefixMints(l: Ledger, s: Selection, order: seq<Tx>, k: nat, t: Tx, admin: Address)
    requires k <= |order| && NextTransfer(t, admin)
    ensures MintedBy(SelectAll(l, s, order[..k] + [t], admin).s.ready, admin)
         <= MintedBy(SelectAll(l, s, order, admin).s.ready, admin)
    decreases k
  {
    hide Select;
    if k == 0 {
      assert order[..0] + [t] == [t] && [t][1..] == [];
      ReadyGrows(l, s, order, admin);
      MintedPrefix(SelectAll(l, s, order, admin).s.ready, admin, |s.ready|);
      MintedSnoc(s.ready, t, admin);
      if Select(l, s, t, admin).Some? {
        SelectProgress(l, s, t, admin);
      }
    } else {
      assert (order[..k] + [t])[1..] == order[1..][..k - 1] + [t];
      if Select(l, s, order[0], admin).Some? {
        PrefixMints(l, Select(l, s, order[0], admin).value, order[1..], k - 1, t, admin);
      }
    }
  }

  /**
   * For a sound ledger and any order of popping: every beginning of it, followed by any one transfer, gives a
   * selection that is accepted if and only if each conversion meets its guard when it is popped.
   */
  lemma AcceptedIff(l: Ledger, order: seq<Tx>, admin: Address)
    requires Sound(l)
    requires Supply(l) + MintedBy(SelectAll(l, NOTHING, order, admin).s.ready, admin) < TWO64
    ensures (forall k, t :: 0 <= k <= |order| && NextTransfer(t, admin) ==>
              Accepted(l, NOTHING, order[..k] + [t], admin)) <==>
            GuardsMet(l, NOTHING, order, admin)
  {
    hide Select, SelectAll, Supply, Lower, NextTransfer, GuardsMet, DryRun;
    StartTogether(l, admin);
    if GuardsMet(l, NOTHING, order, admin) {
      forall k, t | 0 <= k <= |order| && NextTransfer(t, admin) ensures Accepted(l, NOTHING, order[..k] + [t], admin) {
        GuardsPrefix(l, NOTHING, order, k, t, admin);
        PrefixMints(l, NOTHING, order, k, t, admin);
        SelectionAccepted(l, NOTHING, NO_RESULTS, l, order[..k] + [t], admin);
      }
    } else {
      var k, t := SomeRefused(l, NOTHING, NO_RESULTS, l, order, admin);
    }
  }
}
