/** What becomes of each popped transaction: it is ready, or waits because its nonce is ahead, or is dropped. */
module PendingKeeps {
  import opened U64
  import opened Wrappers
  import opened Transactions
  import opened LedgerSpec
  import opened PendingSpec
  import opened PoolProofs

  // -------------------------------------------------------------------- one pop

  /** Whether what is left of the account of `tx` allows it, given its available, frozen and convertible amounts. */
  predicate Affords(tx: Tx, admin: Address, avl: u64, frz: u64, pd: PckDkto) {
    match KindOf(tx, admin)
    case Transfer => tx.amount + tx.fee <= avl
    case Freeze => tx.amount + tx.fee <= avl
    case Unfreeze => tx.amount <= frz
    case ConvertPck => tx.ktoNum <= avl && pd.pck + tx.pckNum < TWO64 && pd.dkto + tx.ktoNum < TWO64
    case ConvertKto => tx.pckNum <= pd.pck && pd.dkto + tx.ktoNum < TWO64 && avl + tx.ktoNum < TWO64
    case _ => false
  }

  /** A nonce that is ahead by less than the limit, or, of an unfreeze, by more. */
  predicate Ahead(tx: Tx, nonce: u64, admin: Address) {
    nonce < tx.nonce && if KindOf(tx, admin) == Unfreeze then Add(nonce, 200) < tx.nonce else tx.nonce < Add(nonce, 200)
  }

  lemma UnfreezeDecides(s: Selection, tx: Tx, avl: u64, frz: u64, nonce: u64, admin: Address, pd: PckDkto)
    requires KindOf(tx, admin) == Unfreeze
    ensures var s' := SelectUnfreeze(s, tx, avl, frz, nonce);
            && s'.ready == s.ready + (if tx.nonce == nonce && Affords(tx, admin, avl, frz, pd) then [tx] else [])
            && s'.waiting == s.waiting + (if Ahead(tx, nonce, admin) then [tx] else [])
  {
    assert s.ready + [] == s.ready && s.waiting + [] == s.waiting;
  }

  lemma OtherDecides(s: Selection, tx: Tx, avl: u64, frz: u64, pd: PckDkto, nonce: u64, admin: Address)
    requires KindOf(tx, admin) != Unfreeze
    ensures var s' := SelectOther(s, tx, avl, frz, pd, nonce, admin);
            && s'.ready == s.ready + (if tx.nonce == nonce && Affords(tx, admin, avl, frz, pd) then [tx] else [])
            && s'.waiting == s.waiting + (if Ahead(tx, nonce, admin) then [tx] else [])
  {
    hide Account;
    assert s.ready + [] == s.ready && s.waiting + [] == s.waiting;
  }

  /** Exactly which popped transactions are made ready, and which wait; all others are dropped. */
  lemma SelectDecides(l: Ledger, s: Selection, tx: Tx, admin: Address)
    requires Select(l, s, tx, admin).Some?
    ensures var a, nonce, s' := Account(tx, admin), SelNonce(l, s, tx.from), Select(l, s, tx, admin).value;
            && SelAvail(l, s, a).Some?
            && s'.ready == s.ready
               + (if && tx.nonce == nonce
                     && Affords(tx, admin, SelAvail(l, s, a).value, SelFrozen(l, s, a), SelConvertible(l, s, a))
                  then [tx] else [])
            && s'.waiting == s.waiting + (if Ahead(tx, nonce, admin) then [tx] else [])
  {
    var a := Account(tx, admin);
    var avl, frz, pd, nonce := SelAvail(l, s, a), SelFrozen(l, s, a), SelConvertible(l, s, a), SelNonce(l, s, tx.from);
    hide SelectUnfreeze, SelectOther, Affords, Ahead;
    if KindOf(tx, admin) == Unfreeze {
      UnfreezeDecides(s, tx, avl.value, frz, nonce, admin, pd);
    } else {
      OtherDecides(s, tx, avl.value, frz, pd, nonce, admin);
    }
  }

  /** No address has more frozen than it holds. */
  ghost predicate NoneOverdrawn(l: Ledger) {
    forall a :: At(l.frz, a) <= At(l.bal, a)
  }

  lemma NeverAbandoned(l: Ledger, s: Selection, tx: Tx, admin: Address)
    requires NoneOverdrawn(l)
    ensures Select(l, s, tx, admin).Some?
  {
    hide SelectUnfreeze, SelectOther;
    var a := Account(tx, admin);
    assert At(l.frz, a) <= At(l.bal, a);
  }

  // ------------------------------------------------------------- a whole selection

  /** The next nonce of `a` once the transactions `ready` have been made ready. */
  function RunningNonce(l: Ledger, ready: seq<Tx>, a: Address): u64 {
    NonceAfter(ChainNonce(l, a), |NoncesOf(ready, a)|)
  }

  /** `at[i]` is how many were ready when `order[i]` was popped; each that became ready is the popped one. */
  ghost predicate Pacing(order: seq<Tx>, ready: seq<Tx>, at: seq<nat>) {
    && |at| == |order| + 1 && at[0] == 0 && at[|order|] == |ready|
    && (forall i :: 0 <= i <= |order| ==> at[i] <= |ready|)
    && (forall i :: 0 <= i < |order| ==>
          at[i + 1] == at[i] || (at[i + 1] == at[i] + 1 && at[i] < |ready| && ready[at[i]] == order[i]))
  }

  /** The popped transactions whose nonces were ahead of their senders' running nonces, in order. */
  function KeptBack(l: Ledger, order: seq<Tx>, ready: seq<Tx>, at: seq<nat>, admin: Address): seq<Tx>
    requires |at| >= |order| && forall i :: 0 <= i < |order| ==> at[i] <= |ready|
    decreases |order|
  {
    if order == [] then []
    else
      var n := |order| - 1;
      var tx := order[n];
      KeptBack(l, order[..n], ready, at, admin)
      + (if Ahead(tx, RunningNonce(l, ready[..at[n]], tx.from), admin) then [tx] else [])
  }

  /** The waiting ones are exactly those kept back. */
  ghost predicate Paced(l: Ledger, s: Selection, order: seq<Tx>, at: seq<nat>, admin: Address) {
    Pacing(order, s.ready, at) && s.waiting == KeptBack(l, order, s.ready, at, admin)
  }

  /** What is popped later does not matter. */
  lemma {:induction false} KeptBackGrows(l: Ledger, order: seq<Tx>, ready: seq<Tx>, at: seq<nat>, more: seq<Tx>,
          later: seq<nat>, admin: Address)
    requires |at| >= |order| && forall i :: 0 <= i < |order| ==> at[i] <= |ready|
    ensures KeptBack(l, order, ready + more, at + later, admin) == KeptBack(l, order, ready, at, admin)
    decreases |order|
  {
    if order != [] {
      var n := |order| - 1;
      KeptBackGrows(l, order[..n], ready, at, more, later, admin);
      assert (ready + more)[..at[n]] == ready[..at[n]];
    }
  }

  lemma {:induction false} KeptBackHas(l: Ledger, order: seq<Tx>, ready: seq<Tx>, at: seq<nat>, admin: Address, i: nat)
    requires |at| >= |order| && forall k :: 0 <= k < |order| ==> at[k] <= |ready|
    requires i < |order| && Ahead(order[i], RunningNonce(l, ready[..at[i]], order[i].from), admin)
    ensures order[i] in KeptBack(l, order, ready, at, admin)
    decreases |order|
  {
    hide Ahead, RunningNonce;
    if i < |order| - 1 {
      KeptBackHas(l, order[..|order| - 1], ready, at, admin, i);
    }
  }

  lemma PacingGrows(order: seq<Tx>, ready: seq<Tx>, at: seq<nat>, tx: Tx, more: seq<Tx>)
    requires Pacing(order, ready, at) && (more == [] || more == [tx])
    ensures Pacing(order + [tx], ready + more, at + [|ready + more|])
  {
  }

  lemma KeptBackSnoc(l: Ledger, order: seq<Tx>, ready: seq<Tx>, at: seq<nat>, tx: Tx, more: seq<Tx>, admin: Address)
    requires Pacing(order, ready, at)
    ensures Pacing(order + [tx], ready + more, at + [|ready + more|]) ==>
              KeptBack(l, order + [tx], ready + more, at + [|ready + more|], admin) ==
              KeptBack(l, order, ready, at, admin)
              + (if Ahead(tx, RunningNonce(l, ready, tx.from), admin) then [tx] else [])
  {
    hide Ahead, RunningNonce;
    KeptBackGrows(l, order, ready, at, more, [|ready + more|], admin);
    assert (order + [tx])[..|order|] == order && (ready + more)[..|ready|] == ready;
  }

  /** One more pop: the waiting ones stay exactly those kept back. */
  lemma PopKeepsBack(l: Ledger, s: Selection, order: seq<Tx>, at: seq<nat>, tx: Tx, admin: Address)
    requires Paced(l, s, order, at, admin) && SelectAll(l, NOTHING, order, admin).s == s
    requires Select(l, s, tx, admin).Some?
    ensures var s' := Select(l, s, tx, admin).value; Paced(l, s', order + [tx], at + [|s'.ready|], admin)
  {
    hide Select, Affords, Ahead, RunningNonce, SelNonce, SelAvail, SelFrozen, SelConvertible, Account, Pacing, KeptBack;
    RunningIs(l, order, admin, tx.from);
    SelectDecides(l, s, tx, admin);
    var s' := Select(l, s, tx, admin).value;
    var more := s'.ready[|s.ready|..];
    assert s'.ready == s.ready + more;
    PacingGrows(order, s.ready, at, tx, more);
    KeptBackSnoc(l, order, s.ready, at, tx, more, admin);
  }

  lemma StartPaced(l: Ledger, admin: Address)
    ensures Paced(l, NOTHING, [], [0], admin)
  {
  }

  /** A pop that ends the selection. */
  lemma LastPopped(l: Ledger, s: Selection, order: seq<Tx>, at: seq<nat>, tx: Tx, admin: Address)
    requires Paced(l, s, order, at, admin)
    ensures Pacing(order + [tx], s.ready, at + [|s.ready|])
  {
  }

  /** What a selection says of the pool that is left. */
  lemma PacedPool(l: Ledger, s: Selection, order: seq<Tx>, at: seq<nat>, admin: Address, rest: seq<Tx>, pool: seq<Tx>)
    requires Paced(l, s, order, at, admin) && multiset(order) + multiset(rest) == multiset(pool)
    ensures Pacing(order, s.ready, at)
    ensures multiset(rest + s.waiting) + multiset(order) ==
              multiset(pool) + multiset(KeptBack(l, order, s.ready, at, admin))
    ensures rest == [] ==> rest + s.waiting == KeptBack(l, order, s.ready, at, admin)
    ensures forall i :: 0 <= i < |order| && Ahead(order[i], RunningNonce(l, s.ready[..at[i]], order[i].from), admin) ==>
              order[i] in rest + s.waiting
  {
    hide Ahead, RunningNonce;
    forall i | 0 <= i < |order| && Ahead(order[i], RunningNonce(l, s.ready[..at[i]], order[i].from), admin)
      ensures order[i] in rest + s.waiting
    {
      KeptBackHas(l, order, s.ready, at, admin, i);
    }
  }

  lemma RunningIs(l: Ledger, order: seq<Tx>, admin: Address, a: Address)
    ensures var s := SelectAll(l, NOTHING, order, admin).s; SelNonce(l, s, a) == RunningNonce(l, s.ready, a)
  {
    SelectAllNonces(l, NOTHING, order, admin, a);
  }

  // ------------------------------------------------------------ chains of transfers

  /** Transfers of `a` with nonces that count up from `first`. */
  predicate TransferChain(txs: seq<Tx>, admin: Address, a: Address, first: nat) {
    && first + |txs| < TWO64
    && forall i :: 0 <= i < |txs| ==> KindOf(txs[i], admin) == Transfer && txs[i].from == a && txs[i].nonce == first + i
  }

  function Cost(txs: seq<Tx>): nat {
    if txs == [] then 0 else txs[0].amount + txs[0].fee + Cost(txs[1..])
  }

  lemma TransferSelected(l: Ledger, s: Selection, tx: Tx, admin: Address)
    requires KindOf(tx, admin) == Transfer && SelAvail(l, s, tx.from).Some?
    requires tx.nonce == SelNonce(l, s, tx.from) && tx.amount + tx.fee <= SelAvail(l, s, tx.from).value
    ensures Select(l, s, tx, admin).Some?
    ensures var s' := Select(l, s, tx, admin).value;
            && s'.ready == s.ready + [tx] && s'.waiting == s.waiting && SelNonce(l, s', tx.from) == Add(tx.nonce, 1)
            && SelAvail(l, s', tx.from) == Some(SelAvail(l, s, tx.from).value - tx.amount - tx.fee)
  {
    KindMatchesClassifiers(tx, admin);
  }

  /** Transfers whose nonces follow on, and that are covered together, are made ready in order. */
  lemma {:induction false} ChainSelected(l: Ledger, s: Selection, txs: seq<Tx>, a: Address, admin: Address)
    requires TransferChain(txs, admin, a, SelNonce(l, s, a))
    requires SelAvail(l, s, a).Some? && Cost(txs) <= SelAvail(l, s, a).value
    ensures var out := SelectAll(l, s, txs, admin);
            !out.abandoned && out.s.ready == s.ready + txs && out.s.waiting == s.waiting
    decreases |txs|
  {
    hide Select, SelNonce, SelAvail;
    if txs == [] {
      assert s.ready + [] == s.ready;
    } else {
      TransferSelected(l, s, txs[0], admin);
      var s' := Select(l, s, txs[0], admin).value;
      assert forall i :: 0 <= i < |txs[1..]| ==> txs[1..][i] == txs[i + 1];
      ChainSelected(l, s', txs[1..], a, admin);
      assert s.ready + [txs[0]] + txs[1..] == s.ready + txs;
    }
  }

  /** Transfers whose nonces are ahead wait, and change nothing. */
  lemma {:induction false} AllWait(l: Ledger, s: Selection, txs: seq<Tx>, a: Address, admin: Address)
    requires SelAvail(l, s, a).Some?
    requires forall i :: 0 <= i < |txs| ==>
               && KindOf(txs[i], admin) == Transfer && txs[i].from == a
               && SelNonce(l, s, a) < txs[i].nonce < SelNonce(l, s, a) + 200 < TWO64
    ensures SelectAll(l, s, txs, admin) == Outcome(s.(waiting := s.waiting + txs), false)
    decreases |txs|
  {
    hide SelNonce, SelAvail;
    if txs == [] {
      assert s.waiting + [] == s.waiting;
    } else {
      WaitsAlone(l, s, txs[0], admin);
      var s' := s.(waiting := s.waiting + [txs[0]]);
      WaitingAside(l, s, s.waiting + [txs[0]], a);
      AllWait(l, s', txs[1..], a, admin);
      assert s.waiting + [txs[0]] + txs[1..] == s.waiting + txs;
    }
  }

  lemma WaitsAlone(l: Ledger, s: Selection, tx: Tx, admin: Address)
    requires KindOf(tx, admin) == Transfer && SelAvail(l, s, tx.from).Some?
    requires SelNonce(l, s, tx.from) < tx.nonce < SelNonce(l, s, tx.from) + 200 < TWO64
    ensures Select(l, s, tx, admin) == Some(s.(waiting := s.waiting + [tx]))
  {
    KindMatchesClassifiers(tx, admin);
  }

  lemma WaitingAside(l: Ledger, s: Selection, waiting: seq<Tx>, a: Address)
    ensures SelNonce(l, s.(waiting := waiting), a) == SelNonce(l, s, a)
    ensures SelAvail(l, s.(waiting := waiting), a) == SelAvail(l, s, a)
  {
  }

  /** Popped from a chain behind its first: transfers with nonces ahead. */
  lemma TailAhead(txs: seq<Tx>, popped: seq<Tx>, a: Address, first: nat, admin: Address)
    requires txs != [] && |txs| <= 200 && TransferChain(txs, admin, a, first) && multiset(popped) == multiset(txs[1..])
    ensures forall i :: 0 <= i < |popped| ==>
              KindOf(popped[i], admin) == Transfer && popped[i].from == a && first < popped[i].nonce < first + 200
  {
    forall i | 0 <= i < |popped|
      ensures KindOf(popped[i], admin) == Transfer && popped[i].from == a && first < popped[i].nonce < first + 200
    {
      assert popped[i] in multiset(popped);
      assert popped[i] in txs[1..];
      var k :| 0 <= k < |txs[1..]| && txs[1..][k] == popped[i];
      assert popped[i] == txs[k + 1];
    }
  }

  lemma StartAmounts(l: Ledger, a: Address)
    ensures SelNonce(l, NOTHING, a) == ChainNonce(l, a)
    ensures At(l.frz, a) <= At(l.bal, a) ==> SelAvail(l, NOTHING, a) == Some(At(l.bal, a) - At(l.frz, a))
  {
  }

  /**
   * While the first of a chain of covered transfers is missing, the others wait, in whatever order they are popped;
   * once it has arrived, popping them in order makes all of them ready.
   */
  lemma MissingNonceArrives(l: Ledger, txs: seq<Tx>, popped: seq<Tx>, a: Address, admin: Address)
    requires txs != [] && |txs| <= 200 && TransferChain(txs, admin, a, ChainNonce(l, a))
    requires ChainNonce(l, a) + 200 < TWO64 && Cost(txs) + At(l.frz, a) <= At(l.bal, a)
    requires multiset(popped) == multiset(txs[1..])
    ensures SelectAll(l, NOTHING, popped, admin) == Outcome(NOTHING.(waiting := popped), false)
    ensures SelectAll(l, NOTHING, txs, admin).s.ready == txs && !SelectAll(l, NOTHING, txs, admin).abandoned
  {
    hide SelectAll, SelNonce, SelAvail, ChainNonce, TransferChain, Cost;
    StartAmounts(l, a);
    ChainSelected(l, NOTHING, txs, a, admin);
    assert NOTHING.ready + txs == txs && NOTHING.waiting + popped == popped;
    TailAhead(txs, popped, a, ChainNonce(l, a), admin);
    AllWait(l, NOTHING, popped, a, admin);
  }

  lemma PartOfRest(txs: seq<Tx>, popped: seq<Tx>)
    requires popped != [] && multiset(popped) <= multiset(txs)
    ensures multiset(popped) == multiset{popped[0]} + multiset(popped[1..]) && multiset(popped[1..]) <= multiset(txs)
    ensures popped[0] in txs
    ensures txs != [] && popped[0] == txs[0] ==> multiset(popped[1..]) <= multiset(txs[1..])
    ensures txs != [] && popped[0] != txs[0] && txs[0] in popped ==> txs[0] in popped[1..]
  {
    assert popped == [popped[0]] + popped[1..];
    assert popped[0] in multiset(popped);
    if txs != [] {
      assert txs == [txs[0]] + txs[1..];
    }
  }

  /** The first `k` of `txs` have become ready, in order, and of the others that were popped all wait. */
  ghost predicate Begun(s: Selection, out: Outcome, txs: seq<Tx>, popped: seq<Tx>, k: nat) {
    && k <= |txs| && !out.abandoned && out.s.ready == s.ready + txs[..k]
    && multiset(out.s.waiting) + multiset(txs[..k]) == multiset(s.waiting) + multiset(popped)
  }

  lemma BegunNext(s: Selection, s': Selection, out: Outcome, txs: seq<Tx>, popped: seq<Tx>, k: nat)
    requires txs != [] && popped != [] && popped[0] == txs[0] && Begun(s', out, txs[1..], popped[1..], k)
    requires s'.ready == s.ready + [txs[0]] && s'.waiting == s.waiting
    ensures Begun(s, out, txs, popped, k + 1)
  {
    assert txs[..k + 1] == [txs[0]] + txs[1..][..k];
    assert s.ready + [txs[0]] + txs[1..][..k] == s.ready + txs[..k + 1];
    assert popped == [popped[0]] + popped[1..];
    assert multiset(txs[..k + 1]) == multiset{txs[0]} + multiset(txs[1..][..k]);
    assert multiset(popped) == multiset{popped[0]} + multiset(popped[1..]);
    AddBoth(multiset(out.s.waiting), multiset(txs[1..][..k]), multiset(s.waiting), multiset(popped[1..]), txs[0]);
  }

  lemma AddBoth(a: multiset<Tx>, b: multiset<Tx>, c: multiset<Tx>, d: multiset<Tx>, x: Tx)
    requires a + b == c + d
    ensures a + (multiset{x} + b) == c + (multiset{x} + d)
  {
    assert a + (multiset{x} + b) == multiset{x} + (a + b);
  }

  lemma BegunWaits(s: Selection, out: Outcome, txs: seq<Tx>, popped: seq<Tx>, k: nat)
    requires popped != []
    requires Begun(s.(waiting := s.waiting + [popped[0]]), out, txs, popped[1..], k)
    ensures Begun(s, out, txs, popped, k)
  {
    assert popped == [popped[0]] + popped[1..];
    assert multiset(s.waiting + [popped[0]]) + multiset(popped[1..]) == multiset(s.waiting) + multiset(popped);
  }

  lemma SelectFirst(l: Ledger, s: Selection, popped: seq<Tx>, admin: Address)
    requires popped != [] && Select(l, s, popped[0], admin).Some?
    ensures SelectAll(l, s, popped, admin) == SelectAll(l, Select(l, s, popped[0], admin).value, popped[1..], admin)
  {
  }

  lemma ChainAt(txs: seq<Tx>, j: nat, a: Address, first: nat, admin: Address)
    requires TransferChain(txs, admin, a, first) && j < |txs|
    ensures first + |txs| < TWO64
    ensures KindOf(txs[j], admin) == Transfer && txs[j].from == a && txs[j].nonce == first + j
    ensures TransferChain(txs[1..], admin, a, first + 1)
    ensures txs[0].amount + txs[0].fee + Cost(txs[1..]) == Cost(txs)
  {
  }

  /**
   * Of a covered chain popped in any order, a beginning is made ready, and all others that were popped wait; if the
   * first was popped, it is ready.
   */
  lemma {:induction false} AnyOrderSelected(l: Ledger, s: Selection, txs: seq<Tx>, popped: seq<Tx>, a: Address,
          admin: Address) returns (k: nat)
    requires TransferChain(txs, admin, a, SelNonce(l, s, a))
    requires |txs| <= 200 && SelNonce(l, s, a) + |txs| + 200 < TWO64
    requires SelAvail(l, s, a).Some? && Cost(txs) <= SelAvail(l, s, a).value
    requires multiset(popped) <= multiset(txs)
    ensures Begun(s, SelectAll(l, s, popped, admin), txs, popped, k)
    ensures txs != [] && txs[0] in popped ==> k > 0
    decreases |popped|
  {
    hide Select, SelNonce, SelAvail, TransferChain, Cost;
    if popped == [] {
      k := 0;
      assert s.ready + txs[..0] == s.ready;
    } else {
      hide SelectAll, Begun;
      var tx := popped[0];
      PartOfRest(txs, popped);
      var j :| 0 <= j < |txs| && txs[j] == tx;
      ChainAt(txs, j, a, SelNonce(l, s, a), admin);
      if j == 0 {
        TransferSelected(l, s, tx, admin);
        SelectFirst(l, s, popped, admin);
        var s' := Select(l, s, tx, admin).value;
        var rest := AnyOrderSelected(l, s', txs[1..], popped[1..], a, admin);
        BegunNext(s, s', SelectAll(l, s, popped, admin), txs, popped, rest);
        k := rest + 1;
      } else {
        ChainAt(txs, 0, a, SelNonce(l, s, a), admin);
        WaitsAlone(l, s, tx, admin);
        SelectFirst(l, s, popped, admin);
        WaitingAside(l, s, s.waiting + [tx], a);
        k := AnyOrderSelected(l, s.(waiting := s.waiting + [tx]), txs, popped[1..], a, admin);
        BegunWaits(s, SelectAll(l, s, popped, admin), txs, popped, k);
      }
    }
  }

  /** So once the missing nonce has arrived, some beginning of the chain is made ready, and nothing of it is lost. */
  lemma ChainProgress(l: Ledger, txs: seq<Tx>, popped: seq<Tx>, a: Address, admin: Address) returns (k: nat)
    requires txs != [] && |txs| <= 200 && TransferChain(txs, admin, a, ChainNonce(l, a))
    requires ChainNonce(l, a) + |txs| + 200 < TWO64 && Cost(txs) + At(l.frz, a) <= At(l.bal, a)
    requires multiset(popped) == multiset(txs)
    ensures 1 <= k <= |txs| && !SelectAll(l, NOTHING, popped, admin).abandoned
    ensures SelectAll(l, NOTHING, popped, admin).s.ready == txs[..k]
    ensures multiset(SelectAll(l, NOTHING, popped, admin).s.waiting) == multiset(txs[k..])
  {
    hide SelectAll, SelNonce, SelAvail, ChainNonce, TransferChain, Cost;
    StartAmounts(l, a);
    PartOfRest(popped, txs);
    k := AnyOrderSelected(l, NOTHING, txs, popped, a, admin);
    var out := SelectAll(l, NOTHING, popped, admin);
    LeftWaiting(out.s.waiting, txs, k);
    assert NOTHING.ready + txs[..k] == txs[..k];
  }

  lemma LeftWaiting(waiting: seq<Tx>, txs: seq<Tx>, k: nat)
    requires k <= |txs| && multiset(waiting) + multiset(txs[..k]) == multiset(txs)
    ensures multiset(waiting) == multiset(txs[k..])
  {
    assert txs == txs[..k] + txs[k..];
    assert multiset(waiting) == multiset(txs) - multiset(txs[..k]);
  }
}
