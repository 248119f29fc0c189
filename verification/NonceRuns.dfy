/** Nonces over runs of blocks: those of each sender count up without a gap, and none commits twice. */
module NonceRuns {
  import opened U64
  import opened Wrappers
  import opened Transactions
  import opened LedgerSpec
  import opened LedgerRuns
  import opened PendingSpec
  import opened PoolProofs
  import opened ChainRuns

  predicate NoCoinbases(txs: seq<Tx>, admin: Address) {
    forall i :: 0 <= i < |txs| ==> KindOf(txs[i], admin) != Coinbase
  }

  predicate OnlyCoinbases(txs: seq<Tx>, admin: Address) {
    forall i :: 0 <= i < |txs| ==> KindOf(txs[i], admin) == Coinbase
  }

  // -------------------------------------------------------------- what a block stores

  lemma {:induction false} CommitRunConcat(frozenBefore: map<Address, u64>, w: Ledger, xs: seq<Tx>, ys: seq<Tx>,
          miner: Address, admin: Address, run: Runner)
    ensures var s := CommitRun(frozenBefore, w, xs, miner, admin, run);
            CommitRun(frozenBefore, w, xs + ys, miner, admin, run) ==
              if s.Failure? then s else CommitRun(frozenBefore, s.value, ys, miner, admin, run)
    decreases |xs|
  {
    hide CommitStep;
    if xs == [] {
      assert xs + ys == ys;
    } else {
      assert (xs + ys)[1..] == xs[1..] + ys;
      var s := CommitStep(frozenBefore, w, xs[0], miner, admin, run);
      if s.Success? {
        CommitRunConcat(frozenBefore, s.value, xs[1..], ys, miner, admin, run);
      }
    }
  }

  /** A transaction that is no coinbase stores its sender's next nonce and no other. */
  lemma StepStoresNonce(frozenBefore: map<Address, u64>, w: Ledger, tx: Tx, miner: Address, admin: Address, run: Runner)
    requires CommitStep(frozenBefore, w, tx, miner, admin, run).Success?
    ensures var w' := CommitStep(frozenBefore, w, tx, miner, admin, run).value;
            forall a :: ChainNonce(w', a) ==
              if a == tx.from && KindOf(tx, admin) != Coinbase then Add(tx.nonce, 1) else ChainNonce(w, a)
  {
  }

  lemma {:induction false} CoinbasesStoreNone(frozenBefore: map<Address, u64>, w: Ledger, txs: seq<Tx>, miner: Address,
          admin: Address, run: Runner, a: Address)
    requires OnlyCoinbases(txs, admin) && CommitRun(frozenBefore, w, txs, miner, admin, run).Success?
    ensures ChainNonce(CommitRun(frozenBefore, w, txs, miner, admin, run).value, a) == ChainNonce(w, a)
    decreases |txs|
  {
    hide CommitStep, ChainNonce;
    if txs != [] {
      StepStoresNonce(frozenBefore, w, txs[0], miner, admin, run);
      var w' := CommitStep(frozenBefore, w, txs[0], miner, admin, run).value;
      CoinbasesStoreNone(frozenBefore, w', txs[1..], miner, admin, run, a);
    }
  }

  /** After transactions without coinbases, each sender's stored nonce is the one behind its last. */
  lemma {:induction false} RunStoresNonce(frozenBefore: map<Address, u64>, w: Ledger, txs: seq<Tx>, miner: Address,
          admin: Address, run: Runner, a: Address)
    requires NoCoinbases(txs, admin) && CommitRun(frozenBefore, w, txs, miner, admin, run).Success?
    ensures var ns := NoncesOf(txs, a);
            ChainNonce(CommitRun(frozenBefore, w, txs, miner, admin, run).value, a) ==
              if ns == [] then ChainNonce(w, a) else Add(ns[|ns| - 1], 1)
    decreases |txs|
  {
    hide CommitStep, ChainNonce;
    if txs != [] {
      var before, last := txs[..|txs| - 1], txs[|txs| - 1];
      assert txs == before + [last] && [last][1..] == [];
      CommitRunConcat(frozenBefore, w, before, [last], miner, admin, run);
      var s := CommitRun(frozenBefore, w, before, miner, admin, run);
      assert s.Success?;
      RunStoresNonce(frozenBefore, w, before, miner, admin, run, a);
      assert CommitRun(frozenBefore, s.value, [last], miner, admin, run)
          == CommitStep(frozenBefore, s.value, last, miner, admin, run) by {
        OneStep(frozenBefore, s.value, last, miner, admin, run);
      }
      StepStoresNonce(frozenBefore, s.value, last, miner, admin, run);
    }
  }

  lemma OneStep(frozenBefore: map<Address, u64>, w: Ledger, tx: Tx, miner: Address, admin: Address, run: Runner)
    ensures CommitRun(frozenBefore, w, [tx], miner, admin, run) == CommitStep(frozenBefore, w, tx, miner, admin, run)
  {
    hide CommitStep;
    assert [tx][1..] == [];
    var s := CommitStep(frozenBefore, w, tx, miner, admin, run);
    if s.Success? {
      assert CommitRun(frozenBefore, s.value, [], miner, admin, run) == s;
    }
  }

  // ------------------------------------------------------------------ built blocks

  lemma {:induction false} SelectedKinds(l: Ledger, s: Selection, order: seq<Tx>, admin: Address)
    requires NoCoinbases(s.ready, admin)
    ensures NoCoinbases(SelectAll(l, s, order, admin).s.ready, admin)
    decreases |order|
  {
    hide Select;
    if order != [] {
      var next := Select(l, s, order[0], admin);
      if next.Some? {
        SelectKinds(l, s, order[0], admin);
        SelectedKinds(l, next.value, order[1..], admin);
      }
    }
  }

  /** A built block that commits moves the next nonce of each sender by the number of its ready transactions. */
  lemma BuiltStoresNonces(l: Ledger, t: Turn, admin: Address, run: Runner, a: Address)
    requires OnlyCoinbases(t.coinbases, admin)
    requires CommitBlock(l, Built(l, t, admin), t.miner, admin, run).Success?
    ensures ChainNonce(CommitBlock(l, Built(l, t, admin), t.miner, admin, run).value, a)
         == NonceAfter(ChainNonce(l, a), |NoncesOf(Selected(l, t, admin), a)|)
  {
    hide CommitRun, NoncesOf;
    var ready, b := Selected(l, t, admin), Built(l, t, admin);
    SelectedKinds(l, NOTHING, t.order, admin);
    ReadyNoncesConsecutive(l, t.order, admin, a);
    CommitRunConcat(l.frz, l, ready, t.coinbases, t.miner, admin, run);
    var w := CommitRun(l.frz, l, ready, t.miner, admin, run).value;
    RunStoresNonce(l.frz, l, ready, t.miner, admin, run, a);
    CoinbasesStoreNone(l.frz, w, t.coinbases, t.miner, admin, run, a);
    HeightKeepsNonce(CommitRun(l.frz, l, b.txs, t.miner, admin, run).value, b.height, a);
  }

  lemma HeightKeepsNonce(w: Ledger, height: u64, a: Address)
    ensures ChainNonce(w.(height := height), a) == ChainNonce(w, a)
  {
  }

  // -------------------------------------------------------------------------- runs

  predicate Commits(l: Ledger, t: Turn, admin: Address, run: Runner) {
    CommitBlock(l, Built(l, t, admin), t.miner, admin, run).Success?
  }

  /** The nonces of `a` in the blocks that the first `i` turns committed, in order. */
  function CommittedNonces(ls: seq<Ledger>, ts: seq<Turn>, admin: Address, run: Runner, a: Address, i: nat): seq<u64>
    requires i <= |ts| < |ls|
  {
    if i == 0 then []
    else
      CommittedNonces(ls, ts, admin, run, a, i - 1)
      + (if Commits(ls[i - 1], ts[i - 1], admin, run) then NoncesOf(Selected(ls[i - 1], ts[i - 1], admin), a) else [])
  }

  /** Any leaders' turns, in any order of popping, with coinbases behind what was selected. */
  ghost predicate Turns(ls: seq<Ledger>, ts: seq<Turn>, admin: Address, run: Runner) {
    && |ls| == |ts| + 1
    && (forall k :: 0 <= k < |ts| ==> OnlyCoinbases(ts[k].coinbases, admin))
    && (forall k :: 0 <= k < |ts| ==> TurnTaken(ls[k], ts[k], ls[k + 1], admin, run))
  }

  lemma {:induction false} NonceAfterAfter(first: u64, j: nat, k: nat)
    ensures NonceAfter(NonceAfter(first, j), k) == NonceAfter(first, j + k)
    decreases k
  {
    if k > 0 {
      NonceAfterAfter(first, j, k - 1);
    }
  }

  lemma ConsecutiveJoin(p: seq<u64>, q: seq<u64>, first: u64)
    requires Consecutive(p, first) && Consecutive(q, NonceAfter(first, |p|))
    ensures Consecutive(p + q, first)
  {
    forall k | 0 <= k < |p + q| ensures (p + q)[k] == NonceAfter(first, k) {
      if k >= |p| {
        NonceAfterAfter(first, |p|, k - |p|);
      }
    }
  }

  /** Over every run, the committed nonces of each sender count up by one from its first, and the next follows them. */
  lemma {:induction false} CommittedConsecutive(ls: seq<Ledger>, ts: seq<Turn>, admin: Address, run: Runner, a: Address,
          i: nat)
    requires Turns(ls, ts, admin, run) && i <= |ts|
    ensures Consecutive(CommittedNonces(ls, ts, admin, run, a, i), ChainNonce(ls[0], a))
    ensures ChainNonce(ls[i], a) == NonceAfter(ChainNonce(ls[0], a), |CommittedNonces(ls, ts, admin, run, a, i)|)
  {
    hide CommitBlock, Selected, NoncesOf, ChainNonce, Built;
    if i > 0 {
      CommittedConsecutive(ls, ts, admin, run, a, i - 1);
      var l, t, first := ls[i - 1], ts[i - 1], ChainNonce(ls[0], a);
      var before := CommittedNonces(ls, ts, admin, run, a, i - 1);
      assert TurnTaken(l, t, ls[i - 1 + 1], admin, run);
      if Commits(l, t, admin, run) {
        BuiltStoresNonces(l, t, admin, run, a);
        SelectedConsecutive(l, t, admin, a);
        ConsecutiveJoin(before, NoncesOf(Selected(l, t, admin), a), first);
        NonceAfterAfter(first, |before|, |NoncesOf(Selected(l, t, admin), a)|);
      } else {
        TokensKeepNonce(l, ls[i].tokens, a);
        assert before + [] == before;
      }
    }
  }

  lemma SelectedConsecutive(l: Ledger, t: Turn, admin: Address, a: Address)
    ensures Consecutive(NoncesOf(Selected(l, t, admin), a), ChainNonce(l, a))
  {
    ReadyNoncesConsecutive(l, t.order, admin, a);
  }

  lemma TokensKeepNonce(l: Ledger, tokens: TokenDb, a: Address)
    ensures ChainNonce(l.(tokens := tokens), a) == ChainNonce(l, a)
  {
  }

  /** Fewer than 2^64 nonces that count up by one are all different. */
  lemma ConsecutiveDistinct(ns: seq<u64>, first: u64, j: nat, k: nat)
    requires Consecutive(ns, first) && j < k < |ns| <= TWO64
    ensures ns[j] != ns[k]
  {
    NonceAfterWraps(first, j);
    NonceAfterWraps(first, k);
  }

  /** As long as a sender has committed at most 2^64 transactions, no two of them have the same nonce. */
  lemma NoNonceTwice(ls: seq<Ledger>, ts: seq<Turn>, admin: Address, run: Runner, a: Address, i: nat, j: nat, k: nat)
    requires Turns(ls, ts, admin, run) && i <= |ts|
    requires j < k < |CommittedNonces(ls, ts, admin, run, a, i)| <= TWO64
    ensures CommittedNonces(ls, ts, admin, run, a, i)[j] != CommittedNonces(ls, ts, admin, run, a, i)[k]
  {
    CommittedConsecutive(ls, ts, admin, run, a, i);
    ConsecutiveDistinct(CommittedNonces(ls, ts, admin, run, a, i), ChainNonce(ls[0], a), j, k);
  }

  /** What has been committed is not made ready again, by whatever pool at whatever later moment. */
  lemma NotReadyAgain(ls: seq<Ledger>, ts: seq<Turn>, admin: Address, run: Runner, a: Address, i: nat, t: Turn)
    requires Turns(ls, ts, admin, run) && i <= |ts|
    requires |CommittedNonces(ls, ts, admin, run, a, i)| + |NoncesOf(Selected(ls[i], t, admin), a)| <= TWO64
    ensures forall n :: n in CommittedNonces(ls, ts, admin, run, a, i) ==> n !in NoncesOf(Selected(ls[i], t, admin), a)
  {
    hide Selected, NoncesOf, ChainNonce, CommittedNonces;
    var p, q, first := CommittedNonces(ls, ts, admin, run, a, i),
        NoncesOf(Selected(ls[i], t, admin), a), ChainNonce(ls[0], a);
    CommittedConsecutive(ls, ts, admin, run, a, i);
    SelectedConsecutive(ls[i], t, admin, a);
    ConsecutiveJoin(p, q, first);
    forall n | n in p && n in q ensures false {
      var j :| 0 <= j < |p| && p[j] == n;
      var k :| 0 <= k < |q| && q[k] == n;
      ConsecutiveDistinct(p + q, first, j, |p| + k);
    }
  }

  lemma {:induction false} NonceOfMember(txs: seq<Tx>, tx: Tx)
    requires tx in txs
    ensures tx.nonce in NoncesOf(txs, tx.from)
  {
    var last, before := txs[|txs| - 1], txs[..|txs| - 1];
    assert txs == before + [last];
    if tx != last {
      NonceOfMember(before, tx);
    }
  }

  /** From genesis on, the nonces that each sender commits are one, two, three, and so on. */
  lemma FromOneOn(ls: seq<Ledger>, ts: seq<Turn>, owner: Address, admin: Address,
            run: Runner, a: Address, i: nat, k: nat)
    requires Turns(ls, ts, admin, run) && ls[0] == Genesis(owner) && i <= |ts|
    requires k < |CommittedNonces(ls, ts, admin, run, a, i)| < TWO64
    ensures CommittedNonces(ls, ts, admin, run, a, i)[k] == k + 1
    ensures ChainNonce(ls[i], a) == (|CommittedNonces(ls, ts, admin, run, a, i)| + 1) % TWO64
  {
    hide CommittedNonces;
    CommittedConsecutive(ls, ts, admin, run, a, i);
    NonceAfterWraps(1, k);
    NonceAfterWraps(1, |CommittedNonces(ls, ts, admin, run, a, i)|);
  }

  /** A committed transaction is not among those made ready later. */
  lemma CommittedIsNotReady(ls: seq<Ledger>, ts: seq<Turn>, admin: Address,
            run: Runner, i: nat, j: nat, tx: Tx, t: Turn)
    requires Turns(ls, ts, admin, run) && i < j <= |ts|
    requires Commits(ls[i], ts[i], admin, run) && tx in Selected(ls[i], ts[i], admin)
    requires |CommittedNonces(ls, ts, admin, run, tx.from, j)| + |NoncesOf(Selected(ls[j], t, admin), tx.from)| <= TWO64
    ensures forall u :: u in Selected(ls[j], t, admin) ==> !(u.from == tx.from && u.nonce == tx.nonce)
  {
    assert |ls| == |ts| + 1;
    hide *;
    var a := tx.from;
    CommittedHas(ls, ts, admin, run, i, j, tx);
    NotReadyAgain(ls, ts, admin, run, a, j, t);
    forall u | u in Selected(ls[j], t, admin) ensures !(u.from == tx.from && u.nonce == tx.nonce) {
      NonceOfMember(Selected(ls[j], t, admin), u);
    }
  }

  lemma CommittedHas(ls: seq<Ledger>, ts: seq<Turn>, admin: Address, run: Runner, i: nat, j: nat, tx: Tx)
    requires i < j <= |ts| < |ls| && Commits(ls[i], ts[i], admin, run) && tx in Selected(ls[i], ts[i], admin)
    ensures tx.nonce in CommittedNonces(ls, ts, admin, run, tx.from, j)
  {
    hide Selected, NoncesOf, Commits;
    NonceOfMember(Selected(ls[i], ts[i], admin), tx);
    assert tx.nonce in CommittedNonces(ls, ts, admin, run, tx.from, i + 1);
    CommittedGrows(ls, ts, admin, run, tx.from, i + 1, j);
  }

  lemma {:induction false} CommittedGrows(ls: seq<Ledger>, ts: seq<Turn>, admin: Address, run: Runner, a: Address,
          i: nat, j: nat)
    requires i <= j <= |ts| < |ls|
    ensures CommittedNonces(ls, ts, admin, run, a, i) <= CommittedNonces(ls, ts, admin, run, a, j)
    decreases j
  {
    hide Selected, NoncesOf, Commits;
    if i < j {
      CommittedGrows(ls, ts, admin, run, a, i, j - 1);
    }
  }
}
