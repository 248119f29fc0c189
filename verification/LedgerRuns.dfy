/**
 * Theorems about whole blocks and whole runs of blocks: every prefix of a commit follows
 * the dry run, coins are conserved, and frozen amounts stay covered by balances.
 */
module LedgerRuns {
  import opened U64
  import opened MapSum
  import opened Wrappers
  import opened Transactions
  import opened LedgerSpec
  import opened LedgerProofs

  // ------------------------------------------------------------------ prefixes

  lemma {:induction false} DryRunPrefix(l: Ledger, r: Results, txs: seq<Tx>, admin: Address, i: nat)
    requires i <= |txs| && DryRun(l, r, txs, admin).Some?
    ensures DryRun(l, r, txs[..i], admin).Some?
    ensures DryRun(l, DryRun(l, r, txs[..i], admin).value, txs[i..], admin) == DryRun(l, r, txs, admin)
    decreases i
  {
    if i > 0 {
      assert txs[..i][1..] == txs[1..][..i - 1];
      assert txs[i..] == txs[1..][i - 1..];
      DryRunPrefix(l, DryStep(l, r, txs[0], admin).value, txs[1..], admin, i - 1);
    }
  }

  lemma {:induction false} MintedPrefix(txs: seq<Tx>, admin: Address, i: nat)
    requires i <= |txs|
    ensures MintedBy(txs, admin) == MintedBy(txs[..i], admin) + MintedBy(txs[i..], admin)
    decreases i
  {
    if i > 0 {
      assert txs[..i][1..] == txs[1..][..i - 1];
      assert txs[i..] == txs[1..][i - 1..];
      MintedPrefix(txs[1..], admin, i - 1);
    }
  }

  /**
   * At every prefix of a block that the dry run accepts, the commit has either been stopped
   * by a rejected token script or holds, at each address, at least what the dry run counts
   * as available plus frozen; pck and dKto match; and each balance is the stored one plus
   * the unbounded sum of its deltas, so nothing has wrapped and no conversion failed.
   */
  lemma CommitFollowsDryRun(l: Ledger, txs: seq<Tx>, miner: Address, admin: Address, run: Runner, i: nat)
    requires i <= |txs|
    requires DryRun(l, NO_RESULTS, txs, admin).Some?
    requires TotalsMatch(l) && Supply(l) + MintedBy(txs, admin) < TWO64
    ensures DryRun(l, NO_RESULTS, txs[..i], admin).Some?
    ensures var r := DryRun(l, NO_RESULTS, txs[..i], admin).value;
            var s := CommitRun(l.frz, l, txs[..i], miner, admin, run);
            && (TokensAfter(l.tokens, txs[..i], admin, run).None? ==> s == Failure(ScriptRejected))
            && (TokensAfter(l.tokens, txs[..i], admin, run).Some? ==>
                  && s.Success?
                  && (forall a :: Avail(l, r, a).Some? ==> Avail(l, r, a).value + Frozen(l, r, a) <= At(s.value.bal, a))
                  && (forall a :: Convertible(l, r, a) == PckDkto(At(s.value.pck, a), At(s.value.dkto, a)))
                  && (forall a :: At(s.value.bal, a) == At(l.bal, a) + BalChange(txs[..i], miner, admin, a)))
  {
    DryRunPrefix(l, NO_RESULTS, txs, admin, i);
    MintedPrefix(txs, admin, i);
    SimStart(l);
    RunFollows(l, NO_RESULTS, l, txs[..i], miner, admin, run);
    var s := CommitRun(l.frz, l, txs[..i], miner, admin, run);
    if s.Success? {
      var r := DryRun(l, NO_RESULTS, txs[..i], admin).value;
      forall a
        ensures Avail(l, r, a).Some? ==> Avail(l, r, a).value + Frozen(l, r, a) <= At(s.value.bal, a)
        ensures Convertible(l, r, a) == PckDkto(At(s.value.pck, a), At(s.value.dkto, a))
      {
        assert BalSim(l, r, s.value.bal, a) && ConvSim(l, r, s.value, a);
        if Avail(l, r, a).Some? {
          AvailBound(l, r, s.value.bal, a);
        }
      }
    }
  }

  lemma SimStart(l: Ledger)
    ensures Sim(l, NO_RESULTS, l)
  {
    forall a ensures BalSim(l, NO_RESULTS, l.bal, a) && ConvSim(l, NO_RESULTS, l, a) {
    }
  }

  // -------------------------------------------------------------- conservation

  /**
   * The supply grows by exactly what the block mints, whatever the miner, the fees and the
   * conversions; the totals keep matching.
   */
  lemma Conservation(l: Ledger, txs: seq<Tx>, miner: Address, admin: Address, run: Runner)
    requires DryRun(l, NO_RESULTS, txs, admin).Some?
    requires TotalsMatch(l) && Supply(l) + MintedBy(txs, admin) < TWO64
    requires CommitRun(l.frz, l, txs, miner, admin, run).Success?
    ensures var w := CommitRun(l.frz, l, txs, miner, admin, run).value;
            TotalsMatch(w) && Supply(w) == Supply(l) + MintedBy(txs, admin)
  {
    SimStart(l);
    RunFollows(l, NO_RESULTS, l, txs, miner, admin, run);
  }

  function CoinbaseAmounts(txs: seq<Tx>, admin: Address): nat {
    if txs == [] then 0
    else (if KindOf(txs[0], admin) == Coinbase then txs[0].amount else 0) + CoinbaseAmounts(txs[1..], admin)
  }

  /** A transfer to oneself that moves or pays nothing is harmless; any other creates coins. */
  predicate SelfTransferFree(txs: seq<Tx>, admin: Address) {
    forall i :: 0 <= i < |txs| && KindOf(txs[i], admin) == Transfer && txs[i].from == txs[i].to ==>
      txs[i].amount + TokenFee(txs[i]) == 0
  }

  lemma {:induction false} MintedIsCoinbase(txs: seq<Tx>, admin: Address)
    ensures MintedBy(txs, admin) >= CoinbaseAmounts(txs, admin)
    ensures MintedBy(txs, admin) == CoinbaseAmounts(txs, admin) <==> SelfTransferFree(txs, admin)
    decreases |txs|
  {
    if txs != [] {
      MintedIsCoinbase(txs[1..], admin);
      assert txs == [txs[0]] + txs[1..];
      if SelfTransferFree(txs, admin) {
        assert forall i :: 0 <= i < |txs[1..]| ==> txs[1..][i] == txs[i + 1];
      }
    }
  }

  /** Exactly when no transfer goes to its own sender does the supply grow by the coinbase amounts alone. */
  lemma ConservationIff(l: Ledger, txs: seq<Tx>, miner: Address, admin: Address, run: Runner)
    requires DryRun(l, NO_RESULTS, txs, admin).Some?
    requires TotalsMatch(l) && Supply(l) + MintedBy(txs, admin) < TWO64
    requires CommitRun(l.frz, l, txs, miner, admin, run).Success?
    ensures var w := CommitRun(l.frz, l, txs, miner, admin, run).value;
            Supply(w) == Supply(l) + CoinbaseAmounts(txs, admin) <==> SelfTransferFree(txs, admin)
  {
    Conservation(l, txs, miner, admin, run);
    MintedIsCoinbase(txs, admin);
  }

  // -------------------------------------------------------------------- freezing

  predicate Hits(tx: Tx, admin: Address, a: Address) {
    (KindOf(tx, admin) == Freeze || KindOf(tx, admin) == Unfreeze) && tx.to == a
  }

  function FreezeDelta(tx: Tx, admin: Address, a: Address): int {
    if !Hits(tx, admin, a) then 0
    else if KindOf(tx, admin) == Freeze then tx.amount
    else 0 - tx.amount
  }

  /** The signed sum of the freezes and unfreezes of `a`. */
  function FreezeNet(txs: seq<Tx>, admin: Address, a: Address): int {
    if txs == [] then 0 else FreezeDelta(txs[0], admin, a) + FreezeNet(txs[1..], admin, a)
  }

  /** The last freeze or unfreeze of `a` alone, or `d` if there is none. */
  function LastFreeze(txs: seq<Tx>, admin: Address, a: Address, d: int): (last: int)
    requires -TWO64 < d < TWO64
    ensures -TWO64 < last < TWO64
  {
    if txs == [] then d
    else LastFreeze(txs[1..], admin, a, if Hits(txs[0], admin, a) then FreezeDelta(txs[0], admin, a) else d)
  }

  lemma FrozenDryStep(l: Ledger, r: Results, w: Ledger, tx: Tx, admin: Address, a: Address)
    requires BalSim(l, r, w.bal, tx.to)
    requires DryStep(l, r, tx, admin).Some?
    ensures Frozen(l, DryStep(l, r, tx, admin).value, a) == Frozen(l, r, a) + FreezeDelta(tx, admin, a)
  {
    if KindOf(tx, admin) == Freeze {
      AvailBound(l, r, w.bal, tx.to);
    }
  }

  lemma {:induction false} FrozenDryRun(l: Ledger, r: Results, w: Ledger, txs: seq<Tx>, miner: Address,
          admin: Address, run: Runner, a: Address, d: int)
    requires Sim(l, r, w) && TotalsMatch(w)
    requires Supply(w) + MintedBy(txs, admin) < TWO64
    requires DryRun(l, r, txs, admin).Some?
    requires CommitRun(l.frz, w, txs, miner, admin, run).Success?
    requires -TWO64 < d < TWO64 && 0 <= Frozen(l, r, a) - d < TWO64
    ensures 0 <= Frozen(l, DryRun(l, r, txs, admin).value, a) - LastFreeze(txs, admin, a, d) < TWO64
    ensures Frozen(l, DryRun(l, r, txs, admin).value, a) == Frozen(l, r, a) + FreezeNet(txs, admin, a)
    decreases |txs|
  {
    if txs != [] {
      var tx := txs[0];
      Step(l, r, w, tx, miner, admin, run);
      assert BalSim(l, r, w.bal, tx.to);
      FrozenDryStep(l, r, w, tx, admin, a);
      var w' := CommitStep(l.frz, w, tx, miner, admin, run).value;
      FrozenDryRun(l, DryStep(l, r, tx, admin).value, w', txs[1..], miner, admin, run, a,
                   if Hits(tx, admin, a) then FreezeDelta(tx, admin, a) else d);
    }
  }

  lemma FrozenCommitStep(frozenBefore: map<Address, u64>, w: Ledger, tx: Tx, miner: Address,
            admin: Address, run: Runner, a: Address)
    requires CommitStep(frozenBefore, w, tx, miner, admin, run).Success?
    ensures var w' := CommitStep(frozenBefore, w, tx, miner, admin, run).value;
            At(w'.frz, a) == if Hits(tx, admin, a) then Wrap(At(frozenBefore, a) + FreezeDelta(tx, admin, a))
                             else At(w.frz, a)
  {
  }

  lemma {:induction false} FrozenCommitRun(frozenBefore: map<Address, u64>, w: Ledger, txs: seq<Tx>,
          miner: Address, admin: Address, run: Runner, a: Address, d: int)
    requires CommitRun(frozenBefore, w, txs, miner, admin, run).Success?
    requires -TWO64 < d < TWO64
    requires At(w.frz, a) == Wrap(At(frozenBefore, a) + d)
    ensures At(CommitRun(frozenBefore, w, txs, miner, admin, run).value.frz, a)
            == Wrap(At(frozenBefore, a) + LastFreeze(txs, admin, a, d))
    decreases |txs|
  {
    hide CommitStep;
    if txs != [] {
      FrozenCommitStep(frozenBefore, w, txs[0], miner, admin, run, a);
      FrozenCommitRun(frozenBefore, CommitStep(frozenBefore, w, txs[0], miner, admin, run).value,
                      txs[1..], miner, admin, run, a,
                      if Hits(txs[0], admin, a) then FreezeDelta(txs[0], admin, a) else d);
    }
  }

  /** A wrapped sum equals an unwrapped one of the same shift only from the same start. */
  lemma SameShift(x: u64, f: u64, last: int)
    requires -TWO64 < last < TWO64 && 0 <= f - last < TWO64
    ensures Wrap(x + last) == f <==> f - last == x
  {
  }

  /**
   * The frozen amount the commit stores for `a` is the one the dry run computed if and only
   * if the block's freezes and unfreezes of `a` before the last one cancel out.
   */
  lemma FrozenAgrees(l: Ledger, txs: seq<Tx>, miner: Address, admin: Address, run: Runner, a: Address)
    requires DryRun(l, NO_RESULTS, txs, admin).Some?
    requires TotalsMatch(l) && Supply(l) + MintedBy(txs, admin) < TWO64
    requires CommitRun(l.frz, l, txs, miner, admin, run).Success?
    ensures var r := DryRun(l, NO_RESULTS, txs, admin).value;
            var w := CommitRun(l.frz, l, txs, miner, admin, run).value;
            At(w.frz, a) == Frozen(l, r, a) <==> FreezeNet(txs, admin, a) == LastFreeze(txs, admin, a, 0)
  {
    hide *;
    FrozenValues(l, txs, miner, admin, run, a);
    SameShift(At(l.frz, a), Frozen(l, DryRun(l, NO_RESULTS, txs, admin).value, a), LastFreeze(txs, admin, a, 0));
  }

  lemma StartFrozen(l: Ledger, a: Address)
    ensures Frozen(l, NO_RESULTS, a) == At(l.frz, a) == Wrap(At(l.frz, a) + 0)
  {
  }

  /** The frozen amounts of dry run and commit, each as what the block adds to the stored one. */
  lemma FrozenValues(l: Ledger, txs: seq<Tx>, miner: Address, admin: Address, run: Runner, a: Address)
    requires DryRun(l, NO_RESULTS, txs, admin).Some?
    requires TotalsMatch(l) && Supply(l) + MintedBy(txs, admin) < TWO64
    requires CommitRun(l.frz, l, txs, miner, admin, run).Success?
    ensures var f, last := Frozen(l, DryRun(l, NO_RESULTS, txs, admin).value, a), LastFreeze(txs, admin, a, 0);
            && 0 <= f - last < TWO64 && f == At(l.frz, a) + FreezeNet(txs, admin, a)
            && At(CommitRun(l.frz, l, txs, miner, admin, run).value.frz, a) == Wrap(At(l.frz, a) + last)
  {
    SimStart(l);
    StartFrozen(l, a);
    hide *;
    FrozenDryRun(l, NO_RESULTS, l, txs, miner, admin, run, a, 0);
    FrozenCommitRun(l.frz, l, txs, miner, admin, run, a, 0);
  }

  /** For every address, the freezes and unfreezes before the last one cancel out. */
  ghost predicate FreezesCancel(txs: seq<Tx>, admin: Address) {
    forall a :: FreezeNet(txs, admin, a) == LastFreeze(txs, admin, a, 0)
  }

  /** No address is the target of two freezes or unfreezes. */
  ghost predicate OneFreezeEach(txs: seq<Tx>, admin: Address) {
    forall i, j :: 0 <= i < j < |txs| && Hits(txs[i], admin, txs[i].to) ==> !Hits(txs[j], admin, txs[i].to)
  }

  lemma {:induction false} NoHits(txs: seq<Tx>, admin: Address, a: Address, d: int)
    requires -TWO64 < d < TWO64
    requires forall i :: 0 <= i < |txs| ==> !Hits(txs[i], admin, a)
    ensures FreezeNet(txs, admin, a) == 0 && LastFreeze(txs, admin, a, d) == d
    decreases |txs|
  {
    if txs != [] {
      NoHits(txs[1..], admin, a, d);
    }
  }

  lemma {:induction false} OneFreezeCancels(txs: seq<Tx>, admin: Address, a: Address)
    requires OneFreezeEach(txs, admin)
    ensures FreezeNet(txs, admin, a) == LastFreeze(txs, admin, a, 0)
    decreases |txs|
  {
    if txs != [] {
      if Hits(txs[0], admin, a) {
        NoHits(txs[1..], admin, a, FreezeDelta(txs[0], admin, a));
      } else {
        assert forall i :: 0 <= i < |txs[1..]| ==> txs[1..][i] == txs[i + 1];
        OneFreezeCancels(txs[1..], admin, a);
      }
    }
  }

  // ------------------------------------------------------------------------ runs

  /** What every committed ledger keeps: totals match, the supply fits, balances cover frozen amounts. */
  ghost predicate Sound(l: Ledger) {
    && TotalsMatch(l)
    && Supply(l) < TWO64
    && (forall a :: At(l.frz, a) <= At(l.bal, a))
  }

  /** The frozen amount that a block stores for `a`: its last freeze or unfreeze added to what was stored before. */
  function FrozenAfter(l: Ledger, txs: seq<Tx>, admin: Address, a: Address): u64 {
    Wrap(At(l.frz, a) + LastFreeze(txs, admin, a, 0))
  }

  /** For every address, what a block stores as frozen is within the balance that it leaves. */
  ghost predicate Covered(l: Ledger, txs: seq<Tx>, miner: Address, admin: Address) {
    forall a :: FrozenAfter(l, txs, admin, a) <= At(l.bal, a) + BalChange(txs, miner, admin, a)
  }

  lemma CoveredAtIff(l: Ledger, txs: seq<Tx>, miner: Address, admin: Address, run: Runner, a: Address)
    requires DryRun(l, NO_RESULTS, txs, admin).Some?
    requires TotalsMatch(l) && Supply(l) + MintedBy(txs, admin) < TWO64
    requires CommitRun(l.frz, l, txs, miner, admin, run).Success?
    ensures var w := CommitRun(l.frz, l, txs, miner, admin, run).value;
            At(w.frz, a) <= At(w.bal, a) <==>
            FrozenAfter(l, txs, admin, a) <= At(l.bal, a) + BalChange(txs, miner, admin, a)
  {
    FrozenValues(l, txs, miner, admin, run, a);
    SimStart(l);
    RunFollows(l, NO_RESULTS, l, txs, miner, admin, run);
  }

  /** An accepted block on a sound ledger whose freezes cancel out is covered, whoever mines it. */
  lemma CancelledIsCovered(l: Ledger, txs: seq<Tx>, miner: Address, admin: Address)
    requires Sound(l) && FreezesCancel(txs, admin)
    requires DryRun(l, NO_RESULTS, txs, admin).Some?
    requires Supply(l) + MintedBy(txs, admin) < TWO64
    ensures Covered(l, txs, miner, admin)
  {
    var run: Runner := (tokens, script, owner) => Some(tokens);
    SimStart(l);
    RunFollows(l, NO_RESULTS, l, txs, miner, admin, run);
    NoScriptFails(l.tokens, txs, admin, run);
    var r := DryRun(l, NO_RESULTS, txs, admin).value;
    var w := CommitRun(l.frz, l, txs, miner, admin, run).value;
    forall a ensures FrozenAfter(l, txs, admin, a) <= At(l.bal, a) + BalChange(txs, miner, admin, a) {
      FrozenAgrees(l, txs, miner, admin, run, a);
      CoveredAtIff(l, txs, miner, admin, run, a);
      assert BalSim(l, r, w.bal, a);
    }
  }

  lemma {:induction false} NoScriptFails(tokens: TokenDb, txs: seq<Tx>, admin: Address, run: Runner)
    requires forall t: TokenDb, script: string, owner: Address :: run(t, script, owner) == Some(t)
    ensures TokensAfter(tokens, txs, admin, run).Some?
    decreases |txs|
  {
    if txs != [] {
      NoScriptFails(tokens, txs[1..], admin, run);
    }
  }

  /**
   * A committed block adds what it mints, leaves a sound ledger if and only if it is covered, and stores the
   * frozen amounts of the dry run if and only if its freezes cancel out.
   */
  lemma BlockKeepsSound(l: Ledger, b: Block, miner: Address, admin: Address, run: Runner)
    requires TotalsMatch(l) && Supply(l) + MintedBy(b.txs, admin) < TWO64
    requires DryRun(l, NO_RESULTS, b.txs, admin).Some?
    requires CommitBlock(l, b, miner, admin, run).Success?
    ensures var w := CommitBlock(l, b, miner, admin, run).value;
            && TotalsMatch(w) && Supply(w) == Supply(l) + MintedBy(b.txs, admin)
            && (Sound(w) <==> Covered(l, b.txs, miner, admin))
            && ((forall a :: At(w.frz, a) == Frozen(l, DryRun(l, NO_RESULTS, b.txs, admin).value, a)) <==>
                FreezesCancel(b.txs, admin))
  {
    var w := CommitRun(l.frz, l, b.txs, miner, admin, run).value;
    Conservation(l, b.txs, miner, admin, run);
    var w' := w.(height := b.height);
    assert Supply(w') == Supply(w) && TotalsMatch(w');
    forall a
      ensures At(w'.frz, a) <= At(w'.bal, a) <==>
              FrozenAfter(l, b.txs, admin, a) <= At(l.bal, a) + BalChange(b.txs, miner, admin, a)
    {
      CoveredAtIff(l, b.txs, miner, admin, run, a);
    }
    forall a
      ensures At(w'.frz, a) == Frozen(l, DryRun(l, NO_RESULTS, b.txs, admin).value, a) <==>
              FreezeNet(b.txs, admin, a) == LastFreeze(b.txs, admin, a, 0)
    {
      FrozenAgrees(l, b.txs, miner, admin, run, a);
    }
  }

  /** A block and the address its fees go to. */
  datatype Mined = Mined(block: Block, miner: Address)

  /** The ledger after a run of blocks, each accepted by the dry run and then committed. */
  function RunBlocks(l: Ledger, bs: seq<Mined>, admin: Address, run: Runner): Option<Ledger>
    decreases |bs|
  {
    if bs == [] then Some(l)
    else if DryRun(l, NO_RESULTS, bs[0].block.txs, admin).None? then None
    else
      var s := CommitBlock(l, bs[0].block, bs[0].miner, admin, run);
      if s.Failure? then None else RunBlocks(s.value, bs[1..], admin, run)
  }

  function MintedByBlocks(bs: seq<Mined>, admin: Address): nat {
    if bs == [] then 0 else MintedBy(bs[0].block.txs, admin) + MintedByBlocks(bs[1..], admin)
  }

  /** No address is refused for holding less than it has frozen. */
  ghost predicate NobodyRefused(l: Ledger) {
    forall a :: Avail(l, NO_RESULTS, a).Some?
  }

  /** Neither on this ledger nor on one that the run reaches. */
  ghost predicate NeverRefused(l: Ledger, bs: seq<Mined>, admin: Address, run: Runner)
    requires RunBlocks(l, bs, admin, run).Some?
    decreases |bs|
  {
    && NobodyRefused(l)
    && (bs == [] || NeverRefused(CommitBlock(l, bs[0].block, bs[0].miner, admin, run).value, bs[1..], admin, run))
  }

  /** Each block of a run is covered on the ledger it is built on. */
  ghost predicate EachCovered(l: Ledger, bs: seq<Mined>, admin: Address, run: Runner)
    requires RunBlocks(l, bs, admin, run).Some?
    decreases |bs|
  {
    bs == []
    || (&& Covered(l, bs[0].block.txs, bs[0].miner, admin)
        && EachCovered(CommitBlock(l, bs[0].block, bs[0].miner, admin, run).value, bs[1..], admin, run))
  }

  lemma SoundIff(l: Ledger)
    ensures Sound(l) <==> TotalsMatch(l) && Supply(l) < TWO64 && NobodyRefused(l)
  {
    forall a ensures Avail(l, NO_RESULTS, a).Some? <==> At(l.frz, a) <= At(l.bal, a) {
    }
  }

  /**
   * Over every run of accepted blocks, the supply is the initial one plus what was minted, and the totals
   * match; and no address is ever refused for holding less than it has frozen if and only if none is on the
   * initial ledger and each block is covered. Then the ledger stays sound.
   */
  lemma {:induction false} RunKeepsSound(l: Ledger, bs: seq<Mined>, admin: Address, run: Runner)
    requires TotalsMatch(l) && Supply(l) + MintedByBlocks(bs, admin) < TWO64
    requires RunBlocks(l, bs, admin, run).Some?
    ensures var w := RunBlocks(l, bs, admin, run).value;
            && TotalsMatch(w) && Supply(w) == Supply(l) + MintedByBlocks(bs, admin)
            && (NeverRefused(l, bs, admin, run) ==> Sound(w))
    ensures NeverRefused(l, bs, admin, run) <==> NobodyRefused(l) && EachCovered(l, bs, admin, run)
    decreases |bs|
  {
    hide CommitBlock, DryRun, TotalsMatch, Supply, Sound, Covered, NobodyRefused;
    SoundIff(l);
    if bs != [] {
      var w := CommitBlock(l, bs[0].block, bs[0].miner, admin, run).value;
      BlockKeepsSound(l, bs[0].block, bs[0].miner, admin, run);
      SoundIff(w);
      RunKeepsSound(w, bs[1..], admin, run);
    }
  }

  // ------------------------------------------------ what a second freeze does

  /** Ten coins of `a`, five of them frozen. */
  function HalfFrozen(a: Address): Ledger {
    Ledger(1, map[a := 10], map[a := 5], map[], map[], map[], 0, 0, map[])
  }

  function Unfreezing(admin: Address, a: Address, amount: u64): Tx {
    Tx(1, amount, admin, a, 0, "", 0, UNFREEZE_TAG, NoOrder, 0, 0)
  }

  function Freezing(admin: Address, a: Address, amount: u64): Tx {
    Tx(2, amount, admin, a, 0, "", 0, FREEZE_TAG, NoOrder, 0, 0)
  }

  /**
   * Unfreezing five and freezing six in one block is accepted and commits, but stores eleven
   * frozen coins against a balance of ten, so the address is refused ever after.
   */
  lemma SecondFreezeUncovers(admin: Address, a: Address, miner: Address, run: Runner)
    ensures var l, b := HalfFrozen(a), Block(2, [Unfreezing(admin, a, 5), Freezing(admin, a, 6)]);
            && Sound(l)
            && DryRun(l, NO_RESULTS, b.txs, admin).Some?
            && CommitBlock(l, b, miner, admin, run).Success?
            && !Sound(CommitBlock(l, b, miner, admin, run).value)
            && Avail(CommitBlock(l, b, miner, admin, run).value, NO_RESULTS, a).None?
  {
    var l := HalfFrozen(a);
    var t1, t2 := Unfreezing(admin, a, 5), Freezing(admin, a, 6);
    var txs := [t1, t2];
    var m: map<Address, u64> := map[];
    SumUpdate(m, a, 10);
    assert Supply(l) == 10 && TotalsMatch(l);
    assert txs[1..] == [t2] && [t2][1..] == [];
    var r := DryStep(l, NO_RESULTS, t1, admin);
    var r' := DryStep(l, r.value, t2, admin);
    assert DryRun(l, NO_RESULTS, txs, admin) == DryRun(l, r.value, [t2], admin) == DryRun(l, r'.value, [], admin);
    var w := CommitStep(l.frz, l, t1, miner, admin, run).value;
    var w' := CommitStep(l.frz, w, t2, miner, admin, run).value;
    assert CommitRun(l.frz, l, txs, miner, admin, run) == CommitRun(l.frz, w, [t2], miner, admin, run) == Success(w');
    assert At(w'.frz, a) == 11 && At(w'.bal, a) == 10;
  }
}
