/**
 * From the genesis ledger on, every block a leader builds from its pool is accepted, commits
 * unless a token script is rejected, and keeps the supply within the emission schedule.
 */
module ChainRuns {
  import opened U64
  import opened MapSum
  import opened Wrappers
  import opened Transactions
  import opened LedgerSpec
  import opened LedgerProofs
  import opened LedgerRuns
  import opened PendingSpec
  import opened PendingProofs
  import opened Emission

  /** One turn of a leader: the order in which its pool popped, the coinbases it appended, and whom fees go to. */
  datatype Turn = Turn(order: seq<Tx>, coinbases: seq<Tx>, miner: Address)

  function Selected(l: Ledger, t: Turn, admin: Address): seq<Tx> {
    SelectAll(l, NOTHING, t.order, admin).s.ready
  }

  function Built(l: Ledger, t: Turn, admin: Address): Block {
    Block(Add(l.height, 1), Selected(l, t, admin) + t.coinbases)
  }

  /**
   * Coinbases pay the reward of the height; conversions meet their guards when they are popped; no transfer
   * goes to its own sender; and what the block stores as frozen is covered.
   */
  ghost predicate FairTurn(l: Ledger, t: Turn, admin: Address) {
    && GuardsMet(l, NOTHING, t.order, admin)
    && Pays(t.coinbases, admin, Reward(l.height + 1))
    && SelfTransferFree(Selected(l, t, admin), admin)
    && Covered(l, Built(l, t, admin).txs, t.miner, admin)
  }

  /** The ledger after a turn; a rejected script leaves it as it was, apart from the token store. */
  ghost predicate TurnTaken(l: Ledger, t: Turn, l': Ledger, admin: Address, run: Runner) {
    match CommitBlock(l, Built(l, t, admin), t.miner, admin, run)
    case Success(w) => l' == w
    case Failure(_) => l' == l.(tokens := l'.tokens)
  }

  /** Sound, with exactly the coins that the schedule has issued by the ledger's height. */
  ghost predicate OnSchedule(l: Ledger) {
    Sound(l) && Supply(l) == GENESIS_CREDIT + Issued(l.height)
  }

  /** The ledger that initialisation stores: height zero, and the genesis credit for one address. */
  function Genesis(owner: Address): Ledger {
    Ledger(0, map[owner := GENESIS_CREDIT], map[], map[], map[], map[], 0, 0, map[])
  }

  lemma GenesisOnSchedule(owner: Address)
    ensures OnSchedule(Genesis(owner)) && Supply(Genesis(owner)) == GENESIS_CREDIT
  {
    var m: map<Address, u64> := map[];
    SumUpdate(m, owner, GENESIS_CREDIT);
  }

  lemma SelectKinds(l: Ledger, s: Selection, tx: Tx, admin: Address)
    requires Select(l, s, tx, admin).Some?
    ensures var s' := Select(l, s, tx, admin).value;
            s'.ready == s.ready || (s'.ready == s.ready + [tx] && KindOf(tx, admin) != Coinbase)
  {
    SelectProgress(l, s, tx, admin);
    if KindOf(tx, admin) == Coinbase {
      var a := Account(tx, admin);
    }
  }

  /** A selection never contains a coinbase. */
  lemma {:induction false} NoCoinbaseSelected(l: Ledger, s: Selection, order: seq<Tx>, admin: Address)
    requires CoinbaseAmounts(s.ready, admin) == 0
    ensures CoinbaseAmounts(SelectAll(l, s, order, admin).s.ready, admin) == 0
    decreases |order|
  {
    if order != [] {
      var next := Select(l, s, order[0], admin);
      if next.Some? {
        SelectKinds(l, s, order[0], admin);
        CoinbaseAmountsConcat(s.ready, [order[0]], admin);
        assert [order[0]][1..] == [];
        NoCoinbaseSelected(l, next.value, order[1..], admin);
      }
    }
  }

  /** The block mints exactly the reward of its height. */
  lemma BuiltMints(l: Ledger, t: Turn, admin: Address)
    requires FairTurn(l, t, admin)
    ensures MintedBy(Selected(l, t, admin), admin) == 0
    ensures MintedBy(Built(l, t, admin).txs, admin) == Reward(l.height + 1)
  {
    var ready := Selected(l, t, admin);
    var txs := Built(l, t, admin).txs;
    NoCoinbaseSelected(l, NOTHING, t.order, admin);
    MintedIsCoinbase(ready, admin);
    MintedPrefix(txs, admin, |ready|);
    assert txs[..|ready|] == ready && txs[|ready|..] == t.coinbases;
    MintedIsCoinbase(t.coinbases, admin);
  }

  lemma BuiltAccepted(l: Ledger, t: Turn, admin: Address)
    requires OnSchedule(l) && FairTurn(l, t, admin)
    ensures DryRun(l, NO_RESULTS, Built(l, t, admin).txs, admin).Some?
    ensures Supply(l) + MintedBy(Built(l, t, admin).txs, admin) < TWO64
  {
    BuiltMints(l, t, admin);
    EmissionBounded(l.height + 1);
    PendingBlockAccepted(l, t.order, t.coinbases, admin);
  }

  /** An accepted block at the next height can only fail to commit on a token script. */
  lemma OnlyScriptsFail(l: Ledger, txs: seq<Tx>, miner: Address, admin: Address, run: Runner)
    requires Sound(l) && DryRun(l, NO_RESULTS, txs, admin).Some?
    requires Supply(l) + MintedBy(txs, admin) < TWO64
    ensures var s := CommitBlock(l, Block(Add(l.height, 1), txs), miner, admin, run);
            s.Failure? ==> s.error == ScriptRejected
  {
    SimStart(l);
    RunFollows(l, NO_RESULTS, l, txs, miner, admin, run);
  }

  /** A sound ledger one height on, with that height's reward more, is still on schedule. */
  lemma ScheduleStep(l: Ledger, w: Ledger)
    requires OnSchedule(l) && Sound(w) && w.height == l.height + 1 && Supply(w) == Supply(l) + Reward(l.height + 1)
    ensures OnSchedule(w)
  {
    hide Sound, Supply, Reward;
  }

  lemma CommittedHeight(l: Ledger, b: Block, miner: Address, admin: Address, run: Runner)
    ensures var s := CommitBlock(l, b, miner, admin, run); s.Success? ==> s.value.height == b.height
  {
    hide CommitRun;
  }

  /** One fair turn on a ledger that is on schedule. */
  lemma TurnKeepsSchedule(l: Ledger, t: Turn, l': Ledger, admin: Address, run: Runner)
    requires OnSchedule(l) && l.height + 1 < TWO64
    requires FairTurn(l, t, admin) && TurnTaken(l, t, l', admin, run)
    ensures OnSchedule(l') && l.height <= l'.height <= l.height + 1
  {
    var b := Built(l, t, admin);
    BuiltAccepted(l, t, admin);
    if CommitBlock(l, b, t.miner, admin, run).Success? {
      BuiltMints(l, t, admin);
      BlockKeepsSound(l, b, t.miner, admin, run);
      CommittedHeight(l, b, t.miner, admin, run);
      hide DryRun, CommitBlock, Sound, Supply, Selected, MintedBy, Covered, GuardsMet;
      ScheduleStep(l, l');
    }
  }

  /**
   * Over every run of fair turns from genesis, whatever the pools hold and however they pop:
   * each built block passes the dry run on the ledger it was built on, its commit can only
   * fail on a token script, and the supply is always the genesis credit plus the emission up to
   * the height reached, so it stays below 2^63.
   */
  lemma {:induction false} ChainOnSchedule(ls: seq<Ledger>, ts: seq<Turn>, owner: Address, admin: Address,
          run: Runner, i: nat)
    requires |ls| == |ts| + 1 && ls[0] == Genesis(owner) && |ts| < TWO64
    requires forall k :: 0 <= k < |ts| ==> FairTurn(ls[k], ts[k], admin)
    requires forall k :: 0 <= k < |ts| ==> TurnTaken(ls[k], ts[k], ls[k + 1], admin, run)
    requires i <= |ts|
    ensures OnSchedule(ls[i]) && Supply(ls[i]) < 0x8000_0000_0000_0000 && ls[i].height <= i
    ensures i < |ts| ==> DryRun(ls[i], NO_RESULTS, Built(ls[i], ts[i], admin).txs, admin).Some?
    ensures i < |ts| ==>
              var s := CommitBlock(ls[i], Built(ls[i], ts[i], admin), ts[i].miner, admin, run);
              s.Failure? ==> s.error == ScriptRejected
  {
    hide FairTurn, TurnTaken;
    if i == 0 {
      GenesisOnSchedule(owner);
    } else {
      ChainOnSchedule(ls, ts, owner, admin, run, i - 1);
      TurnKeepsSchedule(ls[i - 1], ts[i - 1], ls[i - 1 + 1], admin, run);
    }
    EmissionBounded(ls[i].height);
    if i < |ts| {
      BuiltAccepted(ls[i], ts[i], admin);
      OnlyScriptsFail(ls[i], Built(ls[i], ts[i], admin).txs, ts[i].miner, admin, run);
    }
  }

  // ---------------------------------------------- blocks from whatever source

  /** Each block pays the reward of its height to coinbases, from the height `h` on. */
  predicate PayRewards(bs: seq<Mined>, admin: Address, h: nat) {
    forall i :: 0 <= i < |bs| ==> CoinbaseAmounts(bs[i].block.txs, admin) == Reward(h + i)
  }

  /** No transfer of any block goes to its own sender. */
  predicate NoSelfTransfers(bs: seq<Mined>, admin: Address) {
    forall i :: 0 <= i < |bs| ==> SelfTransferFree(bs[i].block.txs, admin)
  }

  /** Blocks that pay the rewards mint at least these, and exactly these just if there are no self transfers. */
  lemma {:induction false} RewardsMintIff(bs: seq<Mined>, admin: Address, h: nat)
    requires PayRewards(bs, admin, h + 1)
    ensures Issued(h + |bs|) <= Issued(h) + MintedByBlocks(bs, admin)
    ensures Issued(h + |bs|) == Issued(h) + MintedByBlocks(bs, admin) <==> NoSelfTransfers(bs, admin)
    decreases |bs|
  {
    hide Reward, CoinbaseAmounts, SelfTransferFree, MintedBy;
    if bs != [] {
      MintedIsCoinbase(bs[0].block.txs, admin);
      assert forall i :: 0 <= i < |bs[1..]| ==> bs[1..][i] == bs[i + 1] && h + 1 + (i + 1) == h + 1 + 1 + i;
      RewardsMintIff(bs[1..], admin, h + 1);
      assert forall i :: 0 < i < |bs| ==> bs[i] == bs[1..][i - 1];
    }
  }

  lemma {:induction false} RunHeight(l: Ledger, bs: seq<Mined>, admin: Address, run: Runner)
    requires RunBlocks(l, bs, admin, run).Some? && l.height + |bs| < TWO64
    ensures RunBlocks(l, bs, admin, run).value.height == l.height + |bs|
    decreases |bs|
  {
    hide DryRun, CommitRun;
    if bs != [] {
      RunHeight(CommitBlock(l, bs[0].block, bs[0].miner, admin, run).value, bs[1..], admin, run);
    }
  }

  /**
   * Every run from genesis of accepted blocks whose coinbases pay the rewards, conversions included, and that
   * mint no more than 64 bits hold: the totals match; the supply is exactly the genesis credit and the rewards,
   * below 2^63, if and only if no transfer goes to its own sender; and no address is ever refused for holding
   * less than it has frozen if and only if each block is covered. Without such transfers the mint always fits.
   */
  lemma RunFromGenesis(bs: seq<Mined>, owner: Address, admin: Address, run: Runner)
    requires PayRewards(bs, admin, 1) && |bs| < TWO64
    requires NoSelfTransfers(bs, admin) || GENESIS_CREDIT + MintedByBlocks(bs, admin) < TWO64
    requires RunBlocks(Genesis(owner), bs, admin, run).Some?
    ensures var w := RunBlocks(Genesis(owner), bs, admin, run).value;
            && w.height == |bs| && TotalsMatch(w)
            && GENESIS_CREDIT + Issued(w.height) <= Supply(w)
            && GENESIS_CREDIT + Issued(w.height) < 0x8000_0000_0000_0000
            && (Supply(w) == GENESIS_CREDIT + Issued(w.height) <==> NoSelfTransfers(bs, admin))
    ensures NeverRefused(Genesis(owner), bs, admin, run) <==> EachCovered(Genesis(owner), bs, admin, run)
  {
    hide Reward, Supply, TotalsMatch, NobodyRefused, RunBlocks, MintedByBlocks, NoSelfTransfers;
    var l := Genesis(owner);
    GenesisOnSchedule(owner);
    SoundIff(l);
    RewardsMintIff(bs, admin, 0);
    RunHeight(l, bs, admin, run);
    EmissionBounded(|bs|);
    RunKeepsSound(l, bs, admin, run);
  }
}
