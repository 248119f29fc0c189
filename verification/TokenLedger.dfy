/** Coins and tokens together: what runs of blocks do to the token store, and that both stay right. */
module TokenLedger {
  import opened U64
  import opened Wrappers
  import opened Transactions
  import opened LedgerSpec
  import opened LedgerProofs
  import opened LedgerRuns
  import opened ChainRuns
  import opened Tokens
  import TokenSpec
  import opened TokenProofs
  import opened TokenRuns
  import ParseSpec
  import Emission

  /** What a token transfer asks of the executor. */
  function RequestOf(tx: Tx): Request {
    Request(ParseSpec.Parse(tx.script), tx.from)
  }

  predicate Asks(tx: Tx, admin: Address) {
    KindOf(tx, admin) == Transfer && IsToken(tx)
  }

  /** The requests of a block, in order. */
  function Requests(txs: seq<Tx>, admin: Address): seq<Request> {
    if txs == [] then []
    else (if Asks(txs[0], admin) then [RequestOf(txs[0])] else []) + Requests(txs[1..], admin)
  }

  function BlockRequests(bs: seq<Mined>, admin: Address): seq<Request> {
    if bs == [] then [] else Requests(bs[0].block.txs, admin) + BlockRequests(bs[1..], admin)
  }

  /** Every request of a run succeeds on the store it finds. */
  predicate AllSucceed(db: TokenDb, rs: seq<Request>)
    decreases |rs|
  {
    rs == [] || (TokenSpec.Execute(db, rs[0].scs, rs[0].executor).Some? && AllSucceed(AfterRequest(db, rs[0]), rs[1..]))
  }

  lemma {:induction false} RunJoin(db: TokenDb, p: seq<Request>, q: seq<Request>)
    ensures RunRequests(db, p + q) == RunRequests(RunRequests(db, p), q)
    ensures AllSucceed(db, p) && AllSucceed(RunRequests(db, p), q) ==> AllSucceed(db, p + q)
    decreases |p|
  {
    if p == [] {
      assert p + q == q;
    } else {
      assert (p + q)[1..] == p[1..] + q;
      RunJoin(AfterRequest(db, p[0]), p[1..], q);
    }
  }

  /** What the dry run accepts has a known kind. */
  lemma AcceptedKind(l: Ledger, r: Results, tx: Tx, admin: Address)
    requires DryStep(l, r, tx, admin).Some?
    ensures KindOf(tx, admin) != Unknown
  {
  }

  /** A committed block that the dry run accepts leaves the token store that its requests make. */
  lemma {:induction false} CommittedTokens(l: Ledger, r: Results, w: Ledger,
            txs: seq<Tx>, miner: Address, admin: Address)
    requires DryRun(l, r, txs, admin).Some? && CommitRun(l.frz, w, txs, miner, admin, RunScript).Success?
    ensures var w' := CommitRun(l.frz, w, txs, miner, admin, RunScript).value;
            w'.tokens == RunRequests(w.tokens, Requests(txs, admin)) && AllSucceed(w.tokens, Requests(txs, admin))
    decreases |txs|
  {
    hide DryStep, CommitStep;
    if txs != [] {
      var tx, w1 := txs[0], CommitStep(l.frz, w, txs[0], miner, admin, RunScript).value;
      AcceptedKind(l, r, tx, admin);
      StepTokens(l.frz, w, tx, miner, admin, RunScript);
      CommittedTokens(l, DryStep(l, r, tx, admin).value, w1, txs[1..], miner, admin);
      if Asks(tx, admin) {
        OneRequest(w.tokens, w1.tokens, RequestOf(tx));
        RunJoin(w.tokens, [RequestOf(tx)], Requests(txs[1..], admin));
      } else {
        assert [] + Requests(txs[1..], admin) == Requests(txs[1..], admin);
      }
    }
  }

  lemma OneRequest(db: TokenDb, next: TokenDb, r: Request)
    requires TokenSpec.Execute(db, r.scs, r.executor) == Some(next)
    ensures RunRequests(db, [r]) == next && AllSucceed(db, [r])
  {
    assert [r][1..] == [];
    assert RunRequests(AfterRequest(db, r), []) == next;
  }

  lemma {:induction false} BlocksTokens(l: Ledger, bs: seq<Mined>, admin: Address)
    requires RunBlocks(l, bs, admin, RunScript).Some?
    ensures RunBlocks(l, bs, admin, RunScript).value.tokens == RunRequests(l.tokens, BlockRequests(bs, admin))
    ensures AllSucceed(l.tokens, BlockRequests(bs, admin))
    decreases |bs|
  {
    hide DryRun, CommitRun;
    if bs != [] {
      CommittedTokens(l, NO_RESULTS, l, bs[0].block.txs, bs[0].miner, admin);
      BlocksTokens(CommitBlock(l, bs[0].block, bs[0].miner, admin, RunScript).value, bs[1..], admin);
      RunJoin(l.tokens, Requests(bs[0].block.txs, admin), BlockRequests(bs[1..], admin));
    }
  }

  /** The operations of a script that succeeds are well-formed. */
  lemma {:induction false} DoneIsWellFormed(db: TokenDb, executor: string,
            mp: TokenDb, scs: seq<Option<TokenSpec.Script>>)
    requires TokenSpec.DealAll(db, executor, mp, scs).Done? && IsAddress(executor)
    ensures AllWellFormed(scs, executor)
    decreases |scs|
  {
    hide IsAddress;
    if scs != [] {
      DoneIsWellFormed(db, executor, TokenSpec.Deal(db, executor, mp, scs[0]).mp, scs[1..]);
      assert forall i :: 0 < i < |scs| ==> scs[i] == scs[1..][i - 1];
    }
  }

  lemma {:induction false} SucceedingAreWellFormed(db: TokenDb, rs: seq<Request>)
    requires AllSucceed(db, rs) && forall i :: 0 <= i < |rs| ==> IsAddress(rs[i].executor)
    ensures WellFormedRequests(rs)
    decreases |rs|
  {
    hide IsAddress, AllWellFormed;
    if rs != [] {
      DoneIsWellFormed(db, rs[0].executor, map[], rs[0].scs);
      SucceedingAreWellFormed(AfterRequest(db, rs[0]), rs[1..]);
      assert forall i :: 0 < i < |rs| ==> rs[i] == rs[1..][i - 1];
    }
  }

  /** Senders are addresses. */
  predicate SendersAreAddresses(bs: seq<Mined>) {
    forall i, j :: 0 <= i < |bs| && 0 <= j < |bs[i].block.txs| ==> IsAddress(bs[i].block.txs[j].from)
  }

  lemma {:induction false} RequestsFromAddresses(txs: seq<Tx>, admin: Address)
    requires forall j :: 0 <= j < |txs| ==> IsAddress(txs[j].from)
    ensures forall i :: 0 <= i < |Requests(txs, admin)| ==> IsAddress(Requests(txs, admin)[i].executor)
    decreases |txs|
  {
    hide IsAddress;
    if txs != [] {
      RequestsFromAddresses(txs[1..], admin);
    }
  }

  lemma {:induction false} AllFromAddresses(bs: seq<Mined>, admin: Address)
    requires SendersAreAddresses(bs)
    ensures forall i :: 0 <= i < |BlockRequests(bs, admin)| ==> IsAddress(BlockRequests(bs, admin)[i].executor)
    decreases |bs|
  {
    hide IsAddress;
    if bs != [] {
      RequestsFromAddresses(bs[0].block.txs, admin);
      assert forall i :: 0 <= i < |bs[1..]| ==> bs[1..][i] == bs[i + 1];
      AllFromAddresses(bs[1..], admin);
    }
  }

  /**
   * Over every run of accepted blocks, the token store is what the requests of their token transfers make of it,
   * all of which are well-formed; and every token's supply is right at every moment if and only if each operation
   * meets its guard.
   */
  lemma BlocksKeepSupplies(l: Ledger, bs: seq<Mined>, admin: Address)
    requires TokensOk(l.tokens) && SendersAreAddresses(bs)
    requires RunBlocks(l, bs, admin, RunScript).Some?
    ensures var rs, w := BlockRequests(bs, admin), RunBlocks(l, bs, admin, RunScript).value;
            && w.tokens == RunRequests(l.tokens, rs) && WellFormedRequests(rs)
            && (RunAlwaysRight(l.tokens, rs) <==> RunGuardsHold(l.tokens, rs))
            && (RunAlwaysRight(l.tokens, rs) ==> TokensOk(w.tokens))
  {
    hide NumbersFormed, SuppliesRight, WellFormedRequests, RunBlocks, SendersAreAddresses, IsAddress;
    BlocksTokens(l, bs, admin);
    AllFromAddresses(bs, admin);
    SucceedingAreWellFormed(l.tokens, BlockRequests(bs, admin));
    RunKeepsSupply(l.tokens, BlockRequests(bs, admin));
  }

  /**
   * Every run from genesis of accepted blocks that pay the rewards, without transfers to oneself: the coins are
   * on schedule and, if the token operations meet their guards, the supply of every token is right.
   */
  lemma NodeFromGenesis(bs: seq<Mined>, owner: Address, admin: Address)
    requires PayRewards(bs, admin, 1) && NoSelfTransfers(bs, admin) && |bs| < TWO64 && SendersAreAddresses(bs)
    requires RunBlocks(Genesis(owner), bs, admin, RunScript).Some?
    ensures var rs, w := BlockRequests(bs, admin), RunBlocks(Genesis(owner), bs, admin, RunScript).value;
            && TotalsMatch(w) && Supply(w) == Emission.GENESIS_CREDIT + Emission.Issued(|bs|)
            && WellFormedRequests(rs) && (RunGuardsHold(map[], rs) <==> RunAlwaysRight(map[], rs))
            && (RunGuardsHold(map[], rs) ==> TokensOk(w.tokens))
  {
    hide NumbersFormed, SuppliesRight, WellFormedRequests, RunBlocks, SendersAreAddresses, PayRewards, NoSelfTransfers;
    EmptyStoreOk();
    RunFromGenesis(bs, owner, admin, RunScript);
    BlocksKeepSupplies(Genesis(owner), bs, admin);
  }
}
