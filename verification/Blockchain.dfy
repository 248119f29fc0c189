/**
 * The chain object: `CalculationResults` fills result maps transaction by transaction, and
 * `AddBlock` updates a store transaction that replaces the stored ledger when it commits.
 */
module Blockchain {
  import opened U64
  import opened Wrappers
  import opened Transactions
  import opened Tokens
  import opened LedgerSpec
  import opened LedgerProofs
  import Emission

  /** The uncommitted writes of one store transaction. */
  class StoreTxn {
    var bal: map<Address, u64>
    var frz: map<Address, u64>
    var pck: map<Address, u64>
    var dkto: map<Address, u64>
    var nonce: map<Address, u64>

    constructor (l: Ledger)
      ensures bal == l.bal && frz == l.frz && pck == l.pck && dkto == l.dkto && nonce == l.nonce
    {
      bal, frz, pck, dkto, nonce := l.bal, l.frz, l.pck, l.dkto, l.nonce;
    }

    /** The ledger these writes amount to, with the remaining parts given. */
    function Ledger(height: u64, pckTotal: u64, dKtoTotal: u64, tokens: TokenDb): LedgerSpec.Ledger
      reads this
    {
      LedgerSpec.Ledger(height, bal, frz, pck, dkto, nonce, pckTotal, dKtoTotal, tokens)
    }

    method SetNonce(a: Address, n: u64)
      modifies this`nonce
      ensures nonce == old(nonce)[a := n]
    {
      nonce := nonce - {a};
      nonce := nonce[a := n];
    }

    method SetBalance(a: Address, b: u64)
      modifies this`bal
      ensures bal == old(bal)[a := b]
    {
      bal := bal - {a};
      bal := bal[a := b];
    }

    method SetFreezeBalance(a: Address, b: u64)
      modifies this`frz
      ensures frz == old(frz)[a := b]
    {
      frz := frz[a := b];
    }

    method SetMinerFee(to: Address, amount: u64)
      modifies this`bal
      ensures bal == old(bal)[to := Add(At(old(bal), to), amount)]
    {
      var toBalance := 0;
      if to in bal {
        toBalance := bal[to];
      }
      SetBalance(to, Add(toBalance, amount));
    }

    method SetToAccount(tx: Tx)
      modifies this`bal
      ensures bal == old(bal)[tx.to := Add(At(old(bal), tx.to), tx.amount)]
    {
      var balance := 0;
      if tx.to in bal {
        balance := bal[tx.to];
      }
      SetBalance(tx.to, Add(balance, tx.amount));
    }

    method SetAccount(tx: Tx)
      modifies this`bal
      ensures bal == CommitAccount(old(bal), tx)
    {
      var fromBalance := if tx.from in bal then bal[tx.from] else 0;
      if IsToken(tx) {
        fromBalance := Sub(fromBalance, Add(tx.amount, tx.fee));
      } else {
        fromBalance := Sub(fromBalance, tx.amount);
      }
      if tx.to !in bal {
        SetBalance(tx.to, 0);
      }
      var toBalance := Add(bal[tx.to], tx.amount);
      SetBalance(tx.from, fromBalance);
      SetBalance(tx.to, toBalance);
    }

    /** Gives up `ktoNum` coins for dKto and pck; fails when a number would leave its range. */
    method SetConvertPck(from: Address, ktoNum: u64, pckNum: u64) returns (ok: bool)
      modifies this`bal, this`pck, this`dkto
      ensures ok <==> At(old(pck), from) + pckNum < TWO64 && At(old(dkto), from) + ktoNum < TWO64
                      && ktoNum <= At(old(bal), from)
      ensures ok ==> && pck == old(pck)[from := At(old(pck), from) + pckNum]
                     && dkto == old(dkto)[from := At(old(dkto), from) + ktoNum]
                     && bal == old(bal)[from := At(old(bal), from) - ktoNum]
    {
      var pckBal := if from in pck then pck[from] else 0;
      if MAXUINT64 - pckBal < pckNum {
        return false;
      }
      pck := pck[from := pckBal + pckNum];
      var dKto := if from in dkto then dkto[from] else 0;
      if MAXUINT64 - dKto < ktoNum {
        return false;
      }
      dkto := dkto[from := dKto + ktoNum];
      var b := if from in bal then bal[from] else 0;
      if b < ktoNum {
        return false;
      }
      bal := bal[from := b - ktoNum];
      return true;
    }

    /** Takes `ktoNum` coins back for dKto and pck; fails when a number would leave its range. */
    method SetConvertKto(from: Address, ktoNum: u64, pckNum: u64) returns (ok: bool)
      modifies this`bal, this`pck, this`dkto
      ensures ok <==> pckNum <= At(old(pck), from) && ktoNum <= At(old(dkto), from)
                      && At(old(bal), from) + ktoNum < TWO64
      ensures ok ==> && pck == old(pck)[from := At(old(pck), from) - pckNum]
                     && dkto == old(dkto)[from := At(old(dkto), from) - ktoNum]
                     && bal == old(bal)[from := At(old(bal), from) + ktoNum]
    {
      var pckBal := if from in pck then pck[from] else 0;
      if pckBal < pckNum {
        return false;
      }
      pck := pck[from := pckBal - pckNum];
      var dKto := if from in dkto then dkto[from] else 0;
      if dKto < ktoNum {
        return false;
      }
      dkto := dkto[from := dKto - ktoNum];
      var b := if from in bal then bal[from] else 0;
      if MAXUINT64 - b < ktoNum {
        return false;
      }
      bal := bal[from := b + ktoNum];
      return true;
    }
  }

  class Blockchain {
    var height: u64
    var bal: map<Address, u64>
    var frz: map<Address, u64>
    var pck: map<Address, u64>
    var dkto: map<Address, u64>
    var nonce: map<Address, u64>
    var pckTotal: u64
    var dKtoTotal: u64
    var tokens: TokenDb
    const admin: Address

    constructor (admin: Address)
      ensures Stored() == Ledger(0, map[], map[], map[], map[], map[], 0, 0, map[]) && this.admin == admin
    {
      this.admin := admin;
      height, bal, frz, pck, dkto, nonce := 0, map[], map[], map[], map[], map[];
      pckTotal, dKtoTotal, tokens := 0, 0, map[];
    }

    function Stored(): Ledger
      reads this
    {
      Ledger(height, bal, frz, pck, dkto, nonce, pckTotal, dKtoTotal, tokens)
    }

    method GetBalance(a: Address) returns (b: u64)
      ensures b == At(bal, a)
    {
      b := if a in bal then bal[a] else 0;
    }

    method GetFreezeBalance(a: Address) returns (b: u64)
      ensures b == At(frz, a)
    {
      b := if a in frz then frz[a] else 0;
    }

    /** Available balance of an address not met before, unless more is frozen than stored. */
    method StoredAvailable(a: Address) returns (avail: Option<u64>)
      ensures avail == Avail(Stored(), NO_RESULTS, a)
    {
      var balance := GetBalance(a);
      var frozen := GetFreezeBalance(a);
      var short := Uint64SubOverflow(balance, [frozen]);
      assert SumOf([frozen]) == frozen;
      avail := if short then None else Some(balance - frozen);
    }

    method AvailableOf(a: Address, r: Results) returns (avail: Option<u64>)
      ensures avail == Avail(Stored(), r, a)
    {
      if a in r.avl {
        avail := Some(r.avl[a]);
      } else {
        avail := StoredAvailable(a);
      }
    }

    method DebitTransfer(tx: Tx, r: Results, avl: u64) returns (res: Option<Results>)
      ensures res == DryTransferFrom(r, avl, tx)
    {
      var short := Uint64SubOverflow(avl, [tx.amount, tx.fee]);
      assert SumOf([tx.amount, tx.fee]) == tx.amount + SumOf([tx.fee]) == tx.amount + tx.fee;
      if short {
        return None;
      }
      return Some(r.(avl := r.avl[tx.from := avl - tx.amount - tx.fee]));
    }

    method Convert(tx: Tx, r: Results, avl: u64) returns (res: Option<Results>)
      requires IsConvertPck(tx) || IsConvertKto(tx)
      ensures res == if IsConvertPck(tx) then DryConvertPck(r, avl, Convertible(Stored(), r, tx.from), tx)
                     else DryConvertKto(r, avl, Convertible(Stored(), r, tx.from), tx)
    {
      var pd := if tx.from in r.pd then r.pd[tx.from] else PckDkto(At(pck, tx.from), At(dkto, tx.from));
      if IsConvertPck(tx) {
        if avl < tx.ktoNum || MAXUINT64 - pd.pck < tx.pckNum || MAXUINT64 - pd.dkto < tx.ktoNum {
          return None;
        }
        return Some(r.(avl := r.avl[tx.from := avl - tx.ktoNum],
                       pd := r.pd[tx.from := PckDkto(pd.pck + tx.pckNum, pd.dkto + tx.ktoNum)]));
      } else {
        if pd.pck < tx.pckNum || pd.dkto < tx.ktoNum || MAXUINT64 - avl < tx.ktoNum {
          return None;
        }
        return Some(r.(avl := r.avl[tx.from := avl + tx.ktoNum],
                       pd := r.pd[tx.from := PckDkto(pd.pck - tx.pckNum, pd.dkto - tx.ktoNum)]));
      }
    }

    /** The sender's half of one transaction, on the result maps. */
    method DebitSender(tx: Tx, r: Results) returns (res: Option<Results>)
      ensures res == DrySender(Stored(), r, tx, admin)
    {
      KindMatchesClassifiers(tx, admin);
      if !(IsTransfer(tx) || IsConvertKto(tx) || IsConvertPck(tx)) {
        return Some(r);
      }
      var avail := AvailableOf(tx.from, r);
      if avail.None? {
        return None;
      }
      if IsTransfer(tx) {
        res := DebitTransfer(tx, r, avail.value);
      } else {
        res := Convert(tx, r, avail.value);
      }
    }

    /** The receiver's half of one transaction, on the result maps. */
    method CreditReceiver(tx: Tx, r: Results) returns (res: Option<Results>)
      ensures res == DryReceiver(Stored(), r, tx, admin)
      ensures res.Some? ==>
          if IsConvertPck(tx) || IsConvertKto(tx) then res.value == r
          else Credited(Stored(), r, res.value, tx.to, Credit(tx, admin))
    {
      hide Credited;
      if DryReceiver(Stored(), r, tx, admin).Some? {
        ReceiverCredited(Stored(), r, tx, admin);
      }
      KindMatchesClassifiers(tx, admin);
      if IsConvertKto(tx) || IsConvertPck(tx) {
        return Some(r);
      }
      var avail := AvailableOf(tx.to, r);
      if avail.None? {
        return None;
      }
      var avl := avail.value;
      var frozen := if tx.to in r.frz then r.frz[tx.to] else At(frz, tx.to);
      if IsCoinBase(tx) || IsTransfer(tx) {
        return Some(r.(avl := r.avl[tx.to := Add(avl, tx.amount)]));
      } else if IsFreeze(tx, admin) {
        if avl < tx.amount {
          return None;
        }
        return Some(r.(avl := r.avl[tx.to := avl - tx.amount], frz := r.frz[tx.to := Add(frozen, tx.amount)]));
      } else if IsUnfreeze(tx, admin) {
        if frozen < tx.amount {
          return None;
        }
        return Some(r.(avl := r.avl[tx.to := Add(avl, tx.amount)], frz := r.frz[tx.to := frozen - tx.amount]));
      } else {
        return None;
      }
    }

    /** The result maps of `b` over the stored ledger, or nothing when a transaction is refused. */
    method CalculationResults(b: Block) returns (res: Option<Results>)
      ensures res == DryRun(Stored(), NO_RESULTS, b.txs, admin)
    {
      var r := NO_RESULTS;
      for i := 0 to |b.txs|
        invariant DryRun(Stored(), NO_RESULTS, b.txs, admin) == DryRun(Stored(), r, b.txs[i..], admin)
      {
        var sent := DebitSender(b.txs[i], r);
        if sent.None? {
          return None;
        }
        var received := CreditReceiver(b.txs[i], sent.value);
        if received.None? {
          return None;
        }
        r := received.value;
      }
      return Some(r);
    }

    /** The leader's next block: the selected transactions and the coinbases that share out the reward. */
    method NewBlock(txs: seq<Tx>, minaddr: Address, ds: Address, cm: Address, qtj: Address,
                    vertify: (Order, Address) -> bool, now: int) returns (b: Block)
      ensures b.height == Add(height, 1)
      ensures |txs| <= |b.txs| && b.txs[..|txs|] == txs
      ensures Emission.Pays(b.txs[|txs|..], admin, Emission.Reward(b.height))
    {
      var next := Add(height, 1);
      var all := Emission.Distr(txs, minaddr, ds, cm, qtj, next, vertify, now, admin);
      b := Block(next, all);
    }

    /** Whether a follower accepts a block whose leader claims the results `claimed`. */
    method CheckResults(b: Block, claimed: Results) returns (ok: bool)
      requires |b.txs| > 0
      ensures ok <==> IsCoinBase(b.txs[|b.txs| - 1]) && DryRun(Stored(), NO_RESULTS, b.txs, admin) == Some(claimed)
    {
      if !IsCoinBase(b.txs[|b.txs| - 1]) {
        return false;
      }
      var res := CalculationResults(b);
      return res == Some(claimed);
    }

    /** Commits one transaction into the store transaction `t`, charging token fees to `miner`. */
    method CommitTx(t: StoreTxn, tx: Tx, miner: Address, pckTotal0: u64, dKtoTotal0: u64)
      returns (err: Option<CommitError>, pckTotal1: u64, dKtoTotal1: u64)
      modifies t, this`tokens
      ensures var s := CommitStep(frz, old(t.Ledger(height, pckTotal0, dKtoTotal0, tokens)),
                tx, miner, admin, RunScript);
              && (s.Failure? ==> err == Some(s.error) && tokens == old(tokens))
              && (s.Success? ==> err == None && s.value == t.Ledger(height, pckTotal1, dKtoTotal1, tokens))
    {
      KindMatchesClassifiers(tx, admin);
      err, pckTotal1, dKtoTotal1 := None, pckTotal0, dKtoTotal0;
      if IsCoinBase(tx) {
        t.SetToAccount(tx);
      } else if IsFreeze(tx, admin) || IsUnfreeze(tx, admin) {
        t.SetNonce(tx.from, Add(tx.nonce, 1));
        var frozenBal := GetFreezeBalance(tx.to);
        t.SetFreezeBalance(tx.to, if IsFreeze(tx, admin) then Add(tx.amount, frozenBal) else Sub(frozenBal, tx.amount));
      } else if IsConvertPck(tx) || IsConvertKto(tx) {
        err, pckTotal1, dKtoTotal1 := CommitConversion(t, tx, pckTotal0, dKtoTotal0);
      } else {
        err := CommitTransferTx(t, tx, miner, pckTotal0, dKtoTotal0);
      }
    }

    /** The branch for transfers: the script and the fee first, if it is a token transaction. */
    method CommitTransferTx(t: StoreTxn, tx: Tx, miner: Address, ghost pckTotal: u64,
            ghost dKtoTotal: u64) returns (err: Option<CommitError>)
      modifies t, this`tokens
      ensures var s := CommitTransfer(old(t.Ledger(height, pckTotal, dKtoTotal, tokens)), tx, miner, RunScript);
              && (s.Failure? ==> err == Some(s.error) && tokens == old(tokens))
              && (s.Success? ==> err == None && s.value == t.Ledger(height, pckTotal, dKtoTotal, tokens))
    {
      if IsToken(tx) {
        var flushed := RunScript(tokens, tx.script, tx.from);
        if flushed.None? {
          return Some(ScriptRejected);
        }
        tokens := flushed.value;
        t.SetMinerFee(miner, tx.fee);
      }
      t.SetNonce(tx.from, Add(tx.nonce, 1));
      t.SetAccount(tx);
      return None;
    }

    method CommitConversion(t: StoreTxn, tx: Tx, pckTotal0: u64, dKtoTotal0: u64)
      returns (err: Option<CommitError>, pckTotal1: u64, dKtoTotal1: u64)
      requires IsConvertPck(tx) || IsConvertKto(tx)
      modifies t
      ensures var w := old(t.Ledger(height, pckTotal0, dKtoTotal0, tokens));
              var s := if IsConvertPck(tx) then CommitConvertPck(w, tx) else CommitConvertKto(w, tx);
              && (s.Failure? ==> err == Some(s.error))
              && (s.Success? ==> err == None && s.value == t.Ledger(height, pckTotal1, dKtoTotal1, tokens))
    {
      hide KindOf;
      err, pckTotal1, dKtoTotal1 := None, pckTotal0, dKtoTotal0;
      t.SetNonce(tx.from, Add(tx.nonce, 1));
      if IsConvertPck(tx) {
        var ok := t.SetConvertPck(tx.from, tx.ktoNum, tx.pckNum);
        if !ok {
          err := Some(ConvertOverflow);
        } else if MAXUINT64 - pckTotal0 < tx.pckNum && MAXUINT64 - dKtoTotal0 < tx.ktoNum {
          err := Some(TotalOverflow);
        } else {
          pckTotal1, dKtoTotal1 := Add(pckTotal0, tx.pckNum), Add(dKtoTotal0, tx.ktoNum);
        }
      } else {
        var ok := t.SetConvertKto(tx.from, tx.ktoNum, tx.pckNum);
        if !ok {
          err := Some(ConvertOverflow);
        } else if pckTotal0 < tx.pckNum && dKtoTotal0 < tx.ktoNum {
          err := Some(TotalOverflow);
        } else {
          pckTotal1, dKtoTotal1 := Sub(pckTotal0, tx.pckNum), Sub(dKtoTotal0, tx.ktoNum);
        }
      }
    }

    /** Commits the transactions in order, stopping at the first failure. */
    method CommitTxs(t: StoreTxn, txs: seq<Tx>, miner: Address)
      returns (err: Option<CommitError>, pckSum: u64, dKtoSum: u64)
      requires t.Ledger(height, pckTotal, dKtoTotal, tokens) == Stored()
      modifies t, this`tokens
      ensures tokens == TokensLeft(old(frz), old(Stored()), txs, miner, admin, RunScript)
      ensures var s := CommitRun(old(frz), old(Stored()), txs, miner, admin, RunScript);
              && (s.Failure? ==> err == Some(s.error))
              && (s.Success? ==> err == None && s.value == t.Ledger(height, pckSum, dKtoSum, tokens))
    {
      err, pckSum, dKtoSum := None, pckTotal, dKtoTotal;
      ghost var result := CommitRun(frz, Stored(), txs, miner, admin, RunScript);
      ghost var left := TokensLeft(frz, Stored(), txs, miner, admin, RunScript);
      for i := 0 to |txs|
        invariant err == None
        invariant result == CommitRun(frz, t.Ledger(height, pckSum, dKtoSum, tokens), txs[i..], miner, admin, RunScript)
        invariant left == TokensLeft(frz, t.Ledger(height, pckSum, dKtoSum, tokens), txs[i..], miner, admin, RunScript)
      {
        err, pckSum, dKtoSum := CommitTx(t, txs[i], miner, pckSum, dKtoSum);
        assert txs[i..][1..] == txs[i + 1..];
        if err.Some? {
          return;
        }
      }
    }

    /**
     * Commits the block at the next height. When a transaction fails nothing is stored,
     * except that the token scripts that had already run have changed the token store.
     */
    method AddBlock(b: Block, miner: Address) returns (err: Option<CommitError>)
      modifies this
      ensures tokens == if b.height != Add(old(height), 1) then old(tokens)
                        else TokensLeft(old(frz), old(Stored()), b.txs, miner, admin, RunScript)
      ensures var s := CommitBlock(old(Stored()), b, miner, admin, RunScript);
              && (s.Success? ==> err == None && Stored() == s.value)
              && (s.Failure? ==> err == Some(s.error) && Stored() == old(Stored()).(tokens := tokens))
    {
      hide CommitRun, CommitStep, TokensLeft;
      var next := Add(height, 1);
      if b.height != next {
        return Some(HeightMismatch);
      }
      var t := new StoreTxn(Stored());
      var pckSum, dKtoSum;
      err, pckSum, dKtoSum := CommitTxs(t, b.txs, miner);
      if err == None {
        height, pckTotal, dKtoTotal := next, pckSum, dKtoSum;
        bal, frz, pck, dkto, nonce := t.bal, t.frz, t.pck, t.dkto, t.nonce;
      }
    }
  }
}
