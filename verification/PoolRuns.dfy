/** Runs of the pool: whatever it holds or makes ready was authentic when it came in. */
module PoolRuns {
  import opened U64
  import opened Wrappers
  import opened Transactions
  import opened LedgerSpec
  import opened PendingSpec
  import opened PoolProofs
  import opened PendingKeeps
  import opened TxPool

  /** An add on some ledger, a selection on some ledger with what it made ready, or a filter after some block. */
  datatype Step =
    | Adds(tx: Tx, l: Ledger)
    | Pends(l: Ledger, order: seq<Tx>, ready: seq<Tx>)
    | Filters(block: seq<Tx>, now: int)

  /** What the operations of the pool promise of its list before and after. */
  ghost predicate Moves(before: seq<Tx>, after: seq<Tx>, step: Step, admin: Address, c: Crypto) {
    match step
    case Adds(tx, l) =>
      after == if HasRoom(before, tx) && Verified(l, tx, admin, c) then before + [tx] else before
    case Pends(l, order, ready) =>
      && ready == SelectAll(l, NOTHING, order, admin).s.ready
      && multiset(ready) + multiset(after) <= multiset(before)
    case Filters(block, now) => after == Filtered(before, block, now)
  }

  /** A run from the empty pool. */
  ghost predicate Run(lists: seq<seq<Tx>>, steps: seq<Step>, admin: Address, c: Crypto) {
    && |lists| == |steps| + 1 && lists[0] == []
    && forall t :: 0 <= t < |steps| ==> Moves(lists[t], lists[t + 1], steps[t], admin, c)
  }

  /** `tx` came in by the step `u`, as a coinbase, or authentic and covered on the ledger of that moment. */
  ghost predicate CameIn(steps: seq<Step>, u: nat, tx: Tx, admin: Address, c: Crypto) {
    && u < |steps| && steps[u].Adds? && steps[u].tx == tx
    && (IsCoinBase(tx) ||
        (&& c.signature(tx) && c.address(tx.from) && ChainNonce(steps[u].l, tx.from) <= tx.nonce
         && Affordable(steps[u].l, tx, admin)))
  }

  lemma MemberOfPart(xs: seq<Tx>, ys: seq<Tx>, tx: Tx)
    requires multiset(xs) <= multiset(ys) && tx in xs
    ensures tx in ys
  {
    assert tx in multiset(xs);
  }

  lemma PartOfBoth(xs: seq<Tx>, ys: seq<Tx>, zs: seq<Tx>)
    requires multiset(xs) + multiset(ys) <= multiset(zs)
    ensures multiset(xs) <= multiset(zs) && multiset(ys) <= multiset(zs)
  {
    forall t ensures multiset(xs)[t] <= multiset(zs)[t] && multiset(ys)[t] <= multiset(zs)[t] {
      assert (multiset(xs) + multiset(ys))[t] <= multiset(zs)[t];
    }
  }

  /** Whatever is in the pool at some moment of a run came in before. */
  lemma {:induction false} PooledCameIn(lists: seq<seq<Tx>>, steps: seq<Step>,
            admin: Address, c: Crypto, t: nat, tx: Tx)
    returns (u: nat)
    requires Run(lists, steps, admin, c) && t < |lists| && tx in lists[t]
    ensures u < t && CameIn(steps, u, tx, admin, c)
  {
    hide Verified, Admissible, SelectAll, Filtered, HasRoom;
    var before, after, step := lists[t - 1], lists[t], steps[t - 1];
    assert Moves(lists[t - 1], lists[t - 1 + 1], step, admin, c);
    if tx in before {
      u := PooledCameIn(lists, steps, admin, c, t - 1, tx);
    } else {
      match step
      case Adds(_, l) =>
        VerifiedIsAuthentic(l, tx, admin, c);
        u := t - 1;
      case Pends(_, _, ready) =>
        PartOfBoth(ready, after, before);
        MemberOfPart(after, before, tx);
      case Filters(block, now) =>
        FilteredKeeps(before, block, now);
        MemberOfPart(after, before, tx);
    }
  }

  lemma VerifiedIsAuthentic(l: Ledger, tx: Tx, admin: Address, c: Crypto)
    ensures Verified(l, tx, admin, c) ==>
              IsCoinBase(tx) ||
              (&& c.signature(tx) && c.address(tx.from) && ChainNonce(l, tx.from) <= tx.nonce
               && Affordable(l, tx, admin))
  {
    KindMatchesClassifiers(tx, admin);
    VerifiedIff(l, tx, admin, c);
  }

  /** So whatever is made ready came in before, and no two ready transactions have one sender and nonce. */
  lemma ReadyCameIn(lists: seq<seq<Tx>>, steps: seq<Step>, admin: Address, c: Crypto, t: nat, tx: Tx)
    returns (u: nat)
    requires Run(lists, steps, admin, c) && t < |steps| && steps[t].Pends? && tx in steps[t].ready
    ensures u < t && CameIn(steps, u, tx, admin, c)
  {
    hide SelectAll, CameIn;
    assert Moves(lists[t], lists[t + 1], steps[t], admin, c);
    PartOfBoth(steps[t].ready, lists[t + 1], lists[t]);
    MemberOfPart(steps[t].ready, lists[t], tx);
    u := PooledCameIn(lists, steps, admin, c, t, tx);
  }

  lemma AddKeepsLimits(list: seq<Tx>, tx: Tx)
    requires WithinLimits(list) && HasRoom(list, tx)
    ensures WithinLimits(list + [tx])
  {
    var longer := list + [tx];
    forall a ensures CountFrom(longer, a) == CountFrom(list, a) + (if tx.from == a then 1 else 0) {
      CountRemove(longer, |list|, a);
      assert Without(longer, |list|) == list;
    }
  }

  /** At every moment the limits hold. */
  lemma {:induction false} RunKeepsLimits(lists: seq<seq<Tx>>, steps: seq<Step>, admin: Address, c: Crypto, t: nat)
    requires Run(lists, steps, admin, c) && t < |lists|
    ensures WithinLimits(lists[t])
  {
    hide Verified, SelectAll, Filtered, HasRoom;
    if t > 0 {
      RunKeepsLimits(lists, steps, admin, c, t - 1);
      var before, after, step := lists[t - 1], lists[t], steps[t - 1];
      assert Moves(lists[t - 1], lists[t - 1 + 1], step, admin, c);
      match step
      case Adds(tx, l) =>
        if HasRoom(before, tx) {
          AddKeepsLimits(before, tx);
        }
      case Pends(_, _, ready) =>
        PartOfBoth(ready, after, before);
        LimitsMonotone(after, before);
      case Filters(block, now) => FilteredWithin(before, block, now);
    }
  }

  /** A signed and covered transfer between addresses, with a nonce not passed, comes in while there is room. */
  lemma GoodTransferComesIn(before: seq<Tx>, after: seq<Tx>, tx: Tx, l: Ledger, admin: Address, c: Crypto)
    requires Moves(before, after, Adds(tx, l), admin, c) && HasRoom(before, tx)
    requires IsTransfer(tx) && c.signature(tx) && c.address(tx.from) && c.address(tx.to)
    requires ChainNonce(l, tx.from) <= tx.nonce && tx.amount >= 500000 && (IsToken(tx) ==> tx.fee >= 500000)
    requires tx.amount + tx.fee + At(l.frz, tx.from) <= At(l.bal, tx.from)
    ensures after == before + [tx]
  {
    KindMatchesClassifiers(tx, admin);
    VerifiedIff(l, tx, admin, c);
  }
}
