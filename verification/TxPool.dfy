/** The pool object: a list of transactions that `Add`, `Pending` and `Filter` change in place. */
module TxPool {
  import opened U64
  import opened Wrappers
  import opened Transactions
  import opened LedgerSpec
  import opened PendingSpec
  import opened PoolProofs
  import opened PendingKeeps

  const MIN_AMOUNT: u64 := 500000

  /** Checks that need cryptography: well-formed addresses and signatures. */
  datatype Crypto = Crypto(address: Address -> bool, signature: Tx -> bool)

  /** Whether a transaction may enter the pool. */
  function Verified(l: Ledger, tx: Tx, admin: Address, c: Crypto): bool {
    var converts := IsConvertKto(tx) || IsConvertPck(tx);
    var fromBal, fromFrz, toBal, toFrz := At(l.bal, tx.from), At(l.frz, tx.from), At(l.bal, tx.to), At(l.frz, tx.to);
    && (IsCoinBase(tx) || c.address(tx.from))
    && (converts || c.address(tx.to))
    && (IsCoinBase(tx) || ChainNonce(l, tx.from) <= tx.nonce)
    && (IsCoinBase(tx) || c.signature(tx))
    && (if IsCoinBase(tx) then true
        else if IsFreeze(tx, admin) then tx.amount >= MIN_AMOUNT && toFrz + tx.amount <= toBal
        else if IsUnfreeze(tx, admin) then tx.amount >= MIN_AMOUNT && tx.amount <= toFrz
        else if IsTransfer(tx) then
          && tx.amount >= MIN_AMOUNT && fromFrz + tx.amount + tx.fee <= fromBal
          && (IsToken(tx) ==> tx.fee >= MIN_AMOUNT)
        else if IsConvertKto(tx) then At(l.pck, tx.from) >= tx.pckNum && At(l.dkto, tx.from) >= tx.ktoNum
        else if IsConvertPck(tx) then fromFrz + tx.ktoNum <= fromBal
        else true)
  }

  // ------------------------------------------------------------------- admission

  /** Signed by a well-formed sender, with a nonce that the chain has not passed. */
  predicate Authentic(l: Ledger, tx: Tx, c: Crypto) {
    c.signature(tx) && c.address(tx.from) && ChainNonce(l, tx.from) <= tx.nonce
  }

  /** The stored amounts of the addresses involved cover it, and it is not too small. */
  predicate Affordable(l: Ledger, tx: Tx, admin: Address) {
    match KindOf(tx, admin)
    case Transfer =>
      && tx.amount >= 500000 && tx.amount + tx.fee + At(l.frz, tx.from) <= At(l.bal, tx.from)
      && (IsToken(tx) ==> tx.fee >= 500000)
    case Freeze => tx.amount >= 500000 && tx.amount + At(l.frz, tx.to) <= At(l.bal, tx.to)
    case Unfreeze => 500000 <= tx.amount <= At(l.frz, tx.to)
    case ConvertPck => tx.ktoNum + At(l.frz, tx.from) <= At(l.bal, tx.from)
    case ConvertKto => tx.pckNum <= At(l.pck, tx.from) && tx.ktoNum <= At(l.dkto, tx.from)
    case Coinbase => true
    case Unknown => true
  }

  /** What the pool admits: coinbases to well-formed addresses, and whatever is authentic and covered. */
  predicate Admissible(l: Ledger, tx: Tx, admin: Address, c: Crypto) {
    var k := KindOf(tx, admin);
    && (k != Coinbase ==> Authentic(l, tx, c) && Affordable(l, tx, admin))
    && (k != ConvertPck && k != ConvertKto ==> c.address(tx.to))
  }

  lemma VerifiedIff(l: Ledger, tx: Tx, admin: Address, c: Crypto)
    ensures Verified(l, tx, admin, c) <==> Admissible(l, tx, admin, c)
  {
    KindMatchesClassifiers(tx, admin);
  }

  /** The pool and the sender have room for it, and no pooled transaction has its sender and nonce. */
  ghost predicate HasRoom(list: seq<Tx>, tx: Tx) {
    && |list| <= 3000
    && (forall i :: 0 <= i < |list| ==> !(list[i].from == tx.from && list[i].nonce == tx.nonce))
    && CountFrom(list, tx.from) < 1000
  }

  /**
   * An admissible transaction with the next nonce of its sender is made ready when it is the first to be popped,
   * if it is a transfer or an unfreeze; a freeze, if its fee is covered too; a conversion, if the selection sees no
   * overflow in it.
   */
  lemma AdmissibleIsReady(l: Ledger, tx: Tx, admin: Address, c: Crypto)
    requires NoneOverdrawn(l) && Admissible(l, tx, admin, c) && tx.nonce == ChainNonce(l, tx.from)
    requires KindOf(tx, admin) != Coinbase && KindOf(tx, admin) != Unknown
    ensures Select(l, NOTHING, tx, admin).Some?
    ensures Select(l, NOTHING, tx, admin).value.ready == [tx] <==>
            match KindOf(tx, admin)
            case Transfer => true
            case Unfreeze => true
            case Freeze => tx.amount + tx.fee + At(l.frz, tx.to) <= At(l.bal, tx.to)
            case ConvertPck => At(l.pck, tx.from) + tx.pckNum < TWO64 && At(l.dkto, tx.from) + tx.ktoNum < TWO64
            case _ =>
              && At(l.dkto, tx.from) + tx.ktoNum < TWO64
              && At(l.bal, tx.from) - At(l.frz, tx.from) + tx.ktoNum < TWO64
  {
    KindMatchesClassifiers(tx, admin);
    NeverAbandoned(l, NOTHING, tx, admin);
    hide Select;
    SelectDecides(l, NOTHING, tx, admin);
    assert At(l.frz, Account(tx, admin)) <= At(l.bal, Account(tx, admin));
    assert [] + [tx] == [tx];
  }

  lemma PartsWithin(ready: multiset<Tx>, waiting: multiset<Tx>, order: multiset<Tx>, rest: multiset<Tx>)
    requires ready + waiting <= order
    ensures ready + (rest + waiting) <= order + rest
    ensures ready <= order + rest && rest + waiting <= order + rest
  {
    forall t ensures (ready + (rest + waiting))[t] <= (order + rest)[t] {
      assert (ready + waiting)[t] <= order[t];
    }
  }

  /** What is selected and what is left in the pool are together part of the pool. */
  lemma SelectionWithin(l: Ledger, order: seq<Tx>, rest: seq<Tx>, pool: seq<Tx>, admin: Address)
    requires multiset(order) + multiset(rest) == multiset(pool)
    ensures var s := SelectAll(l, NOTHING, order, admin).s;
            && multiset(s.ready) + multiset(rest + s.waiting) <= multiset(pool)
            && multiset(s.ready) + multiset(rest) <= multiset(pool)
            && (WithinLimits(pool) ==> WithinLimits(s.ready) && WithinLimits(rest + s.waiting) && WithinLimits(rest))
  {
    SelectAllContents(l, NOTHING, order, admin);
    var s := SelectAll(l, NOTHING, order, admin).s;
    PartsWithin(multiset(s.ready), multiset(s.waiting), multiset(order), multiset(rest));
    assert multiset(rest + s.waiting) == multiset(rest) + multiset(s.waiting);
    if WithinLimits(pool) {
      LimitsMonotone(s.ready, pool);
      LimitsMonotone(rest + s.waiting, pool);
      LimitsMonotone(rest, pool);
    }
  }

  lemma StartSelected(l: Ledger, admin: Address)
    ensures SelectAll(l, NOTHING, [], admin) == Outcome(NOTHING, false) && NOTHING.ready == []
  {
  }

  lemma AtMostOneReady(l: Ledger, s: Selection, tx: Tx, admin: Address)
    requires Select(l, s, tx, admin).Some?
    ensures |Select(l, s, tx, admin).value.ready| <= |s.ready| + 1
  {
    SelectProgress(l, s, tx, admin);
  }

  lemma FilteredWithin(txs: seq<Tx>, block: seq<Tx>, now: int)
    ensures WithinLimits(txs) ==> WithinLimits(Filtered(txs, block, now))
  {
    FilteredKeeps(txs, block, now);
    if WithinLimits(txs) {
      LimitsMonotone(Filtered(txs, block, now), txs);
    }
  }

  /** What is wanted stays; without unwanted neighbours nothing else does. */
  lemma FilteredRight(txs: seq<Tx>, block: seq<Tx>, now: int)
    ensures forall t :: t in txs && Wanted(t, block, now) ==> t in Filtered(txs, block, now)
    ensures NoBadNeighbours(txs, block, now) ==>
              forall t, b :: t in Filtered(txs, block, now) && b in block ==>
                !(t.from == b.from && t.nonce == b.nonce) && now - t.time <= 10
  {
    hide *;
    FilteredKeeps(txs, block, now);
    FilteredCleanIff(txs, block, now);
    forall t | t in txs && Wanted(t, block, now) ensures t in Filtered(txs, block, now) {
      WantedIff(t, block, now);
    }
    if NoBadNeighbours(txs, block, now) {
      CleanMeans(Filtered(txs, block, now), block, now);
    }
  }

  /** What the filter will leave when it has come to index `j`, possibly one past the end. */
  function FilteredFrom(txs: seq<Tx>, j: nat, block: seq<Tx>, now: int): seq<Tx> {
    if j < |txs| then txs[..j] + Filtered(txs[j..], block, now) else txs
  }

  lemma StartFiltered(txs: seq<Tx>, block: seq<Tx>, now: int)
    ensures FilteredFrom(txs, 0, block, now) == Filtered(txs, block, now)
  {
    assert txs[0..] == txs && txs[..0] + Filtered(txs, block, now) == Filtered(txs, block, now);
  }

  lemma DoneFiltered(txs: seq<Tx>, j: nat, block: seq<Tx>, now: int)
    requires j >= |txs|
    ensures FilteredFrom(txs, j, block, now) == txs
  {
  }

  lemma FilterKeeps(txs: seq<Tx>, j: nat, block: seq<Tx>, now: int)
    requires j < |txs| && !Unwanted(txs[j], block, now)
    ensures FilteredFrom(txs, j, block, now) == FilteredFrom(txs, j + 1, block, now)
  {
    var rest := txs[j..];
    assert rest[1..] == txs[j + 1..];
    assert FilteredFrom(txs, j, block, now) == txs[..j] + ([txs[j]] + Filtered(txs[j + 1..], block, now));
    assert txs[..j + 1] == txs[..j] + [txs[j]];
    if j + 1 == |txs| {
      assert txs[..j + 1] == txs;
    }
  }

  lemma FilteredSkips(rest: seq<Tx>, block: seq<Tx>, now: int)
    requires rest != [] && Unwanted(rest[0], block, now)
    ensures Filtered(rest, block, now) ==
              if |rest| == 1 then [] else [rest[1]] + Filtered(rest[2..], block, now)
  {
    hide Unwanted;
  }

  lemma FilterRemoves(txs: seq<Tx>, j: nat, block: seq<Tx>, now: int)
    requires j < |txs| && Unwanted(txs[j], block, now)
    ensures FilteredFrom(txs, j, block, now) == FilteredFrom(txs[..j] + txs[j + 1..], j + 1, block, now)
  {
    hide Filtered, Unwanted;
    var rest, cut := txs[j..], txs[..j] + txs[j + 1..];
    FilteredSkips(rest, block, now);
    if |rest| == 1 {
      assert cut == txs[..j] == txs[..j] + [];
    } else {
      assert rest[1] == cut[j] && rest[2..] == cut[j + 1..] && cut[..j + 1] == txs[..j] + [cut[j]];
      Regroup(txs[..j], cut[j], Filtered(rest[2..], block, now));
      if j + 1 == |cut| {
        FilteredNone(block, now);
        assert cut[..j + 1] == cut && rest[2..] == [];
      }
    }
  }

  lemma FilteredNone(block: seq<Tx>, now: int)
    ensures Filtered([], block, now) == []
  {
  }

  lemma Regroup(a: seq<Tx>, x: Tx, b: seq<Tx>)
    ensures a + ([x] + b) == a + [x] + b && a + [x] + [] == a + [x]
  {
  }

  class TxPool {
    var list: seq<Tx>

    constructor ()
      ensures list == []
    {
      list := [];
    }

    method Check(from: Address, nonce: u64) returns (ok: bool)
      ensures ok <==> (forall i :: 0 <= i < |list| ==> !(list[i].from == from && list[i].nonce == nonce))
                      && CountFrom(list, from) < 1000
    {
      var count := 0;
      for i := 0 to |list|
        invariant count == CountFrom(list, from) - CountFrom(list[i..], from)
        invariant forall j :: 0 <= j < i ==> !(list[j].from == from && list[j].nonce == nonce)
      {
        assert list[i..][1..] == list[i + 1..];
        if list[i].from == from {
          if list[i].nonce == nonce {
            return false;
          }
          count := count + 1;
        }
      }
      return count < MAX_ADDR_COUNT;
    }

    /** Adds an admissible transaction that there is room for, and nothing else. */
    method Add(tx: Tx, l: Ledger, admin: Address, c: Crypto) returns (ok: bool)
      modifies this
      ensures list == if ok then old(list) + [tx] else old(list)
      ensures ok <==> HasRoom(old(list), tx) && Admissible(l, tx, admin, c)
      ensures old(WithinLimits(list)) ==> WithinLimits(list)
    {
      VerifiedIff(l, tx, admin, c);
      hide Verified, Admissible;
      if |list| > POOL_LIST_RANGE {
        return false;
      }
      if !Verified(l, tx, admin, c) {
        return false;
      }
      var fits := Check(tx.from, tx.nonce);
      if !fits {
        return false;
      }
      list := list + [tx];
      forall a ensures CountFrom(list, a) == CountFrom(old(list), a) + (if tx.from == a then 1 else 0) {
        CountRemove(list, |list| - 1, a);
        assert Without(list, |list| - 1) == old(list);
      }
      return true;
    }

    /** Pops a transaction, whichever the heap order puts first. */
    method Pop() returns (tx: Tx)
      requires list != []
      modifies this
      ensures multiset(old(list)) == multiset(list) + multiset{tx} && |list| == |old(list)| - 1
    {
      var i :| 0 <= i < |list|;
      tx := list[i];
      RemoveContents(list, i);
      list := list[..i] + list[i + 1..];
    }

    /**
     * Selects transactions until the block is full or the pool empty, then puts the waiting
     * ones back. `order` is the order in which the pool happened to pop them, and `at[i]` how many
     * were ready when `order[i]` was popped.
     */
    method Pending(l: Ledger, admin: Address) returns (ready: seq<Tx>, ghost order: seq<Tx>, ghost at: seq<nat>)
      modifies this
      ensures ready == SelectAll(l, NOTHING, order, admin).s.ready && |ready| <= 500
      ensures multiset(ready) + multiset(list) <= multiset(old(list))
      ensures old(WithinLimits(list)) ==> WithinLimits(ready) && WithinLimits(list)
      ensures Pacing(order, ready, at)
      ensures NoneOverdrawn(l) ==>
                && multiset(list) + multiset(order) ==
                     multiset(old(list)) + multiset(KeptBack(l, order, ready, at, admin))
                && (|ready| < 500 ==> list == KeptBack(l, order, ready, at, admin))
      ensures NoneOverdrawn(l) ==>
                forall i :: 0 <= i < |order| ==>
                  Ahead(order[i], RunningNonce(l, ready[..at[i]], order[i].from), admin) ==> order[i] in list
    {
      assert READY_TOTAL == 500;
      hide *;
      var s := NOTHING;
      order, at := [], [0];
      StartPaced(l, admin);
      StartSelected(l, admin);
      ghost var pool := list;
      while |list| != 0 && |s.ready| < READY_TOTAL
        invariant SelectAll(l, NOTHING, order, admin) == Outcome(s, false)
        invariant multiset(order) + multiset(list) == multiset(pool)
        invariant |s.ready| <= 500
        invariant Paced(l, s, order, at, admin)
        decreases |list|
      {
        var tx := Pop();
        SelectAllSnoc(l, NOTHING, order, tx, admin);
        var next := Select(l, s, tx, admin);
        if next.None? {
          LastPopped(l, s, order, at, tx, admin);
          order, at := order + [tx], at + [|s.ready|];
          SelectionWithin(l, order, list, pool, admin);
          if NoneOverdrawn(l) {
            NeverAbandoned(l, s, tx, admin);
          }
          return s.ready, order, at;
        }
        AtMostOneReady(l, s, tx, admin);
        PopKeepsBack(l, s, order, at, tx, admin);
        s, order, at := next.value, order + [tx], at + [|next.value.ready|];
      }
      SelectionWithin(l, order, list, pool, admin);
      PacedPool(l, s, order, at, admin, list, pool);
      list := list + s.waiting;
      ready := s.ready;
    }

    method IsUnwanted(t: Tx, block: seq<Tx>, now: int) returns (gone: bool)
      ensures gone == Unwanted(t, block, now)
    {
      for k := 0 to |block|
        invariant forall i :: 0 <= i < k ==> !Clashes(t, block[i], now)
      {
        if Clashes(t, block[k], now) {
          return true;
        }
      }
      return false;
    }

    /** Removes transactions that clash with the block or are too old, from the front. */
    method Filter(block: seq<Tx>, now: int)
      modifies this
      ensures list == Filtered(old(list), block, now)
      ensures forall t :: t in old(list) && Wanted(t, block, now) ==> t in list
      ensures old(NoBadNeighbours(list, block, now)) ==>
                forall t, b :: t in list && b in block ==>
                  !(t.from == b.from && t.nonce == b.nonce) && now - t.time <= 10
      ensures old(WithinLimits(list)) ==> WithinLimits(list)
    {
      hide *;
      FilteredWithin(list, block, now);
      FilteredRight(list, block, now);
      StartFiltered(list, block, now);
      var txs, j := list, 0;
      while j < |txs|
        invariant list == old(list)
        invariant FilteredFrom(txs, j, block, now) == FilteredFrom(list, 0, block, now)
        decreases |txs| - j
      {
        var gone := IsUnwanted(txs[j], block, now);
        if gone {
          FilterRemoves(txs, j, block, now);
          txs := txs[..j] + txs[j + 1..];
        } else {
          FilterKeeps(txs, j, block, now);
        }
        j := j + 1;
      }
      DoneFiltered(txs, j, block, now);
      list := txs;
    }
  }
}
