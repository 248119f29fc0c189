/** What the pool keeps: ready nonces run consecutively, nothing is invented, limits hold. */
module PoolProofs {
  import opened U64
  import opened Wrappers
  import opened Transactions
  import opened LedgerSpec
  import opened PendingSpec

  const POOL_LIST_RANGE := 3000
  const MAX_ADDR_COUNT := 1000

  // ---------------------------------------------------------------- nonces

  /** The nonces of the transactions of `a` in `txs`, in order. */
  function NoncesOf(txs: seq<Tx>, a: Address): seq<u64> {
    if txs == [] then []
    else
      var last := txs[|txs| - 1];
      NoncesOf(txs[..|txs| - 1], a) + (if last.from == a then [last.nonce] else [])
  }

  /** The nonce `k` steps after `first`. */
  function NonceAfter(first: u64, k: nat): u64 {
    if k == 0 then first else Add(NonceAfter(first, k - 1), 1)
  }

  lemma {:induction false} NonceAfterWraps(first: u64, k: nat)
    ensures NonceAfter(first, k) == (first + k) % TWO64
  {
    if k > 0 {
      NonceAfterWraps(first, k - 1);
      ResidueStep(first + (k - 1), NonceAfter(first, k - 1), 1);
    }
  }

  /** `ns` counts up by one from `first`. */
  ghost predicate Consecutive(ns: seq<u64>, first: u64) {
    forall k :: 0 <= k < |ns| ==> ns[k] == NonceAfter(first, k)
  }

  ghost predicate NoncesInOrder(l: Ledger, s: Selection, a: Address) {
    && Consecutive(NoncesOf(s.ready, a), ChainNonce(l, a))
    && SelNonce(l, s, a) == NonceAfter(ChainNonce(l, a), |NoncesOf(s.ready, a)|)
  }

  lemma StepNonces(l: Ledger, s: Selection, s': Selection, tx: Tx, a: Address)
    requires NoncesInOrder(l, s, a)
    requires Progress(s, s', tx, SelNonce(l, s, tx.from))
    ensures NoncesInOrder(l, s', a)
  {
    var ready := s.ready + [tx];
    assert ready[..|ready| - 1] == s.ready;
  }

  lemma {:induction false} SelectAllNonces(l: Ledger, s: Selection, order: seq<Tx>, admin: Address, a: Address)
    requires NoncesInOrder(l, s, a)
    ensures NoncesInOrder(l, SelectAll(l, s, order, admin).s, a)
    decreases |order|
  {
    if order != [] {
      var next := Select(l, s, order[0], admin);
      if next.Some? {
        SelectProgress(l, s, order[0], admin);
        StepNonces(l, s, next.value, order[0], a);
        SelectAllNonces(l, next.value, order[1..], admin, a);
      }
    }
  }

  /** Whatever the order of popping, each sender's ready nonces start at its chain nonce and have no gap. */
  lemma ReadyNoncesConsecutive(l: Ledger, order: seq<Tx>, admin: Address, a: Address)
    ensures Consecutive(NoncesOf(SelectAll(l, NOTHING, order, admin).s.ready, a), ChainNonce(l, a))
  {
    SelectAllNonces(l, NOTHING, order, admin, a);
  }

  // ---------------------------------------------------------------- contents

  /** Ready and waiting transactions are distinct occurrences of popped ones. */
  lemma {:induction false} SelectAllContents(l: Ledger, s: Selection, order: seq<Tx>, admin: Address)
    ensures var s' := SelectAll(l, s, order, admin).s;
            multiset(s'.ready) + multiset(s'.waiting) <= multiset(s.ready) + multiset(s.waiting) + multiset(order)
    decreases |order|
  {
    if order != [] {
      assert order == [order[0]] + order[1..];
      var next := Select(l, s, order[0], admin);
      if next.Some? {
        SelectProgress(l, s, order[0], admin);
        SelectAllContents(l, next.value, order[1..], admin);
      }
    }
  }

  lemma {:induction false} SelectAllSnoc(l: Ledger, s: Selection, order: seq<Tx>, tx: Tx, admin: Address)
    ensures var out := SelectAll(l, s, order, admin);
            SelectAll(l, s, order + [tx], admin) ==
              if out.abandoned then out
              else
                var next := Select(l, out.s, tx, admin);
                if next.None? then Outcome(out.s, true) else Outcome(next.value, false)
    decreases |order|
  {
    if order == [] {
      assert order + [tx] == [tx] && [tx][1..] == [];
    } else {
      assert (order + [tx])[1..] == order[1..] + [tx];
      var next := Select(l, s, order[0], admin);
      if next.Some? {
        SelectAllSnoc(l, next.value, order[1..], tx, admin);
      }
    }
  }

  // ------------------------------------------------------------------ limits

  function CountFrom(txs: seq<Tx>, a: Address): nat {
    if txs == [] then 0 else (if txs[0].from == a then 1 else 0) + CountFrom(txs[1..], a)
  }

  predicate SameKey(t: Tx, u: Tx) {
    t.from == u.from && t.nonce == u.nonce
  }

  ghost predicate KeysUnique(txs: seq<Tx>) {
    forall i, j :: 0 <= i < j < |txs| ==> !SameKey(txs[i], txs[j])
  }

  /** Sender and nonce identify a transaction, and neither a sender nor the pool has too many. */
  ghost predicate WithinLimits(txs: seq<Tx>) {
    && KeysUnique(txs)
    && (forall a :: CountFrom(txs, a) <= 1000)
    && |txs| <= 3001
  }

  lemma {:induction false} CountRemove(txs: seq<Tx>, i: nat, a: Address)
    requires i < |txs|
    ensures CountFrom(txs, a) == CountFrom(txs[..i] + txs[i + 1..], a) + (if txs[i].from == a then 1 else 0)
    decreases i
  {
    var rest := txs[..i] + txs[i + 1..];
    if i == 0 {
      assert rest == txs[1..];
    } else {
      assert rest[1..] == txs[1..][..i - 1] + txs[1..][i..];
      CountRemove(txs[1..], i - 1, a);
    }
  }

  lemma RemoveContents(txs: seq<Tx>, i: nat)
    requires i < |txs|
    ensures multiset(txs) == multiset(txs[..i] + txs[i + 1..]) + multiset{txs[i]}
  {
    assert txs == txs[..i] + [txs[i]] + txs[i + 1..];
  }

  lemma Cancel(a: multiset<Tx>, b: multiset<Tx>, t: Tx)
    requires a + multiset{t} <= b + multiset{t}
    ensures a <= b
  {
    forall u ensures a[u] <= b[u] {
      assert (a + multiset{t})[u] <= (b + multiset{t})[u];
    }
  }

  function Without(txs: seq<Tx>, i: nat): seq<Tx>
    requires i < |txs|
  {
    txs[..i] + txs[i + 1..]
  }

  /** Removing an element of a part of the pool, and an occurrence of it from the pool. */
  lemma RemoveFromBoth(xs: seq<Tx>, ys: seq<Tx>, i: nat) returns (p: nat)
    requires multiset(xs) <= multiset(ys) && i < |xs|
    ensures p < |ys| && ys[p] == xs[i]
    ensures multiset(Without(xs, i)) <= multiset(Without(ys, p))
  {
    assert xs[i] in multiset(xs) && xs[i] in multiset(ys);
    p :| 0 <= p < |ys| && ys[p] == xs[i];
    RemoveContents(xs, i);
    RemoveContents(ys, p);
    Cancel(multiset(Without(xs, i)), multiset(Without(ys, p)), xs[i]);
  }

  lemma {:induction false} CountMonotone(xs: seq<Tx>, ys: seq<Tx>, a: Address)
    requires multiset(xs) <= multiset(ys)
    ensures CountFrom(xs, a) <= CountFrom(ys, a) && |xs| <= |ys|
    decreases |xs|
  {
    if xs != [] {
      var p := RemoveFromBoth(xs, ys, 0);
      assert Without(xs, 0) == xs[1..];
      CountMonotone(xs[1..], Without(ys, p), a);
      CountRemove(ys, p, a);
    }
  }

  /** Two occurrences in a part of the pool are two occurrences in the pool. */
  lemma TwoOccurrences(xs: seq<Tx>, ys: seq<Tx>, i: nat, j: nat) returns (p: nat, q: nat)
    requires multiset(xs) <= multiset(ys) && i < j < |xs|
    ensures p < |ys| && q < |ys| && p != q && ys[p] == xs[i] && ys[q] == xs[j]
  {
    p := RemoveFromBoth(xs, ys, i);
    q := RemoveFromBoth(Without(xs, i), Without(ys, p), j - 1);
    q := if q < p then q else q + 1;
  }

  /** A repeated key in a part of the pool is a repeated key in the pool. */
  lemma UniqueMonotone(xs: seq<Tx>, ys: seq<Tx>)
    requires multiset(xs) <= multiset(ys) && KeysUnique(ys)
    ensures KeysUnique(xs)
  {
    forall i, j | 0 <= i < j < |xs| ensures !SameKey(xs[i], xs[j]) {
      var p, q := TwoOccurrences(xs, ys, i, j);
      assert !SameKey(ys[if p < q then p else q], ys[if p < q then q else p]);
    }
  }

  /** Every part of a pool within its limits is within them. */
  lemma LimitsMonotone(xs: seq<Tx>, ys: seq<Tx>)
    requires multiset(xs) <= multiset(ys) && WithinLimits(ys)
    ensures WithinLimits(xs)
  {
    UniqueMonotone(xs, ys);
    CountMonotone(xs, ys, "");
    forall a ensures CountFrom(xs, a) <= MAX_ADDR_COUNT {
      CountMonotone(xs, ys, a);
    }
  }

  // ---------------------------------------------------------------- filtering

  predicate Clashes(t: Tx, b: Tx, now: int) {
    SameKey(t, b) || now - t.time > 10
  }

  /** Clashing with a transaction of the block, or, unless the block is empty, over ten seconds old. */
  predicate Unwanted(t: Tx, block: seq<Tx>, now: int) {
    exists i :: 0 <= i < |block| && Clashes(t, block[i], now)
  }

  /**
   * What the in-place filter leaves: after each removal it skips the transaction that has
   * moved into the freed place.
   */
  function Filtered(txs: seq<Tx>, block: seq<Tx>, now: int): seq<Tx> {
    if txs == [] then []
    else if !Unwanted(txs[0], block, now) then [txs[0]] + Filtered(txs[1..], block, now)
    else if |txs| == 1 then []
    else [txs[1]] + Filtered(txs[2..], block, now)
  }

  predicate Clean(txs: seq<Tx>, block: seq<Tx>, now: int) {
    forall i :: 0 <= i < |txs| ==> !Unwanted(txs[i], block, now)
  }

  ghost predicate NoBadNeighbours(txs: seq<Tx>, block: seq<Tx>, now: int) {
    forall i :: 0 <= i && i + 1 < |txs| ==> !(Unwanted(txs[i], block, now) && Unwanted(txs[i + 1], block, now))
  }

  /** Filtering removes every unwanted transaction exactly when no two of them are neighbours. */
  lemma {:induction false} FilteredCleanIff(txs: seq<Tx>, block: seq<Tx>, now: int)
    ensures Clean(Filtered(txs, block, now), block, now) <==> NoBadNeighbours(txs, block, now)
    decreases |txs|
  {
    if |txs| >= 2 {
      if !Unwanted(txs[0], block, now) {
        FilteredCleanIff(txs[1..], block, now);
        CleanCons(txs[0], Filtered(txs[1..], block, now), block, now);
      } else {
        FilteredCleanIff(txs[2..], block, now);
        CleanCons(txs[1], Filtered(txs[2..], block, now), block, now);
        assert txs[1..][1..] == txs[2..];
      }
    }
  }

  /** In what is clean, nothing has the sender and nonce of a block's transaction, or is older than ten seconds. */
  lemma CleanMeans(txs: seq<Tx>, block: seq<Tx>, now: int)
    requires Clean(txs, block, now)
    ensures forall t, b :: t in txs && b in block ==> !(t.from == b.from && t.nonce == b.nonce) && now - t.time <= 10
  {
    forall t, b | t in txs && b in block ensures !Clashes(t, b, now) {
      var i :| 0 <= i < |txs| && txs[i] == t;
      assert !Unwanted(txs[i], block, now);
    }
  }

  /** At most ten seconds old, and with no sender and nonce of the block; if the block is empty, anything. */
  predicate Wanted(t: Tx, block: seq<Tx>, now: int) {
    block == [] || (now - t.time <= 10 && forall b :: b in block ==> !(t.from == b.from && t.nonce == b.nonce))
  }

  lemma WantedIff(t: Tx, block: seq<Tx>, now: int)
    ensures !Unwanted(t, block, now) <==> Wanted(t, block, now)
  {
    if block != [] && !Unwanted(t, block, now) {
      assert !Clashes(t, block[0], now);
      forall b | b in block ensures !Clashes(t, b, now) {
        var i :| 0 <= i < |block| && block[i] == b;
        assert !Clashes(t, block[i], now);
      }
    }
  }

  lemma CleanCons(tx: Tx, rest: seq<Tx>, block: seq<Tx>, now: int)
    ensures Clean([tx] + rest, block, now) <==> !Unwanted(tx, block, now) && Clean(rest, block, now)
  {
    assert ([tx] + rest)[0] == tx;
    if Clean([tx] + rest, block, now) {
      forall i | 0 <= i < |rest| ensures !Unwanted(rest[i], block, now) {
        assert ([tx] + rest)[i + 1] == rest[i];
      }
    }
  }

  lemma ConsCount(tx: Tx, rest: seq<Tx>, t: Tx)
    ensures multiset([tx] + rest)[t] == (if tx == t then 1 else 0) + multiset(rest)[t]
  {
  }

  lemma {:induction false} FilteredKeepsAt(txs: seq<Tx>, block: seq<Tx>, now: int, t: Tx)
    ensures multiset(Filtered(txs, block, now))[t] <= multiset(txs)[t]
    ensures !Unwanted(t, block, now) ==> multiset(Filtered(txs, block, now))[t] == multiset(txs)[t]
    decreases |txs|
  {
    if txs != [] {
      assert txs == [txs[0]] + txs[1..];
      ConsCount(txs[0], txs[1..], t);
      if !Unwanted(txs[0], block, now) {
        FilteredKeepsAt(txs[1..], block, now, t);
        ConsCount(txs[0], Filtered(txs[1..], block, now), t);
      } else if |txs| > 1 {
        assert txs[1..] == [txs[1]] + txs[2..];
        ConsCount(txs[1], txs[2..], t);
        FilteredKeepsAt(txs[2..], block, now, t);
        ConsCount(txs[1], Filtered(txs[2..], block, now), t);
      }
    }
  }

  /** Filtering only ever removes unwanted transactions. */
  lemma FilteredKeeps(txs: seq<Tx>, block: seq<Tx>, now: int)
    ensures multiset(Filtered(txs, block, now)) <= multiset(txs)
    ensures forall t :: !Unwanted(t, block, now) ==> multiset(Filtered(txs, block, now))[t] == multiset(txs)[t]
  {
    forall t
      ensures multiset(Filtered(txs, block, now))[t] <= multiset(txs)[t]
      ensures !Unwanted(t, block, now) ==> multiset(Filtered(txs, block, now))[t] == multiset(txs)[t]
    {
      FilteredKeepsAt(txs, block, now, t);
    }
  }
}
