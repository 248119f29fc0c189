/** How a new block pays its coinbases, and why all coins ever issued fit in 63 bits. */
module Emission {
  import opened U64
  import opened Transactions
  import opened LedgerRuns

  const FIRST_REWARD := 49460000000
  const GENESIS_CREDIT := 1000000000000000000

  /** The reward after `k` decays by a fifth, each rounded down. */
  function Decayed(k: nat): (r: nat)
    ensures r <= FIRST_REWARD
  {
    if k == 0 then FIRST_REWARD else Decayed(k - 1) * 8 / 10
  }

  /** The reward of a block; it decays every 31536000 blocks. */
  function Reward(height: nat): (r: nat)
    ensures r <= FIRST_REWARD
  {
    Decayed(height / 31536000)
  }

  function Zeros(n: nat): string {
    if n == 0 then "" else "\0" + Zeros(n - 1)
  }

  /** A coinbase comes from the zero address. */
  function NewCoinBase(to: Address, amount: u64, now: int): Tx {
    Tx(0, amount, Zeros(47), to, now, "", 0, MINER_TAG, NoOrder, 0, 0)
  }

  lemma NewCoinBaseIsCoinbase(to: Address, amount: u64, now: int, admin: Address)
    ensures KindOf(NewCoinBase(to, amount, now), admin) == Coinbase
  {
    assert Zeros(47)[0] == '\0';
  }

  /** Every transaction of `txs` is a coinbase, and together they pay `amount`. */
  ghost predicate Pays(txs: seq<Tx>, admin: Address, amount: nat) {
    && (forall i :: 0 <= i < |txs| ==> KindOf(txs[i], admin) == Coinbase)
    && CoinbaseAmounts(txs, admin) == amount
  }

  lemma {:induction false} CoinbaseAmountsConcat(a: seq<Tx>, b: seq<Tx>, admin: Address)
    ensures CoinbaseAmounts(a + b, admin) == CoinbaseAmounts(a, admin) + CoinbaseAmounts(b, admin)
    decreases |a|
  {
    if a == [] {
      assert a + b == b;
    } else {
      assert (a + b)[1..] == a[1..] + b;
      CoinbaseAmountsConcat(a[1..], b, admin);
    }
  }

  lemma PaysSnoc(txs: seq<Tx>, admin: Address, paid: nat, to: Address, amount: u64, now: int)
    requires Pays(txs, admin, paid)
    ensures Pays(txs + [NewCoinBase(to, amount, now)], admin, paid + amount)
  {
    hide Zeros;
    var tx := NewCoinBase(to, amount, now);
    NewCoinBaseIsCoinbase(to, amount, now, admin);
    CoinbaseAmountsConcat(txs, [tx], admin);
    assert [tx][1..] == [];
  }

  predicate PayableOrder(tx: Tx, qtj: Address, vertify: (Order, Address) -> bool) {
    IsOrder(tx) && vertify(tx.order.order, qtj)
  }

  /** The payees of the orders signed for `qtj`, in block order. */
  function OrderPayees(txs: seq<Tx>, qtj: Address, vertify: (Order, Address) -> bool): seq<Address> {
    if txs == [] then []
    else
      var last := txs[|txs| - 1];
      OrderPayees(txs[..|txs| - 1], qtj, vertify)
      + (if PayableOrder(last, qtj, vertify) then [last.order.order.address] else [])
  }

  /** What the coinbases of a block share out, each payee's share being `share`. */
  ghost predicate Shares(paid: seq<Tx>, payees: seq<Address>, share: nat, ds: Address, rest: nat, now: int) {
    && |paid| == |payees| + 1
    && (forall k :: 0 <= k < |payees| ==> share < TWO64 && paid[k] == NewCoinBase(payees[k], share, now))
    && rest < TWO64 && paid[|payees|] == NewCoinBase(ds, rest, now)
  }

  /** Each payee gets an equal share of `each`, and `ds` the remainder with another `each`. */
  ghost predicate OrderShares(paid: seq<Tx>, payees: seq<Address>, ds: Address, each: nat, now: int) {
    if payees == [] then Shares(paid, payees, 0, ds, each * 2, now)
    else Shares(paid, payees, each / |payees|, ds, each + each % |payees|, now)
  }

  function Times(n: nat, x: nat): nat {
    if n == 0 then 0 else Times(n - 1, x) + x
  }

  lemma {:induction false} TimesIsProduct(n: nat, x: nat)
    ensures Times(n, x) == n * x
  {
    if n > 0 {
      TimesIsProduct(n - 1, x);
      assert n * x == (n - 1) * x + x;
    }
  }

  method PayEach(payees: seq<Address>, share: u64, now: int, ghost admin: Address) returns (paid: seq<Tx>)
    ensures |paid| == |payees|
    ensures forall k :: 0 <= k < |payees| ==> paid[k] == NewCoinBase(payees[k], share, now)
    ensures Pays(paid, admin, Times(|payees|, share))
  {
    hide Zeros;
    paid := [];
    for k := 0 to |payees|
      invariant |paid| == k
      invariant Pays(paid, admin, Times(k, share))
      invariant forall j :: 0 <= j < k ==> paid[j] == NewCoinBase(payees[j], share, now)
    {
      PaysSnoc(paid, admin, Times(k, share), payees[k], share, now);
      paid := paid + [NewCoinBase(payees[k], share, now)];
    }
  }

  /** Equal shares and the remainder make up the whole. */
  lemma ShareOut(n: nat, each: nat)
    requires n > 0
    ensures Times(n, each / n) + each % n == each
    ensures each / n <= each && each % n <= each
  {
    var q := each / n;
    TimesIsProduct(n, q);
    assert each == n * q + each % n;
    assert n * q >= q;
  }

  /** A tenth of the reward shared by the payees with the remainder to `ds`, and another tenth to `ds`. */
  method PayOrders(payees: seq<Address>, ds: Address, each: u64, now: int, ghost admin: Address) returns (paid: seq<Tx>)
    requires each <= FIRST_REWARD
    ensures OrderShares(paid, payees, ds, each, now)
    ensures Pays(paid, admin, 2 * each)
  {
    hide Zeros;
    if |payees| != 0 {
      ShareOut(|payees|, each);
      var fAmount, fMod := each / |payees|, each % |payees|;
      paid := PayEach(payees, fAmount, now, admin);
      PaysSnoc(paid, admin, Times(|payees|, fAmount), ds, each + fMod, now);
      paid := paid + [NewCoinBase(ds, each + fMod, now)];
    } else {
      paid := PayEach([], 0, now, admin);
      PaysSnoc(paid, admin, 0, ds, each * 2, now);
      paid := paid + [NewCoinBase(ds, each * 2, now)];
    }
  }

  method CurrentReward(height: u64) returns (total: u64)
    ensures total == Reward(height)
  {
    total := FIRST_REWARD;
    var x := height / 31536000;
    for i := 0 to x
      invariant total == Decayed(i)
    {
      total := total * 8 / 10;
    }
  }

  method FindPayees(txs: seq<Tx>, qtj: Address, vertify: (Order, Address) -> bool) returns (payees: seq<Address>)
    ensures payees == OrderPayees(txs, qtj, vertify)
  {
    payees := [];
    for i := 0 to |txs|
      invariant payees == OrderPayees(txs[..i], qtj, vertify)
    {
      assert txs[..i + 1][..i] == txs[..i];
      if PayableOrder(txs[i], qtj, vertify) {
        payees := payees + [txs[i].order.order.address];
      }
    }
    assert txs[..|txs|] == txs;
  }

  /** The coinbases of a block: the order shares, then the miner's and `cm`'s four tenths. */
  ghost predicate Coinbases(paid: seq<Tx>, payees: seq<Address>, minaddr: Address, ds: Address, cm: Address,
                            each: nat, mod: nat, now: int) {
    var n := |paid|;
    && n >= 2 && each * 4 + mod < TWO64
    && OrderShares(paid[..n - 2], payees, ds, each, now)
    && paid[n - 2] == NewCoinBase(minaddr, each * 4 + mod, now)
    && paid[n - 1] == NewCoinBase(cm, each * 4, now)
  }

  method PayCoinbases(payees: seq<Address>, minaddr: Address, ds: Address, cm: Address, each: u64, mod: u64, now: int,
                      ghost admin: Address) returns (paid: seq<Tx>)
    requires each <= FIRST_REWARD && mod < 10
    ensures Coinbases(paid, payees, minaddr, ds, cm, each, mod, now)
    ensures Pays(paid, admin, 10 * each + mod)
  {
    hide Zeros;
    var shared := PayOrders(payees, ds, each, now, admin);
    var jsAmount, sqAmount := each * 4 + mod, each * 4;
    PaysSnoc(shared, admin, 2 * each, minaddr, jsAmount, now);
    var mined := shared + [NewCoinBase(minaddr, jsAmount, now)];
    PaysSnoc(mined, admin, 2 * each + jsAmount, cm, sqAmount, now);
    paid := mined + [NewCoinBase(cm, sqAmount, now)];
    assert paid[..|paid| - 2] == shared;
  }

  /**
   * Appends the coinbases of a block: a tenth of the reward shared by the order payees (or
   * given to `ds` when there are none), a tenth and the payees' remainder to `ds`, and four
   * tenths each to the miner, with the overall remainder, and to `cm`. Together they pay
   * exactly the reward of the height.
   */
  method Distr(txs: seq<Tx>, minaddr: Address, ds: Address, cm: Address, qtj: Address, height: u64,
               vertify: (Order, Address) -> bool, now: int, ghost admin: Address) returns (out: seq<Tx>)
    ensures |out| >= |txs| && out[..|txs|] == txs
    ensures Coinbases(out[|txs|..], OrderPayees(txs, qtj, vertify), minaddr, ds, cm,
                      Reward(height) / 10, Reward(height) % 10, now)
    ensures Pays(out[|txs|..], admin, Reward(height))
  {
    hide Zeros;
    var total := CurrentReward(height);
    var each, mod := total / 10, total % 10;
    var payees := FindPayees(txs, qtj, vertify);
    var paid := PayCoinbases(payees, minaddr, ds, cm, each, mod, now, admin);
    out := txs + paid;
    assert out[|txs|..] == paid;
  }

  // ---------------------------------------------------------------- total emission

  /** Coins issued by the blocks at heights 1 to `h`. */
  function Issued(h: nat): nat {
    if h == 0 then 0 else Issued(h - 1) + Reward(h)
  }

  /** Coins issued, `left` more blocks at reward `r`, and four whole periods at `r`. */
  function Potential(issued: int, left: nat, r: nat): (p: int)
    ensures p >= issued
  {
    issued + left * r + 126144000 * r
  }

  lemma PotentialWithin(issued: int, left: nat, r: nat)
    ensures Potential(issued + r, left, r) == Potential(issued, left + 1, r)
  {
    assert (left + 1) * r == left * r + r;
  }

  /** Issuing never raises the potential above five periods at the first reward. */
  lemma {:induction false} PotentialBounded(h: nat)
    ensures Potential(Issued(h), 31535999 - h % 31536000, Reward(h)) <= 157680000 * FIRST_REWARD
  {
    if h > 0 {
      PotentialBounded(h - 1);
      if h % 31536000 == 0 {
        assert h / 31536000 == (h - 1) / 31536000 + 1;
        assert 5 * Reward(h) <= 4 * Reward(h - 1);
      } else {
        assert h / 31536000 == (h - 1) / 31536000;
        PotentialWithin(Issued(h - 1), 31535999 - h % 31536000, Reward(h));
      }
    }
  }

  /** Whatever the height, all coins ever issued, with the genesis credit, stay below 2^63. */
  lemma EmissionBounded(h: nat)
    ensures GENESIS_CREDIT + Issued(h) < 0x8000_0000_0000_0000
  {
    PotentialBounded(h);
  }

  /**
   * The reward is the first one for a period, and then a fifth less for each period, rounded down: four fifths of it
   * are at least the next one, and less than one more.
   */
  lemma RewardDecays(h: nat)
    ensures h < 31536000 ==> Reward(h) == 49460000000
    ensures h % 31536000 != 0 ==> Reward(h) == Reward(h - 1)
    ensures 5 * Reward(h + 31536000) <= 4 * Reward(h) < 5 * (Reward(h + 31536000) + 1)
  {
    assert (h + 31536000) / 31536000 == h / 31536000 + 1;
    assert h % 31536000 != 0 ==> (h - 1) / 31536000 == h / 31536000;
  }

  /** The payees are the addresses of the orders that are signed and verify, as often as there are such orders. */
  lemma {:induction false} PayeesIff(txs: seq<Tx>, qtj: Address, vertify: (Order, Address) -> bool, a: Address)
    ensures a in OrderPayees(txs, qtj, vertify) <==>
            exists i :: 0 <= i < |txs| && txs[i].order.WithOrder?
                        && txs[i].order.order.signature != "" && vertify(txs[i].order.order, qtj)
                        && txs[i].order.order.address == a
  {
    if txs != [] {
      var last, before := txs[|txs| - 1], txs[..|txs| - 1];
      PayeesIff(before, qtj, vertify, a);
      assert forall i :: 0 <= i < |before| ==> before[i] == txs[i];
      if exists i :: 0 <= i < |txs| && txs[i].order.WithOrder?
                     && txs[i].order.order.signature != "" && vertify(txs[i].order.order, qtj)
                     && txs[i].order.order.address == a {
        var i :| 0 <= i < |txs| && txs[i].order.WithOrder?
                 && txs[i].order.order.signature != "" && vertify(txs[i].order.order, qtj)
                 && txs[i].order.order.address == a;
        assert i < |before| ==> before[i] == txs[i];
      }
    }
  }

  // ------------------------------------------------------------------- who gets what

  /** What the transactions pay to `a`. */
  function Received(paid: seq<Tx>, a: Address): nat {
    if paid == [] then 0
    else
      var last := paid[|paid| - 1];
      Received(paid[..|paid| - 1], a) + if last.to == a then last.amount else 0
  }

  /** How often `a` is among the payees. */
  function Occurs(payees: seq<Address>, a: Address): nat {
    if payees == [] then 0 else Occurs(payees[..|payees| - 1], a) + if payees[|payees| - 1] == a then 1 else 0
  }

  lemma {:induction false} SharesReceived(paid: seq<Tx>, payees: seq<Address>, share: nat, now: int, a: Address)
    requires |paid| == |payees|
    requires forall k :: 0 <= k < |payees| ==> share < TWO64 && paid[k] == NewCoinBase(payees[k], share, now)
    ensures Received(paid, a) == Times(Occurs(payees, a), share)
  {
    hide Zeros;
    if payees != [] {
      var n := |payees| - 1;
      var xs, ys := paid[..n], payees[..n];
      assert paid[n] == NewCoinBase(payees[n], share, now) && share < TWO64;
      forall k | 0 <= k < n ensures xs[k] == NewCoinBase(ys[k], share, now) {
        assert xs[k] == paid[k] && ys[k] == payees[k];
      }
      SharesReceived(xs, ys, share, now, a);
    }
  }

  lemma OrdersReceived(paid: seq<Tx>, payees: seq<Address>, share: nat, ds: Address, rest: nat, now: int, a: Address)
    requires Shares(paid, payees, share, ds, rest, now)
    ensures Received(paid, a) == Occurs(payees, a) * share + if a == ds then rest else 0
  {
    hide Zeros, Occurs, Received;
    var n := |payees|;
    var equal := paid[..n];
    if payees == [] {
      NoneOccurs(a);
      assert equal == [];
      NoneReceived(a);
    } else {
      assert forall k :: 0 <= k < n ==> equal[k] == paid[k];
      assert share < TWO64 by {
        assert 0 < n && paid[0] == NewCoinBase(payees[0], share, now);
      }
      SharesReceived(equal, payees, share, now, a);
      TimesIsProduct(Occurs(payees, a), share);
    }
    ReceivedSnoc(equal, paid[n], a);
    assert paid == equal + [paid[n]] && paid[n].to == ds && paid[n].amount == rest;
  }

  lemma NoneReceived(a: Address)
    ensures Received([], a) == 0
  {
  }

  /**
   * Of a block's reward an order payee gets an equal share of a tenth for each of its orders, `ds` a tenth and what
   * is left of that one, the miner four tenths and the remainder, and `cm` four tenths; and nobody else anything.
   */
  lemma CoinbasesPay(paid: seq<Tx>, payees: seq<Address>, minaddr: Address, ds: Address, cm: Address, reward: nat,
          now: int, a: Address)
    requires Coinbases(paid, payees, minaddr, ds, cm, reward / 10, reward % 10, now)
    ensures var each, n := reward / 10, |payees|;
            Received(paid, a) ==
            (if n == 0 then 0 else Occurs(payees, a) * (each / n))
            + (if a == ds then if n == 0 then 2 * each else each + each % n else 0)
            + (if a == minaddr then 4 * each + reward % 10 else 0)
            + (if a == cm then 4 * each else 0)
  {
    hide Zeros, Occurs, Received, Shares;
    var each, n := reward / 10, |paid|;
    var shared := paid[..n - 2];
    if payees == [] {
      NoneOccurs(a);
      OrdersReceived(shared, payees, 0, ds, each * 2, now, a);
    } else {
      OrdersReceived(shared, payees, each / |payees|, ds, each + each % |payees|, now, a);
    }
    hide OrderShares;
    ReceivedSnoc(shared, paid[n - 2], a);
    ReceivedSnoc(shared + [paid[n - 2]], paid[n - 1], a);
    assert paid == shared + [paid[n - 2]] + [paid[n - 1]];
  }

  lemma NoneOccurs(a: Address)
    ensures Occurs([], a) == 0
  {
  }

  lemma ReceivedSnoc(paid: seq<Tx>, tx: Tx, a: Address)
    ensures Received(paid + [tx], a) == Received(paid, a) + if tx.to == a then tx.amount else 0
  {
    assert (paid + [tx])[..|paid|] == paid;
  }
}
