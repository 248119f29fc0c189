/** The supply of every token: balances sum to what was minted, which stays within the declared total. */
module TokenProofs {
  import opened U64
  import opened MapSum
  import opened Wrappers
  import opened Bytes
  import opened TokenSpec

  /** Addresses are 47 bytes long. */
  const ADDR := 47

  const HALF := 0x8000_0000_0000_0000

  /** A token id that cannot be mistaken for one of the derived keys. */
  predicate PlainId(id: string) {
    !(|id| >= 2 && id[1] == '/' && id[0] in "bptfc")
  }

  predicate IsAddress(a: string) {
    |a| == ADDR && IsBytes(a)
  }

  /** Eight bytes, and perhaps more, can be read as a number. */
  predicate Readable(v: string) {
    |v| >= 8 && FromLE(v[..8]) < TWO64
  }

  /** The number that the first eight bytes are read as, or zero. */
  function Val(v: string): u64 {
    if Readable(v) then FromLE(v[..8]) else 0
  }

  function Stored(m: Store, k: string): u64 {
    if k in m then Val(m[k]) else 0
  }

  /** `k` is the key of family `f` of some address for the token `id`. */
  predicate InFamily(k: string, f: char, id: string) {
    |k| == 2 + |id| + ADDR && k[0] == f && k[1] == '/' && k[2..2 + |id|] == id
  }

  /** `k` is the balance key of some address for the token `id`. */
  predicate IsHolding(k: string, id: string) {
    InFamily(k, 'b', id)
  }

  /** The balances of the token `id`, by key. */
  function Held(m: Store, id: string): map<string, u64> {
    map k | k in m && IsHolding(k, id) :: Val(m[k])
  }

  /** A key that is read as a number. */
  predicate IsNumeric(k: string) {
    |k| >= 2 && k[1] == '/' && k[0] in "btc"
  }

  ghost predicate NumbersFormed(m: Store) {
    forall k :: k in m && IsNumeric(k) ==> Readable(m[k])
  }

  /**
   * The supply of a token is right: of one that does not exist nothing is held or counted; of one that does,
   * the balances sum to what was minted, which is within its total.
   */
  ghost predicate TokenOk(m: Store, id: string) {
    if id !in m then
      && Sum(Held(m, id)) == 0
      && (forall a :: |a| == ADDR ==> Stored(m, CKey(id, a)) == 0)
    else
      && |m[id]| == ADDR && TKey(id, m[id]) in m
      && Sum(Held(m, id)) == Stored(m, CKey(id, m[id])) <= Stored(m, TKey(id, m[id])) < HALF
  }

  /** The supply of every plain id is right. */
  ghost predicate SuppliesRight(m: Store) {
    forall id :: PlainId(id) ==> TokenOk(m, id)
  }

  ghost predicate TokensOk(m: Store) {
    NumbersFormed(m) && SuppliesRight(m)
  }

  lemma ValE64(n: u64)
    ensures Val(E64(n)) == n && FromLE(E64(n)) == n && Readable(E64(n))
  {
    Pow256Of8();
    LERoundTrip(n, 8);
    assert E64(n)[..8] == E64(n);
  }

  lemma ValOfEight(v: string)
    requires |v| == 8 && FromLE(v) < TWO64
    ensures Val(v) == FromLE(v) && Readable(v)
  {
    assert v[..8] == v;
  }

  lemma AddressReadable(a: string)
    requires IsAddress(a)
    ensures Readable(a)
  {
    Pow256Of8();
    LERange(a[..8]);
  }

  lemma HeldUpdate(m: Store, k: string, v: string, id: string)
    ensures Held(m[k := v], id) == if IsHolding(k, id) then Held(m, id)[k := Val(v)] else Held(m, id)
  {
  }

  lemma Families(id: string, a: string, other: string)
    requires |a| == ADDR
    ensures InFamily(BKey(id, a), 'b', other) <==> id == other
    ensures InFamily(CKey(id, a), 'c', other) <==> id == other
    ensures InFamily(TKey(id, a), 't', other) <==> id == other
  {
    assert BKey(id, a) == ['b', '/'] + id + a && CKey(id, a) == ['c', '/'] + id + a &&
         TKey(id, a) == ['t', '/'] + id + a;
  }

  /** The keys that the state of the token `id` depends on. */
  predicate Relevant(k: string, id: string) {
    k == id || InFamily(k, 'b', id) || InFamily(k, 'c', id) || InFamily(k, 't', id)
  }

  /** Writing any other key leaves the token as it was. */
  lemma Frame(m: Store, k: string, v: string, id: string)
    requires !Relevant(k, id)
    ensures TokenOk(m[k := v], id) == TokenOk(m, id)
  {
    var m' := m[k := v];
    HeldUpdate(m, k, v, id);
    forall a | |a| == ADDR ensures CKey(id, a) != k && TKey(id, a) != k {
      Families(id, a, id);
    }
    if id in m {
      assert Stored(m', CKey(id, m[id])) == Stored(m, CKey(id, m[id])) || |m[id]| != ADDR;
    }
  }

  /** Keys written for the token `id` do not matter to another plain id, unless `id` itself is a numeric key. */
  lemma Apart(id: string, a: string, other: string)
    requires PlainId(other) && id != other && |a| == ADDR
    ensures !IsNumeric(id) ==> !Relevant(id, other)
    ensures !Relevant(BKey(id, a), other) && !Relevant(CKey(id, a), other) && !Relevant(TKey(id, a), other)
  {
    Families(id, a, other);
    assert BKey(id, a)[..2] == "b/" && CKey(id, a)[..2] == "c/" && TKey(id, a)[..2] == "t/";
  }

  lemma ReadStored(db: Store, mp: Store, k: string)
    requires NumbersFormed(db + mp) && IsNumeric(k)
    ensures Read(db, mp, k) == Some(Stored(db + mp, k))
  {
    ValE64(0);
    assert E64(0)[..8] == E64(0);
  }

  // ------------------------------------------------------------------------ new

  function AfterNew(m: Store, id: string, owner: string, total: u64, precision: u64): Store {
    m[id := owner][BKey(id, owner) := E64(0)][TKey(id, owner) := E64(total)]
     [PKey(id) := E64(precision)][FKey(id, owner) := LE(0, 1)]
  }

  /** Only the entry under the id itself can matter to another plain id. */
  lemma NewOthers(m: Store, id: string, owner: string, total: u64, precision: u64, other: string)
    requires PlainId(other) && id != other && |owner| == ADDR
    ensures TokenOk(AfterNew(m, id, owner, total, precision), other) == TokenOk(m[id := owner], other)
  {
    Apart(id, owner, other);
    var m1 := m[id := owner];
    var m2 := m1[BKey(id, owner) := E64(0)];
    var m3 := m2[TKey(id, owner) := E64(total)];
    var m4 := m3[PKey(id) := E64(precision)];
    Frame(m1, BKey(id, owner), E64(0), other);
    Frame(m2, TKey(id, owner), E64(total), other);
    Frame(m3, PKey(id), E64(precision), other);
    Frame(m4, FKey(id, owner), LE(0, 1), other);
  }

  lemma HeldNew(m: Store, id: string, owner: string, total: u64, precision: u64)
    requires PlainId(id) && |owner| == ADDR && Sum(Held(m, id)) == 0
    ensures Sum(Held(AfterNew(m, id, owner, total, precision), id)) == 0
  {
    ValE64(0);
    var m1 := m[id := owner];
    var m2 := m1[BKey(id, owner) := E64(0)];
    var m3 := m2[TKey(id, owner) := E64(total)];
    var m4 := m3[PKey(id) := E64(precision)];
    HeldUpdate(m, id, owner, id);
    HeldWrite(m1, id, owner, E64(0));
    ValueAtMostSum(Held(m1, id), BKey(id, owner));
    SumNonNegative(Held(m2, id));
    HeldUpdate(m2, TKey(id, owner), E64(total), id);
    HeldUpdate(m3, PKey(id), E64(precision), id);
    HeldUpdate(m4, FKey(id, owner), LE(0, 1), id);
  }

  lemma NewOkIff(m: Store, id: string, owner: string, total: u64, precision: u64)
    requires TokenOk(m, id) && PlainId(id) && id !in m && |owner| == ADDR
    ensures TokenOk(AfterNew(m, id, owner, total, precision), id) <==> total < HALF
  {
    HeldNew(m, id, owner, total, precision);
    NewEntries(m, id, owner, total, precision);
  }

  lemma FormedUpdate(m: Store, k: string, v: string)
    requires NumbersFormed(m) && (IsNumeric(k) ==> Readable(v))
    ensures NumbersFormed(m[k := v])
  {
  }

  lemma NewFormed(m: Store, id: string, owner: string, total: u64, precision: u64)
    requires NumbersFormed(m) && IsAddress(owner)
    ensures NumbersFormed(AfterNew(m, id, owner, total, precision))
  {
    ValE64(0);
    ValE64(total);
    AddressReadable(owner);
    var m1 := m[id := owner];
    var m2 := m1[BKey(id, owner) := E64(0)];
    var m3 := m2[TKey(id, owner) := E64(total)];
    var m4 := m3[PKey(id) := E64(precision)];
    hide Readable, E64;
    FormedUpdate(m, id, owner);
    FormedUpdate(m1, BKey(id, owner), E64(0));
    FormedUpdate(m2, TKey(id, owner), E64(total));
    FormedUpdate(m3, PKey(id), E64(precision));
    FormedUpdate(m4, FKey(id, owner), LE(0, 1));
  }

  /** Among the entries of a new token are its owner and total; a counter is not. */
  lemma NewEntries(m: Store, id: string, owner: string, total: u64, precision: u64)
    ensures var m' := AfterNew(m, id, owner, total, precision);
            && id in m' && m'[id] == owner
            && TKey(id, owner) in m' && Stored(m', TKey(id, owner)) == total
            && (PlainId(id) ==> Stored(m', CKey(id, owner)) == Stored(m, CKey(id, owner)))
  {
    ValE64(total);
    assert TKey(id, owner)[0] == 't' && FKey(id, owner)[0] == 'f' && PKey(id)[0] == 'p' && BKey(id, owner)[0] == 'b';
    assert CKey(id, owner)[0] == 'c' && CKey(id, owner)[1] == '/';
  }

  /** What stands in `k` between its first two characters and an address. */
  function IdIn(k: string): string {
    if |k| >= 2 + ADDR then k[2..|k| - ADDR] else ""
  }

  /** Read as a derived key, `k` belongs to a plain id. */
  predicate SplitsPlain(k: string) {
    |k| >= 2 + ADDR && PlainId(IdIn(k))
  }

  /** `k` is a balance of a plain id, or a counter that its supply depends on. */
  predicate CountsElsewhere(m: Store, k: string) {
    && SplitsPlain(k) && k[1] == '/'
    && (k[0] == 'b' || (k[0] == 'c' && (IdIn(k) !in m || m[IdIn(k)] == k[|k| - ADDR..])))
  }

  /** A new token needs no balance or counter of another for its owner's entry, and a total that fits int64. */
  predicate NewGuard(m: Store, id: string, owner: string, total: u64) {
    (PlainId(id) ==> total < HALF) && (Val(owner) == 0 || !CountsElsewhere(m, id))
  }

  /** A counter that is not there yet matters if it is the owner's, or the token does not exist. */
  lemma WriteCounterIff(m: Store, id: string, a: string, v: string)
    requires TokenOk(m, id) && PlainId(id) && |a| == ADDR && CKey(id, a) !in m
    ensures TokenOk(m[CKey(id, a) := v], id) <==> Val(v) == 0 || (id in m && m[id] != a)
  {
    var k := CKey(id, a);
    assert k[0] == 'c' && k[1] == '/';
    HeldUpdate(m, k, v, id);
    forall b ensures TKey(id, b) != k && (CKey(id, b) == k <==> a == b) {
      assert TKey(id, b)[0] == 't' && CKey(id, b)[2 + |id|..] == b && k[2 + |id|..] == a;
    }
  }

  /** A total that is not there yet does not matter. */
  lemma WriteTotal(m: Store, id: string, a: string, v: string)
    requires TokenOk(m, id) && PlainId(id) && |a| == ADDR && TKey(id, a) !in m
    ensures TokenOk(m[TKey(id, a) := v], id)
  {
    var k := TKey(id, a);
    assert k[0] == 't' && k[1] == '/';
    HeldUpdate(m, k, v, id);
    forall b ensures CKey(id, b) != k && (TKey(id, b) == k <==> a == b) {
      assert CKey(id, b)[0] == 'c' && TKey(id, b)[2 + |id|..] == b && k[2 + |id|..] == a;
    }
  }

  /** What the owner's entry under a new id does to another token. */
  lemma NewEntryIff(m: Store, id: string, owner: string, other: string)
    requires TokenOk(m, other) && PlainId(other) && id != other && id !in m
    ensures TokenOk(m[id := owner], other) <==>
            || Val(owner) == 0
            || !(InFamily(id, 'b', other) ||
                (InFamily(id, 'c', other) && (other in m ==> m[other] == id[2 + |other|..])))
  {
    hide TokenOk;
    if |id| >= 2 + |other| {
      var a := id[2 + |other|..];
      assert InFamily(id, 'c', other) ==> id == CKey(other, a);
      assert InFamily(id, 't', other) ==> id == TKey(other, a);
      if InFamily(id, 'b', other) {
        WriteBalanceIff(m, other, id, owner);
      } else if InFamily(id, 'c', other) {
        WriteCounterIff(m, other, a, owner);
      } else if InFamily(id, 't', other) {
        WriteTotal(m, other, a, owner);
      } else {
        Frame(m, id, owner, other);
      }
    } else {
      Frame(m, id, owner, other);
    }
  }

  /** The token whose supply the key counts in is the one it splits into. */
  lemma CountsFor(m: Store, k: string, other: string)
    requires PlainId(other)
    ensures InFamily(k, 'b', other) || (InFamily(k, 'c', other) && (other in m ==> m[other] == k[2 + |other|..])) <==>
            CountsElsewhere(m, k) && other == IdIn(k)
  {
  }

  /** Declaring a token keeps every supply right if and only if its guard holds. */
  lemma NewKeepsIff(m: Store, id: string, owner: string, total: u64, precision: u64)
    requires TokensOk(m) && id !in m && IsAddress(owner)
    ensures NumbersFormed(AfterNew(m, id, owner, total, precision))
    ensures SuppliesRight(AfterNew(m, id, owner, total, precision)) <==> NewGuard(m, id, owner, total)
  {
    hide AfterNew, TokenOk, NumbersFormed, InFamily, CountsElsewhere, Val;
    NewFormed(m, id, owner, total, precision);
    var m' := AfterNew(m, id, owner, total, precision);
    forall other | PlainId(other)
      ensures TokenOk(m', other) <==>
              if other == id then total < HALF
              else Val(owner) == 0 || !(CountsElsewhere(m, id) && other == IdIn(id))
    {
      assert TokenOk(m, other);
      if other == id {
        NewOkIff(m, id, owner, total, precision);
      } else {
        NewOthers(m, id, owner, total, precision, other);
        NewEntryIff(m, id, owner, other);
        CountsFor(m, id, other);
      }
    }
    if CountsElsewhere(m, id) {
      CountsPlain(m, id);
    }
  }

  lemma CountsPlain(m: Store, k: string)
    requires CountsElsewhere(m, k)
    ensures PlainId(IdIn(k)) && !PlainId(k) && IdIn(k) != k
  {
  }

  // ---------------------------------------------------- two numeric keys of a token

  /** Two writes to balance or counter keys of `id` leave every other plain id as it was. */
  lemma TwoWritesApart(m: Store, id: string, k1: string, v1: string, k2: string, v2: string, other: string)
    requires !Relevant(k1, other) && !Relevant(k2, other)
    ensures TokenOk(m[k1 := v1][k2 := v2], other) == TokenOk(m, other)
  {
    Frame(m, k1, v1, other);
    Frame(m[k1 := v1], k2, v2, other);
  }

  // ----------------------------------------------------------------------- mint

  /** Writing a balance moves the sum by the difference. */
  lemma HeldWrite(m: Store, id: string, a: string, v: string)
    requires |a| == ADDR
    ensures Sum(Held(m[BKey(id, a) := v], id)) == Sum(Held(m, id)) - Stored(m, BKey(id, a)) + Val(v)
  {
    Families(id, a, id);
    HeldUpdate(m, BKey(id, a), v, id);
    SumUpdate(Held(m, id), BKey(id, a), Val(v));
  }

  lemma KeysDiffer(id: string, a: string, b: string)
    ensures BKey(id, a) != CKey(id, b) && BKey(id, a) != TKey(id, b) && CKey(id, a) != TKey(id, b)
    ensures IsNumeric(BKey(id, a)) && IsNumeric(CKey(id, a))
    ensures PlainId(id) ==> id != BKey(id, a) && id != CKey(id, a)
  {
    assert BKey(id, a)[0] == 'b' && CKey(id, a)[0] == 'c' && CKey(id, b)[0] == 'c' && TKey(id, b)[0] == 't';
    assert BKey(id, a)[1] == '/' && CKey(id, a)[1] == '/';
  }

  lemma CounterNotHeld(m: Store, id: string, a: string, v: string)
    ensures Held(m[CKey(id, a) := v], id) == Held(m, id)
  {
    assert CKey(id, a)[0] == 'c';
    HeldUpdate(m, CKey(id, a), v, id);
  }

  lemma StoredWrite(m: Store, k: string, v: string, other: string)
    ensures Stored(m[k := v], other) == if other == k then Val(v) else Stored(m, other)
  {
  }

  /** Writing the counter and a balance of the owner, as encoded numbers `vc` and `vb`. */
  lemma MintNumbers(m: Store, id: string, owner: string, vc: string, vb: string)
    requires |owner| == ADDR
    ensures var m' := m[CKey(id, owner) := vc][BKey(id, owner) := vb];
            && Stored(m', CKey(id, owner)) == Val(vc)
            && Stored(m', TKey(id, owner)) == Stored(m, TKey(id, owner))
            && Sum(Held(m', id)) == Sum(Held(m, id)) - Stored(m, BKey(id, owner)) + Val(vb)
  {
    KeysDiffer(id, owner, owner);
    var m1 := m[CKey(id, owner) := vc];
    StoredWrite(m, CKey(id, owner), vc, CKey(id, owner));
    StoredWrite(m, CKey(id, owner), vc, BKey(id, owner));
    StoredWrite(m, CKey(id, owner), vc, TKey(id, owner));
    StoredWrite(m1, BKey(id, owner), vb, CKey(id, owner));
    StoredWrite(m1, BKey(id, owner), vb, TKey(id, owner));
    CounterNotHeld(m, id, owner, vc);
    HeldWrite(m1, id, owner, vb);
  }

  /** A balance never exceeds what has been minted. */
  lemma BalanceWithinMinted(m: Store, id: string, a: string)
    requires TokensOk(m) && PlainId(id) && id in m && |a| == ADDR
    ensures Stored(m, BKey(id, a)) <= Stored(m, CKey(id, m[id]))
  {
    assert TokenOk(m, id);
    ValueAtMostSum(Held(m, id), BKey(id, a));
  }

  /** A mint leaves every other token as it was. */
  lemma MintOthers(m: Store, id: string, owner: string, vc: string, vb: string)
    requires TokensOk(m) && |owner| == ADDR
    requires Readable(vc) && Readable(vb)
    ensures var m' := m[CKey(id, owner) := vc][BKey(id, owner) := vb];
            NumbersFormed(m') && forall other :: PlainId(other) && other != id ==> TokenOk(m', other)
  {
    FormedUpdate(m, CKey(id, owner), vc);
    FormedUpdate(m[CKey(id, owner) := vc], BKey(id, owner), vb);
    forall other | PlainId(other) && other != id
      ensures TokenOk(m[CKey(id, owner) := vc][BKey(id, owner) := vb], other)
    {
      assert TokenOk(m, other);
      Apart(id, owner, other);
      TwoWritesApart(m, id, CKey(id, owner), vc, BKey(id, owner), vb, other);
    }
  }

  // ------------------------------------------------------------------- transfer

  lemma BKeyInjective(id: string, a: string, a': string)
    requires BKey(id, a) == BKey(id, a')
    ensures a == a'
  {
    assert BKey(id, a)[2 + |id|..] == a && BKey(id, a')[2 + |id|..] == a';
  }

  /** What a transfer does to the sum of balances: nothing, unless it goes to its own sender. */
  lemma TransferSum(m: Store, id: string, from: string, amount: u64, to: string, vf: string, vt: string)
    requires |from| == ADDR && |to| == ADDR
    requires Val(vf) == Stored(m, BKey(id, from)) - amount && Val(vt) == Stored(m, BKey(id, to)) + amount
    ensures var m' := m[BKey(id, from) := vf][BKey(id, to) := vt];
            Sum(Held(m', id)) == Sum(Held(m, id)) + (if from == to then amount else 0)
  {
    if from != to && BKey(id, from) == BKey(id, to) {
      BKeyInjective(id, from, to);
    }
    StoredWrite(m, BKey(id, from), vf, BKey(id, to));
    HeldWrite(m, id, from, vf);
    HeldWrite(m[BKey(id, from) := vf], id, to, vt);
  }

  /** A recipient cannot overflow, not even one who is the sender. */
  lemma TransferFits(m: Store, id: string, from: string, amount: u64, to: string)
    requires |from| == ADDR && |to| == ADDR && amount <= Stored(m, BKey(id, from))
    requires Sum(Held(m, id)) < HALF
    ensures Stored(m, BKey(id, to)) + amount < TWO64
  {
    ValueAtMostSum(Held(m, id), BKey(id, from));
    if from != to && BKey(id, from) == BKey(id, to) {
      BKeyInjective(id, from, to);
    }
    ValueAtMostSum(Held(m, id), BKey(id, to));
  }

  lemma TransferOkIff(m: Store, id: string, from: string, amount: u64, to: string, vf: string, vt: string)
    requires TokensOk(m) && PlainId(id) && id in m
    requires |from| == ADDR && |to| == ADDR
    requires Val(vf) == Stored(m, BKey(id, from)) - amount && Val(vt) == Stored(m, BKey(id, to)) + amount
    ensures TokenOk(m[BKey(id, from) := vf][BKey(id, to) := vt], id) <==> from != to || amount == 0
  {
    hide Val, Held, NumbersFormed;
    var owner := m[id];
    assert TokenOk(m, id);
    TransferSum(m, id, from, amount, to, vf, vt);
    var m1 := m[BKey(id, from) := vf];
    KeysDiffer(id, from, owner);
    KeysDiffer(id, to, owner);
    StoredWrite(m, BKey(id, from), vf, CKey(id, owner));
    StoredWrite(m, BKey(id, from), vf, TKey(id, owner));
    StoredWrite(m1, BKey(id, to), vt, CKey(id, owner));
    StoredWrite(m1, BKey(id, to), vt, TKey(id, owner));
    assert BKey(id, from)[0] == 'b' && BKey(id, to)[0] == 'b';
  }

  /** Writing a balance of a plain id keeps its supply right if and only if the balance stays the same. */
  lemma WriteBalanceIff(m: Store, id: string, k: string, v: string)
    requires TokenOk(m, id) && PlainId(id) && InFamily(k, 'b', id)
    ensures TokenOk(m[k := v], id) <==> Val(v) == Stored(m, k)
  {
    var m' := m[k := v];
    HeldUpdate(m, k, v, id);
    SumUpdate(Held(m, id), k, Val(v));
    forall a ensures CKey(id, a) != k && TKey(id, a) != k {
      assert CKey(id, a)[0] == 'c' && TKey(id, a)[0] == 't';
    }
  }

  lemma TransferOthers(m: Store, id: string, from: string, to: string, vf: string, vt: string)
    requires TokensOk(m) && |from| == ADDR && |to| == ADDR
    requires Readable(vf) && Readable(vt)
    ensures var m' := m[BKey(id, from) := vf][BKey(id, to) := vt];
            NumbersFormed(m') && forall other :: PlainId(other) && other != id ==> TokenOk(m', other)
  {
    FormedUpdate(m, BKey(id, from), vf);
    FormedUpdate(m[BKey(id, from) := vf], BKey(id, to), vt);
    forall other | PlainId(other) && other != id
      ensures TokenOk(m[BKey(id, from) := vf][BKey(id, to) := vt], other)
    {
      assert TokenOk(m, other);
      Apart(id, from, other);
      Apart(id, to, other);
      TwoWritesApart(m, id, BKey(id, from), vf, BKey(id, to), vt, other);
    }
  }

  lemma MarkKeeps(m: Store, id: string, a: string, mark: string)
    requires TokensOk(m)
    ensures TokensOk(m[FKey(id, a) := mark])
  {
    assert FKey(id, a)[..2] == "f/";
    FormedUpdate(m, FKey(id, a), mark);
    forall other | PlainId(other) ensures TokenOk(m[FKey(id, a) := mark], other) {
      assert TokenOk(m, other);
      Frame(m, FKey(id, a), mark, other);
    }
  }
}
