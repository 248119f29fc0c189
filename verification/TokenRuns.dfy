/** The supply invariant over scripts and runs of scripts, and exactly where the code would break it. */
module TokenRuns {
  import opened U64
  import opened MapSum
  import opened Wrappers
  import opened Bytes
  import opened TokenSpec
  import opened TokenProofs

  /** Pending writes never touch the owner of a token that is already stored. */
  ghost predicate OwnersKept(db: Store, mp: Store) {
    forall id :: PlainId(id) && id in db ==> id !in mp
  }

  /** What holds whatever is done: numbers can be read, and owners stay. */
  ghost predicate Formed(db: Store, mp: Store) {
    NumbersFormed(db + mp) && OwnersKept(db, mp)
  }

  ghost predicate State(db: Store, mp: Store) {
    Formed(db, mp) && SuppliesRight(db + mp)
  }

  /** A known operation with its arguments in place; its executor is an address, its recipient any text. */
  predicate WellFormed(sc: Option<Script>, executor: string) {
    sc.Some? && Known(sc.value.name) && |sc.value.args| >= Arity(sc.value.name) && IsAddress(executor)
  }

  /** The amount fits int64 or, as a negative number, takes back no more than the issuer holds. */
  predicate MintGuard(m: Store, id: string, executor: string, amount: u64) {
    PlainId(id) ==> amount < HALF || TWO64 - amount <= Stored(m, BKey(id, executor))
  }

  /**
   * Nothing moves; or the recipient is an address, and for a plain id not the sender's; or it is none, and
   * neither the id nor what its key is mistaken for is plain.
   */
  predicate TransferGuard(id: string, executor: string, amount: u64, addr: string) {
    || amount == 0
    || if |addr| == ADDR then PlainId(id) ==> executor != addr else !PlainId(id) && !SplitsPlain(BKey(id, addr))
  }

  predicate Guard(m: Store, sc: Option<Script>, executor: string)
    requires WellFormed(sc, executor)
  {
    var name, args := sc.value.name, sc.value.args;
    && (name == "new" ==> NewGuard(m, TextOf(args[0]), executor, NumberOf(args[1])))
    && (name == "mint" ==> MintGuard(m, TextOf(args[0]), executor, NumberOf(args[1])))
    && (name == "transfer" ==> TransferGuard(TextOf(args[0]), executor, NumberOf(args[1]), TextOf(args[2])))
  }

  /**
   * The operation does not crash; if it is done, numbers can still be read and owners stay, and every supply is
   * right after it just if `guard` holds.
   */
  ghost predicate KeptIff(db: Store, d: Dealt, guard: bool) {
    !d.Panicked? && (d.Done? ==> Formed(db, d.mp) && (SuppliesRight(db + d.mp) <==> guard))
  }

  /** Writing to the overlay writes to the merged store. */
  lemma MergeWrite(db: Store, mp: Store, k: string, v: string)
    ensures db + mp[k := v] == (db + mp)[k := v]
  {
  }

  lemma MergeTwo(db: Store, mp: Store, k1: string, v1: string, k2: string, v2: string)
    ensures db + mp[k1 := v1][k2 := v2] == (db + mp)[k1 := v1][k2 := v2]
  {
    MergeWrite(db, mp, k1, v1);
    MergeWrite(db, mp[k1 := v1], k2, v2);
  }

  lemma MergeNew(db: Store, mp: Store, id: string, owner: string, total: u64, precision: u64)
    ensures db + AfterNew(mp, id, owner, total, precision) == AfterNew(db + mp, id, owner, total, precision)
  {
    var m1 := mp[id := owner];
    var m3 := m1[BKey(id, owner) := E64(0)][TKey(id, owner) := E64(total)];
    MergeWrite(db, mp, id, owner);
    MergeTwo(db, m1, BKey(id, owner), E64(0), TKey(id, owner), E64(total));
    MergeTwo(db, m3, PKey(id), E64(precision), FKey(id, owner), LE(0, 1));
  }

  lemma NewOwners(db: Store, mp: Store, id: string, owner: string, total: u64, precision: u64)
    requires OwnersKept(db, mp) && id !in db
    ensures OwnersKept(db, AfterNew(mp, id, owner, total, precision))
  {
    forall other | PlainId(other) && other in db ensures other !in AfterNew(mp, id, owner, total, precision) {
    }
  }

  lemma NewStateIff(db: Store, executor: string, mp: Store, id: string, total: u64, precision: u64)
    requires State(db, mp) && IsAddress(executor)
    ensures KeptIff(db, Deal0(db, executor, mp, id, total, precision), NewGuard(db + mp, id, executor, total))
  {
    hide NumbersFormed, SuppliesRight, NewGuard, IsAddress;
    var d := Deal0(db, executor, mp, id, total, precision);
    if d.Done? {
      assert d.mp == AfterNew(mp, id, executor, total, precision);
      NewKeepsIff(db + mp, id, executor, total, precision);
      MergeNew(db, mp, id, executor, total, precision);
      NewOwners(db, mp, id, executor, total, precision);
    }
  }

  lemma MintReads(db: Store, executor: string, mp: Store, id: string)
    requires State(db, mp) && id in db && db[id] == executor
    ensures var m := db + mp;
            && (PlainId(id) ==> id in m && m[id] == executor && |executor| == ADDR)
            && Read(db, mp, TKey(id, executor)) == Some(Stored(m, TKey(id, executor)))
            && Read(db, mp, CKey(id, executor)) == Some(Stored(m, CKey(id, executor)))
            && Read(db, mp, BKey(id, executor)) == Some(Stored(m, BKey(id, executor)))
            && (PlainId(id) ==> Stored(m, CKey(id, executor)) <= Stored(m, TKey(id, executor)) < HALF)
  {
    assert PlainId(id) ==> TokenOk(db + mp, id);
    KeysDiffer(id, executor, executor);
    assert TKey(id, executor)[0] == 't' && TKey(id, executor)[1] == '/';
    ReadStored(db, mp, TKey(id, executor));
    ReadStored(db, mp, CKey(id, executor));
    ReadStored(db, mp, BKey(id, executor));
  }

  lemma MintForm(db: Store, executor: string, mp: Store, id: string, amount: u64)
    requires State(db, mp) && id in db && db[id] == executor
    ensures var m, d := db + mp, Deal1(db, executor, mp, id, amount);
            if ToInt64(Stored(m, CKey(id, executor)))
               > SubInt64(ToInt64(Stored(m, TKey(id, executor))), ToInt64(amount))
            then d == Rejected(Overflow)
            else d == Done(mp[CKey(id, executor) := E64(Add(Stored(m, CKey(id, executor)), amount))]
                             [BKey(id, executor) := E64(Add(Stored(m, BKey(id, executor)), amount))])
  {
    MintReads(db, executor, mp, id);
  }

  /**
   * A mint that the signed comparison lets through keeps the supply right if and only if its
   * amount is below 2^63, or burns, read as a negative number, no more than the owner holds.
   */
  lemma MintStateIff(db: Store, executor: string, mp: Store, id: string, amount: u64)
    requires State(db, mp) && |executor| == ADDR
    ensures KeptIff(db, Deal1(db, executor, mp, id, amount), MintGuard(db + mp, id, executor, amount))
  {
    hide NumbersFormed, SuppliesRight, Deal1;
    if Deal1(db, executor, mp, id, amount).Done? {
      MintDone(db, executor, mp, id, amount);
    }
    MintNoCrash(db, executor, mp, id, amount);
  }

  lemma MintNoCrash(db: Store, executor: string, mp: Store, id: string, amount: u64)
    requires State(db, mp)
    ensures !Deal1(db, executor, mp, id, amount).Panicked?
    ensures Deal1(db, executor, mp, id, amount).Done? ==> id in db && db[id] == executor
  {
    if id in db && db[id] == executor {
      MintForm(db, executor, mp, id, amount);
    }
  }

  lemma MintDone(db: Store, executor: string, mp: Store, id: string, amount: u64)
    requires State(db, mp) && |executor| == ADDR && Deal1(db, executor, mp, id, amount).Done?
    ensures Formed(db, Deal1(db, executor, mp, id, amount).mp)
    ensures SuppliesRight(db + Deal1(db, executor, mp, id, amount).mp) <==> MintGuard(db + mp, id, executor, amount)
  {
    hide Deal1, Read, ToInt64, SubInt64, TokenOk, Readable;
    MintNoCrash(db, executor, mp, id, amount);
    MintForm(db, executor, mp, id, amount);
    var m := db + mp;
    var c, b := Add(Stored(m, CKey(id, executor)), amount), Add(Stored(m, BKey(id, executor)), amount);
    var m' := m[CKey(id, executor) := E64(c)][BKey(id, executor) := E64(b)];
    ValE64(c);
    ValE64(b);
    MergeTwo(db, mp, CKey(id, executor), E64(c), BKey(id, executor), E64(b));
    MintOthers(m, id, executor, E64(c), E64(b));
    KeysDiffer(id, executor, executor);
    if PlainId(id) {
      MintReads(db, executor, mp, id);
      MintOutcome(m, id, executor, amount, E64(c), E64(b));
    }
    assert SuppliesRight(m') <==> (PlainId(id) ==> TokenOk(m', id));
  }

  lemma MoveReads(db: Store, mp: Store, kf: string, kt: string, amount: u64)
    requires NumbersFormed(db + mp) && IsNumeric(kf) && IsNumeric(kt)
    ensures var d := Move(db, mp, kf, kt, amount);
            !d.Panicked? && (d.Done? <==> amount <= Stored(db + mp, kf))
  {
    ReadStored(db, mp, kf);
    ReadStored(db, mp, kt);
  }

  /** What a move writes: `vf` and `vt`, the encoded new amounts of the two keys. */
  lemma MoveForm(db: Store, mp: Store, kf: string, kt: string, amount: u64) returns (vf: string, vt: string)
    requires NumbersFormed(db + mp) && IsNumeric(kf) && IsNumeric(kt)
    requires amount <= Stored(db + mp, kf)
    ensures Move(db, mp, kf, kt, amount) == Done(mp[kf := vf][kt := vt])
    ensures |vf| == 8 && FromLE(vf) == Stored(db + mp, kf) - amount
    ensures |vt| == 8 && FromLE(vt) == Add(Stored(db + mp, kt), amount)
  {
    hide NumbersFormed, IsNumeric, Read, Stored, Readable, LE, FromLE;
    ReadStored(db, mp, kf);
    ReadStored(db, mp, kt);
    var f, t := Stored(db + mp, kf) - amount, Add(Stored(db + mp, kt), amount);
    vf, vt := E64(f), E64(t);
    ValE64(f);
    ValE64(t);
  }

  lemma MoveStateIff(db: Store, executor: string, mp: Store, id: string, amount: u64, addr: string)
    requires State(db, mp) && id in db + mp && |executor| == ADDR
    ensures KeptIff(db, Move(db, mp, BKey(id, executor), BKey(id, addr), amount),
              TransferGuard(id, executor, amount, addr))
  {
    var m, kf, kt := db + mp, BKey(id, executor), BKey(id, addr);
    KeysDiffer(id, executor, executor);
    KeysDiffer(id, addr, addr);
    MoveReads(db, mp, kf, kt, amount);
    if amount <= Stored(m, kf) {
      var vf, vt := MoveForm(db, mp, kf, kt, amount);
      var m' := m[kf := vf][kt := vt];
      hide Move, TokenOk, Stored, IsNumeric, TransferGuard;
      if |addr| == ADDR {
        MovedToAddress(m, executor, id, amount, addr, vf, vt);
      } else {
        MovedElsewhere(m, executor, id, amount, addr, vf, vt);
      }
      MergeTwo(db, mp, kf, vf, kt, vt);
    }
  }

  lemma MovedToAddress(m: Store, executor: string, id: string, amount: u64, addr: string, vf: string, vt: string)
    requires TokensOk(m) && id in m && |executor| == |addr| == ADDR && amount <= Stored(m, BKey(id, executor))
    requires |vf| == 8 && FromLE(vf) == Stored(m, BKey(id, executor)) - amount
    requires |vt| == 8 && FromLE(vt) == Add(Stored(m, BKey(id, addr)), amount)
    ensures var m' := m[BKey(id, executor) := vf][BKey(id, addr) := vt];
            NumbersFormed(m') && (SuppliesRight(m') <==> TransferGuard(id, executor, amount, addr))
  {
    hide TokenOk, Stored, Val;
    ValOfEight(vf);
    ValOfEight(vt);
    var m' := m[BKey(id, executor) := vf][BKey(id, addr) := vt];
    TransferOthers(m, id, executor, addr, vf, vt);
    if PlainId(id) {
      assert TokenOk(m, id);
      HeldFits(m, id);
      TransferFits(m, id, executor, amount, addr);
      TransferOkIff(m, id, executor, amount, addr, vf, vt);
    }
    assert SuppliesRight(m') <==> (PlainId(id) ==> TokenOk(m', id));
  }

  /** The id of a plain token whose balance the key of a recipient that is no address is mistaken for. */
  lemma Mistaken(id: string, addr: string, other: string)
    requires PlainId(other)
    ensures InFamily(BKey(id, addr), 'b', other) <==> SplitsPlain(BKey(id, addr)) && other == IdIn(BKey(id, addr))
    ensures !InFamily(BKey(id, addr), 'b', other) ==> !Relevant(BKey(id, addr), other)
  {
    var k := BKey(id, addr);
    assert k[0] == 'b' && k[1] == '/';
    if |k| >= 2 + ADDR {
      assert k[2..2 + (|k| - ADDR - 2)] == IdIn(k);
    }
  }

  /** Sending to a text that is no address loses coins of a plain id, and may add coins to another plain id. */
  lemma MovedElsewhere(m: Store, executor: string, id: string, amount: u64, addr: string, vf: string, vt: string)
    requires TokensOk(m) && |executor| == ADDR && |addr| != ADDR && amount <= Stored(m, BKey(id, executor))
    requires |vf| == 8 && FromLE(vf) == Stored(m, BKey(id, executor)) - amount
    requires |vt| == 8 && FromLE(vt) == Add(Stored(m, BKey(id, addr)), amount)
    ensures var m' := m[BKey(id, executor) := vf][BKey(id, addr) := vt];
            NumbersFormed(m') && (SuppliesRight(m') <==> TransferGuard(id, executor, amount, addr))
  {
    hide TokenOk, Stored, Relevant, InFamily, Readable;
    ValOfEight(vf);
    ValOfEight(vt);
    var kf, kt := BKey(id, executor), BKey(id, addr);
    var m' := m[kf := vf][kt := vt];
    KeysDiffer(id, executor, executor);
    KeysDiffer(id, addr, addr);
    FormedUpdate(m, kf, vf);
    FormedUpdate(m[kf := vf], kt, vt);
    forall other | PlainId(other)
      ensures TokenOk(m', other) <==> amount == 0 || (other != id && !InFamily(kt, 'b', other))
    {
      MovedOther(m, executor, id, amount, addr, vf, vt, other);
    }
    if SplitsPlain(kt) {
      Mistaken(id, addr, IdIn(kt));
    }
    forall other | PlainId(other) ensures InFamily(kt, 'b', other) ==> SplitsPlain(kt) {
      Mistaken(id, addr, other);
    }
  }

  lemma MovedOther(m: Store, executor: string, id: string, amount: u64,
            addr: string, vf: string, vt: string, other: string)
    requires TokensOk(m) && |executor| == ADDR && |addr| != ADDR && amount <= Stored(m, BKey(id, executor))
    requires |vf| == 8 && FromLE(vf) == Stored(m, BKey(id, executor)) - amount
    requires |vt| == 8 && FromLE(vt) == Add(Stored(m, BKey(id, addr)), amount) && PlainId(other)
    ensures TokenOk(m[BKey(id, executor) := vf][BKey(id, addr) := vt], other) <==>
            amount == 0 || (other != id && !InFamily(BKey(id, addr), 'b', other))
  {
    hide TokenOk, Relevant, Readable;
    ValOfEight(vf);
    ValOfEight(vt);
    var kf, kt := BKey(id, executor), BKey(id, addr);
    var m1 := m[kf := vf];
    assert TokenOk(m, other);
    Families(id, executor, other);
    Mistaken(id, addr, other);
    assert |kf| != |kt|;
    if other == id {
      WriteBalanceIff(m, id, kf, vf);
      Frame(m1, kt, vt, id);
    } else {
      Apart(id, executor, other);
      Frame(m, kf, vf, other);
      StoredWrite(m, kf, vf, kt);
      if InFamily(kt, 'b', other) {
        WriteBalanceIff(m1, other, kt, vt);
      } else {
        Frame(m1, kt, vt, other);
      }
    }
  }

  lemma HeldFits(m: Store, id: string)
    requires TokenOk(m, id)
    ensures Sum(Held(m, id)) < HALF
  {
  }

  /** For a plain id, a transfer keeps the supply right if and only if it goes to another address or moves nothing. */
  lemma TransferStateIff(db: Store, executor: string, mp: Store, id: string, amount: u64, addr: string)
    requires State(db, mp) && |executor| == ADDR
    ensures KeptIff(db, Deal2(db, executor, mp, id, amount, addr), TransferGuard(id, executor, amount, addr))
  {
    hide Move, NumbersFormed, SuppliesRight;
    if id in mp || id in db {
      MoveStateIff(db, executor, mp, id, amount, addr);
    }
  }

  lemma MarkState(db: Store, executor: string, mp: Store, id: string, addr: string, mark: string)
    requires State(db, mp)
    ensures KeptIff(db, DealMark(db, executor, mp, id, addr, mark), true)
  {
    hide NumbersFormed, SuppliesRight, TokenOk;
    var d := DealMark(db, executor, mp, id, addr, mark);
    if d.Done? {
      MarkKeeps(db + mp, id, addr, mark);
      assert db + d.mp == (db + mp)[FKey(id, addr) := mark];
      forall other | PlainId(other) && other in db ensures other !in d.mp {
      }
    }
  }

  /**
   * An operation does not crash; if it is done, every token's supply is right after it if and only if its guard
   * holds.
   */
  lemma DealStateIff(db: Store, executor: string, mp: Store, sc: Option<Script>)
    requires State(db, mp) && WellFormed(sc, executor)
    ensures KeptIff(db, Deal(db, executor, mp, sc), Guard(db + mp, sc, executor))
  {
    hide State, Deal0, Deal1, Deal2, DealMark, NewGuard, MintGuard, TransferGuard, LE;
    var name, args := sc.value.name, sc.value.args;
    var id := TextOf(args[0]);
    if name == "new" {
      NewStateIff(db, executor, mp, id, NumberOf(args[1]), NumberOf(args[2]));
    } else if name == "mint" {
      MintStateIff(db, executor, mp, id, NumberOf(args[1]));
    } else if name == "transfer" {
      TransferStateIff(db, executor, mp, id, NumberOf(args[1]), TextOf(args[2]));
    } else {
      MarkState(db, executor, mp, id, TextOf(args[1]), LE(if name == "freeze" then 1 else 0, 1));
    }
  }

  /** Every supply is right before the script and after each of its operations, up to one that is refused. */
  ghost predicate AlwaysRight(db: Store, executor: string, mp: Store, scs: seq<Option<Script>>)
    decreases |scs|
  {
    && SuppliesRight(db + mp)
    && (scs == [] ||
        var d := Deal(db, executor, mp, scs[0]);
        d.Done? ==> AlwaysRight(db, executor, d.mp, scs[1..]))
  }

  predicate AllWellFormed(scs: seq<Option<Script>>, executor: string) {
    forall i :: 0 <= i < |scs| ==> WellFormed(scs[i], executor)
  }

  /** Each operation of the script that is done meets its guard. */
  predicate GuardsHold(db: Store, executor: string, mp: Store, scs: seq<Option<Script>>)
    requires AllWellFormed(scs, executor)
    decreases |scs|
  {
    scs == [] ||
    var d := Deal(db, executor, mp, scs[0]);
    d.Done? ==> Guard(db + mp, scs[0], executor) && GuardsHold(db, executor, d.mp, scs[1..])
  }

  lemma {:induction false} DealAllStateIff(db: Store, executor: string, mp: Store, scs: seq<Option<Script>>)
    requires State(db, mp) && AllWellFormed(scs, executor)
    ensures AlwaysRight(db, executor, mp, scs) <==> GuardsHold(db, executor, mp, scs)
    ensures AlwaysRight(db, executor, mp, scs) ==> KeptIff(db, DealAll(db, executor, mp, scs), true)
    decreases |scs|
  {
    hide Formed, SuppliesRight, Deal, Guard, WellFormed;
    if scs != [] {
      DealStateIff(db, executor, mp, scs[0]);
      var d := Deal(db, executor, mp, scs[0]);
      if d.Done? && SuppliesRight(db + d.mp) {
        DealAllStateIff(db, executor, d.mp, scs[1..]);
      } else if d.Done? {
        assert !AlwaysRight(db, executor, d.mp, scs[1..]);
      }
    }
  }

  /** What one executor asks for in one transaction. */
  datatype Request = Request(scs: seq<Option<Script>>, executor: string)

  predicate WellFormedRequests(rs: seq<Request>) {
    forall i :: 0 <= i < |rs| ==> AllWellFormed(rs[i].scs, rs[i].executor)
  }

  /** The token store after a run of requests; a rejected one leaves it alone. */
  function AfterRequest(db: Store, r: Request): Store {
    var next := Execute(db, r.scs, r.executor);
    if next.Some? then next.value else db
  }

  function RunRequests(db: Store, rs: seq<Request>): Store
    decreases |rs|
  {
    if rs == [] then db else RunRequests(AfterRequest(db, rs[0]), rs[1..])
  }

  /** Every supply is right on each store of the run, and after each operation of each request. */
  ghost predicate RunAlwaysRight(db: Store, rs: seq<Request>)
    decreases |rs|
  {
    && SuppliesRight(db)
    && (rs == [] ||
        (AlwaysRight(db, rs[0].executor, map[], rs[0].scs) && RunAlwaysRight(AfterRequest(db, rs[0]), rs[1..])))
  }

  predicate RunGuardsHold(db: Store, rs: seq<Request>)
    requires WellFormedRequests(rs)
    decreases |rs|
  {
    rs == [] ||
    (GuardsHold(db, rs[0].executor, map[], rs[0].scs) && RunGuardsHold(AfterRequest(db, rs[0]), rs[1..]))
  }

  /**
   * Over every run of requests, at every moment, the balances of each token sum to what has been minted of it,
   * which never exceeds its declared total, if and only if each operation that is done meets its guard.
   */
  lemma {:induction false} RunKeepsSupply(db: Store, rs: seq<Request>)
    requires TokensOk(db) && WellFormedRequests(rs)
    ensures RunAlwaysRight(db, rs) <==> RunGuardsHold(db, rs)
    ensures RunAlwaysRight(db, rs) ==> TokensOk(RunRequests(db, rs))
    decreases |rs|
  {
    hide NumbersFormed, SuppliesRight, AlwaysRight, GuardsHold, WellFormed;
    if rs != [] {
      assert db + map[] == db;
      DealAllStateIff(db, rs[0].executor, map[], rs[0].scs);
      if GuardsHold(db, rs[0].executor, map[], rs[0].scs) {
        RunKeepsSupply(AfterRequest(db, rs[0]), rs[1..]);
      }
    }
  }

  lemma EmptyStoreOk()
    ensures TokensOk(map[])
  {
    var m: Store := map[];
    forall id | PlainId(id) ensures TokenOk(m, id) {
      assert Held(m, id) == map[];
    }
  }

  // -------------------------------------------------- where the code would break it

  /** The arithmetic behind `MintStateIff`: counter `c`, total `t`, owner's balance `b`. */
  lemma MintArithmetic(c: u64, t: u64, b: u64, amount: u64)
    requires b <= c <= t < HALF
    requires ToInt64(c) <= SubInt64(ToInt64(t), ToInt64(amount))
    ensures c - b + Add(b, amount) == Add(c, amount) <= t <==> amount < HALF || TWO64 - amount <= b
  {
  }

  lemma MintOutcome(m: Store, id: string, owner: string, amount: u64, vc: string, vb: string)
    requires TokensOk(m) && PlainId(id) && id in m && m[id] == owner
    requires Val(vc) == Add(Stored(m, CKey(id, owner)), amount) && Val(vb) == Add(Stored(m, BKey(id, owner)), amount)
    requires ToInt64(Stored(m, CKey(id, owner))) <= SubInt64(ToInt64(Stored(m, TKey(id, owner))), ToInt64(amount))
    ensures TokenOk(m[CKey(id, owner) := vc][BKey(id, owner) := vb], id) <==>
              amount < HALF || TWO64 - amount <= Stored(m, BKey(id, owner))
  {
    assert TokenOk(m, id);
    hide TokensOk, Held, ToInt64, SubInt64, Val, FromLE;
    BalanceWithinMinted(m, id, owner);
    MintNumbers(m, id, owner, vc, vb);
    KeysDiffer(id, owner, owner);
    MintArithmetic(Stored(m, CKey(id, owner)), Stored(m, TKey(id, owner)), Stored(m, BKey(id, owner)), amount);
  }

  // ------------------------------------------------------------------ refusals

  /** Which operation is refused, and with which error; a mint of less than 2^63 is compared on whole numbers. */
  lemma RefusedIff(db: Store, executor: string, mp: Store, sc: Option<Script>)
    requires State(db, mp) && WellFormed(sc, executor)
    ensures var name, args, d := sc.value.name, sc.value.args, Deal(db, executor, mp, sc);
            var id, m := TextOf(args[0]), db + mp;
            && (d == Rejected(TokenExist) <==> name == "new" && id in m)
            && (d == Rejected(NotExist) <==> name != "new" && if name == "transfer" then id !in m else id !in db)
            && (d == Rejected(PermissionDenied) <==>
                 name in {"mint", "freeze", "unfreeze"} && id in db && db[id] != executor)
            && (d == Rejected(InsufficientBalance) <==>
                 name == "transfer" && id in m && Stored(m, BKey(id, executor)) < NumberOf(args[1]))
            && (PlainId(id) && NumberOf(args[1]) < HALF ==>
                 (d == Rejected(Overflow) <==>
                   && name == "mint" && id in db && db[id] == executor
                   && Stored(m, CKey(id, executor)) + NumberOf(args[1]) > Stored(m, TKey(id, executor))))
  {
    hide State, Deal0, Deal1, Deal2, DealMark, LE, Stored;
    var name, args := sc.value.name, sc.value.args;
    var id := TextOf(args[0]);
    if name == "new" {
      NewRefused(db, executor, mp, id, NumberOf(args[1]), NumberOf(args[2]));
    } else if name == "mint" {
      MintRefused(db, executor, mp, id, NumberOf(args[1]));
    } else if name == "transfer" {
      TransferRefused(db, executor, mp, id, NumberOf(args[1]), TextOf(args[2]));
    } else {
      MarkRefused(db, executor, mp, id, TextOf(args[1]), LE(if name == "freeze" then 1 else 0, 1));
    }
  }

  lemma NewRefused(db: Store, executor: string, mp: Store, id: string, total: u64, precision: u64)
    ensures var d := Deal0(db, executor, mp, id, total, precision);
            if id in db + mp then d == Rejected(TokenExist) else d.Done?
  {
  }

  lemma MarkRefused(db: Store, executor: string, mp: Store, id: string, addr: string, mark: string)
    ensures var d := DealMark(db, executor, mp, id, addr, mark);
            if id !in db then d == Rejected(NotExist)
            else if db[id] != executor then d == Rejected(PermissionDenied)
            else d.Done?
  {
  }

  lemma MintRefused(db: Store, executor: string, mp: Store, id: string, amount: u64)
    requires State(db, mp)
    ensures var m, d := db + mp, Deal1(db, executor, mp, id, amount);
            if id !in db then d == Rejected(NotExist)
            else if db[id] != executor then d == Rejected(PermissionDenied)
            else (d == Rejected(Overflow) || d.Done?)
                 && (PlainId(id) && amount < HALF ==>
                      (d.Done? <==> Stored(m, CKey(id, executor)) + amount <= Stored(m, TKey(id, executor))))
  {
    hide NumbersFormed, SuppliesRight;
    if id in db && db[id] == executor {
      MintReads(db, executor, mp, id);
      MintForm(db, executor, mp, id, amount);
    }
  }

  lemma TransferRefused(db: Store, executor: string, mp: Store, id: string, amount: u64, addr: string)
    requires State(db, mp)
    ensures var d := Deal2(db, executor, mp, id, amount, addr);
            if id !in db + mp then d == Rejected(NotExist)
            else if amount > Stored(db + mp, BKey(id, executor)) then d == Rejected(InsufficientBalance)
            else d.Done?
  {
    hide NumbersFormed, SuppliesRight, Stored;
    if id in db + mp {
      MoveReads(db, mp, BKey(id, executor), BKey(id, addr), amount);
    }
  }

  /** The script that makes a token can transfer it, though its maker still holds none, but cannot mint it. */
  lemma SameScript(db: Store, owner: string, id: string, total: u64, precision: u64, amount: u64, to: string)
    requires TokensOk(db) && IsAddress(owner) && id !in db && NewGuard(db, id, owner, total)
    ensures var mp := AfterNew(map[], id, owner, total, precision);
            && Deal0(db, owner, map[], id, total, precision) == Done(mp)
            && (Deal2(db, owner, mp, id, amount, to).Done? <==> amount == 0)
            && Deal1(db, owner, mp, id, amount) == Rejected(NotExist)
  {
    hide NumbersFormed, SuppliesRight, NewGuard, IsAddress, Deal2, Stored;
    assert db + map[] == db;
    NewStateIff(db, owner, map[], id, total, precision);
    var mp := AfterNew(map[], id, owner, total, precision);
    TransferRefused(db, owner, mp, id, amount, to);
    MadeEmpty(db, owner, id, total, precision);
  }

  lemma MadeEmpty(db: Store, owner: string, id: string, total: u64, precision: u64)
    ensures Stored(db + AfterNew(map[], id, owner, total, precision), BKey(id, owner)) == 0
  {
    var mp := AfterNew(map[], id, owner, total, precision);
    ValE64(0);
    assert BKey(id, owner)[0] == 'b' && TKey(id, owner)[0] == 't' && PKey(id)[0] == 'p' && FKey(id, owner)[0] == 'f';
    assert mp[BKey(id, owner)] == E64(0);
  }
}
