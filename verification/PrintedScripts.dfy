/** From the parameters of an API call to their effect on the token store. */
module PrintedScripts {
  import opened U64
  import opened Wrappers
  import opened Tokens
  import opened TokenSpec
  import opened TokenProofs
  import opened TokenRuns
  import opened ScriptText
  import opened ParseSpec

  lemma ExecuteOne(db: Store, sc: Script, owner: string)
    ensures var d := Deal(db, owner, map[], Some(sc));
            Execute(db, [Some(sc)], owner) == if d.Done? then Some(db + d.mp) else None
  {
    var scs := [Some(sc)];
    var d := Deal(db, owner, map[], Some(sc));
    if d.Done? {
      assert scs[1..] == [];
      assert DealAll(db, owner, d.mp, scs[1..]) == Done(d.mp);
    }
  }

  lemma EmptyOverlay(db: Store)
    ensures db + map[] == db
    ensures TokensOk(db) ==> State(db, map[])
  {
    hide NumbersFormed, SuppliesRight;
    assert db + map[] == db;
  }

  /**
   * A printed transfer is rejected exactly when the token is unknown or the owner holds too little;
   * otherwise it moves exactly the amount, and leaves every other entry of the store as it was.
   */
  lemma PrintedTransfer(db: Store, symbol: string, amount: u64, to: string, owner: string)
    requires TokensOk(db) && PlainId(symbol) && Plain(symbol) && Plain(to)
    requires |owner| == ADDR && |to| == ADDR && owner != to
    ensures var r, kf, kt := RunScript(db, TransferText(symbol, amount, to), owner),
              BKey(symbol, owner), BKey(symbol, to);
            && (r.None? <==> symbol !in db || Stored(db, kf) < amount)
            && (r.Some? ==>
                  && TokensOk(r.value)
                  && Stored(r.value, kf) == Stored(db, kf) - amount && Stored(r.value, kt) == Stored(db, kt) + amount
                  && forall k :: k != kf && k != kt ==>
                       (k in r.value <==> k in db) && (k in db ==> r.value[k] == db[k]))
  {
    hide Parse, Execute, DealAll, Move, NumbersFormed, SuppliesRight;
    TransferRoundTrip(symbol, amount, to);
    ExecuteOne(db, TransferScript(symbol, amount, to), owner);
    EmptyOverlay(db);
    if symbol in db {
      TransferEffect(db, symbol, amount, to, owner);
    }
  }

  lemma TransferEffect(db: Store, symbol: string, amount: u64, to: string, owner: string)
    requires TokensOk(db) && PlainId(symbol) && symbol in db
    requires |owner| == ADDR && |to| == ADDR && owner != to
    ensures var d, kf, kt := Move(db, map[], BKey(symbol, owner), BKey(symbol, to), amount),
              BKey(symbol, owner), BKey(symbol, to);
            && (d.Done? <==> amount <= Stored(db, kf))
            && (d.Done? ==>
                  && TokensOk(db + d.mp)
                  && Stored(db + d.mp, kf) == Stored(db, kf) - amount &&
                       Stored(db + d.mp, kt) == Stored(db, kt) + amount
                  && d.mp.Keys == {kf, kt})
  {
    assert NumbersFormed(db) && TokenOk(db, symbol);
    EmptyOverlay(db);
    HeldFits(db, symbol);
    hide Move, NumbersFormed, SuppliesRight, TokenOk, E64, Stored, Held, Readable, Val;
    var kf, kt := BKey(symbol, owner), BKey(symbol, to);
    KeysDiffer(symbol, owner, owner);
    KeysDiffer(symbol, to, to);
    MoveReads(db, map[], kf, kt, amount);
    if amount <= Stored(db, kf) {
      var vf, vt := MoveForm(db, map[], kf, kt, amount);
      TransferFits(db, symbol, owner, amount, to);
      MoveStateIff(db, owner, map[], symbol, amount, to);
      assert kf != kt by {
        assert kf[2 + |symbol|..] == owner && kt[2 + |symbol|..] == to;
      }
      StoredTwo(db, kf, vf, kt, vt);
      ValOfEight(vf);
      ValOfEight(vt);
    }
  }

  lemma StoredTwo(db: Store, kf: string, vf: string, kt: string, vt: string)
    requires kf != kt
    ensures Stored(db + map[][kf := vf][kt := vt], kf) == Val(vf) &&
              Stored(db + map[][kf := vf][kt := vt], kt) == Val(vt)
  {
  }

  lemma MintEffect(db: Store, symbol: string, amount: u64, owner: string)
    requires TokensOk(db) && PlainId(symbol) && symbol in db && db[symbol] == owner && |owner| == ADDR && amount < HALF
    ensures var d, kc, kb := Deal1(db, owner, map[], symbol, amount), CKey(symbol, owner), BKey(symbol, owner);
            && (d.Done? <==> Stored(db, kc) + amount <= Stored(db, TKey(symbol, owner)))
            && (d.Done? ==> MintedTo(db, d.mp, kc, kb, amount))
  {
    EmptyOverlay(db);
    MintReads(db, owner, map[], symbol);
    MintForm(db, owner, map[], symbol, amount);
    var c, b := Stored(db, CKey(symbol, owner)), Stored(db, BKey(symbol, owner));
    if c + amount <= Stored(db, TKey(symbol, owner)) {
      BalanceWithinMinted(db, symbol, owner);
      ValE64(Add(c, amount));
      ValE64(Add(b, amount));
      KeysDiffer(symbol, owner, owner);
      assert TokenOk(db, symbol);
    }
  }

  /** The overlay of a mint holds the two credited entries. */
  predicate MintedTo(db: Store, mp: Store, kc: string, kb: string, amount: u64) {
    mp.Keys == {kc, kb} && Val(mp[kc]) == Stored(db, kc) + amount && Val(mp[kb]) == Stored(db, kb) + amount
  }

  /**
   * A printed mint of less than 2^63 is rejected exactly when the owner did not issue the token or
   * the total would be exceeded; otherwise it credits the owner, and counts, exactly the amount.
   */
  lemma PrintedMint(db: Store, symbol: string, amount: u64, owner: string)
    requires TokensOk(db) && PlainId(symbol) && Plain(symbol) && |owner| == ADDR && amount < HALF
    ensures var r, kc, kb := RunScript(db, MintText(symbol, amount), owner), CKey(symbol, owner), BKey(symbol, owner);
            && (r.None? <==>
                 symbol !in db || db[symbol] != owner || Stored(db, kc) + amount > Stored(db, TKey(symbol, owner)))
            && (r.Some? ==>
                  && TokensOk(r.value)
                  && Stored(r.value, kc) == Stored(db, kc) + amount && Stored(r.value, kb) == Stored(db, kb) + amount
                  && forall k :: k != kc && k != kb ==>
                       (k in r.value <==> k in db) && (k in db ==> r.value[k] == db[k]))
  {
    hide Parse, Execute, DealAll, Deal1, NumbersFormed, SuppliesRight;
    MintRoundTrip(symbol, amount);
    MintRejected(db, symbol, amount, owner);
    ExecuteOne(db, MintScript(symbol, amount), owner);
    if symbol in db && db[symbol] == owner {
      MintEffect(db, symbol, amount, owner);
      EmptyOverlay(db);
      MintStateIff(db, owner, map[], symbol, amount);
    }
  }

  lemma MintRejected(db: Store, symbol: string, amount: u64, owner: string)
    ensures symbol !in db || db[symbol] != owner ==> !Deal1(db, owner, map[], symbol, amount).Done?
  {
  }

  /**
   * A printed `new` is rejected exactly when the token exists; otherwise it stores the owner, a zero balance,
   * the total, the precision and a mark, and nothing else, and every supply is right exactly under its guard.
   */
  lemma PrintedNew(db: Store, symbol: string, total: u64, precision: u64, owner: string)
    requires TokensOk(db) && Plain(symbol) && IsAddress(owner)
    ensures var r := RunScript(db, NewText(symbol, total, precision), owner);
            && (r.None? <==> symbol in db)
            && (r.Some? ==>
                  && NumbersFormed(r.value) && (SuppliesRight(r.value) <==> NewGuard(db, symbol, owner, total))
                  && symbol in r.value && r.value[symbol] == owner && Stored(r.value, BKey(symbol, owner)) == 0
                  && Stored(r.value, TKey(symbol, owner)) == total && Stored(r.value, PKey(symbol)) == precision
                  && forall k :: k !in NewKeys(symbol, owner) ==>
                       (k in r.value <==> k in db) && (k in db ==> r.value[k] == db[k]))
  {
    hide Parse, Execute, DealAll, NumbersFormed, SuppliesRight, NewGuard, Readable, Val, IsAddress;
    NewRoundTrip(symbol, total, precision);
    ExecuteOne(db, NewScript(symbol, total, precision), owner);
    EmptyOverlay(db);
    NewStateIff(db, owner, map[], symbol, total, precision);
    if symbol !in db {
      MergeNew(db, map[], symbol, owner, total, precision);
      NewStores(db, symbol, owner, total, precision);
    }
  }

  function NewKeys(id: string, owner: string): set<string> {
    {id, BKey(id, owner), TKey(id, owner), PKey(id), FKey(id, owner)}
  }

  lemma NewStores(db: Store, id: string, owner: string, total: u64, precision: u64)
    ensures var m := AfterNew(db, id, owner, total, precision);
            && id in m && m[id] == owner && Stored(m, BKey(id, owner)) == 0
            && Stored(m, TKey(id, owner)) == total && Stored(m, PKey(id)) == precision
            && forall k :: k !in NewKeys(id, owner) ==> (k in m <==> k in db) && (k in db ==> m[k] == db[k])
  {
    hide Val, E64, Readable;
    ValE64(0);
    ValE64(total);
    ValE64(precision);
    assert BKey(id, owner)[0] == 'b' && TKey(id, owner)[0] == 't' && PKey(id)[0] == 'p' && FKey(id, owner)[0] == 'f';
  }
}
