/** The executor object: its operations write an overlay map, which `Flush` adds to the store. */
module TokenExec {
  import opened U64
  import opened Wrappers
  import opened Bytes
  import opened TokenSpec
  import opened TokenProofs
  import opened TokenRuns

  class Exec {
    const db: Store
    var mp: Store

    constructor (db: Store)
      ensures this.db == db && mp == map[]
    {
      this.db := db;
      mp := map[];
    }

    /** `d` describes the overlay after an operation; one that fails leaves it alone. */
    ghost predicate Holds(d: Dealt, before: Store)
      reads this
    {
      mp == if d.Done? then d.mp else before
    }

    method ReadNumber(k: string) returns (n: Option<u64>)
      ensures n == Read(db, mp, k)
    {
      var v: string;
      if k in mp {
        v := mp[k];
      } else if k in db {
        v := db[k];
      } else {
        v := E64(0);
      }
      if |v| < 8 {
        return None;
      }
      var x := FromLE(v[..8]);
      return if x < TWO64 then Some(x) else None;
    }

    method New(executor: string, id: string, total: u64, precision: u64) returns (d: Dealt)
      modifies this
      ensures old(State(db, mp)) && IsAddress(executor) && d.Done? ==>
          Formed(db, mp) && (SuppliesRight(db + mp) <==> old(NewGuard(db + mp, id, executor, total)))
      ensures d == Deal0(db, executor, old(mp), id, total, precision) && Holds(d, old(mp))
    {
      hide Formed, SuppliesRight, IsAddress, NewGuard;
      if State(db, mp) && IsAddress(executor) {
        NewStateIff(db, executor, mp, id, total, precision);
      }
      if AKey(id) in mp {
        return Rejected(TokenExist);
      }
      if AKey(id) in db {
        return Rejected(TokenExist);
      }
      mp := mp[id := executor];
      mp := mp[BKey(id, executor) := E64(0)];
      mp := mp[TKey(id, executor) := E64(total)];
      mp := mp[PKey(id) := E64(precision)];
      mp := mp[FKey(id, executor) := LE(0, 1)];
      return Done(mp);
    }

    method Mint(executor: string, id: string, amount: u64) returns (d: Dealt)
      modifies this
      ensures old(State(db, mp)) && |executor| == ADDR ==> !d.Panicked?
      ensures old(State(db, mp)) && |executor| == ADDR && d.Done? ==>
          Formed(db, mp) && (SuppliesRight(db + mp) <==> old(MintGuard(db + mp, id, executor, amount)))
      ensures d == Deal1(db, executor, old(mp), id, amount) && Holds(d, old(mp))
    {
      hide Formed, SuppliesRight, MintGuard, Read, E64;
      if State(db, mp) && |executor| == ADDR {
        MintStateIff(db, executor, mp, id, amount);
      }
      if AKey(id) !in db {
        return Rejected(NotExist);
      }
      if db[AKey(id)] != executor {
        return Rejected(PermissionDenied);
      }
      var t := ReadNumber(TKey(id, executor));
      var c := ReadNumber(CKey(id, executor));
      if t.None? || c.None? {
        return Panicked;
      }
      if ToInt64(c.value) > SubInt64(ToInt64(t.value), ToInt64(amount)) {
        return Rejected(Overflow);
      }
      var b := ReadNumber(BKey(id, executor));
      if b.None? {
        return Panicked;
      }
      mp := mp[CKey(id, executor) := E64(Add(c.value, amount))];
      mp := mp[BKey(id, executor) := E64(Add(b.value, amount))];
      return Done(mp);
    }

    method Transfer(executor: string, id: string, amount: u64, addr: string) returns (d: Dealt)
      modifies this
      ensures old(State(db, mp)) && |executor| == ADDR ==> !d.Panicked?
      ensures old(State(db, mp)) && |executor| == ADDR && d.Done? ==>
          Formed(db, mp) && (SuppliesRight(db + mp) <==> TransferGuard(id, executor, amount, addr))
      ensures d == Deal2(db, executor, old(mp), id, amount, addr) && Holds(d, old(mp))
    {
      hide Formed, SuppliesRight, TransferGuard, Read, E64, BKey;
      if State(db, mp) && |executor| == ADDR {
        TransferStateIff(db, executor, mp, id, amount, addr);
      }
      if AKey(id) !in mp && AKey(id) !in db {
        return Rejected(NotExist);
      }
      var fromKey, toKey := BKey(id, executor), BKey(id, addr);
      var from := ReadNumber(fromKey);
      if from.None? {
        return Panicked;
      }
      if from.value < amount {
        return Rejected(InsufficientBalance);
      }
      var to := ReadNumber(toKey);
      if to.None? {
        return Panicked;
      }
      mp := mp[fromKey := E64(from.value - amount)];
      mp := mp[toKey := E64(Add(to.value, amount))];
      return Done(mp);
    }

    method Mark(executor: string, id: string, addr: string, mark: string) returns (d: Dealt)
      modifies this
      ensures old(State(db, mp)) ==> State(db, mp)
      ensures d == DealMark(db, executor, old(mp), id, addr, mark) && Holds(d, old(mp))
    {
      hide Formed, SuppliesRight;
      if State(db, mp) {
        MarkState(db, executor, mp, id, addr, mark);
      }
      if AKey(id) !in db {
        return Rejected(NotExist);
      }
      if db[AKey(id)] != executor {
        return Rejected(PermissionDenied);
      }
      mp := mp[FKey(id, addr) := mark];
      return Done(mp);
    }

    method Run(executor: string, sc: Option<Script>) returns (d: Dealt)
      modifies this
      ensures old(State(db, mp)) && WellFormed(sc, executor) ==> !d.Panicked?
      ensures old(State(db, mp)) && WellFormed(sc, executor) && d.Done? ==>
          Formed(db, mp) && (SuppliesRight(db + mp) <==> old(Guard(db + mp, sc, executor)))
      ensures d == Deal(db, executor, old(mp), sc) && Holds(d, old(mp))
    {
      hide Formed, SuppliesRight, Guard, NewGuard, MintGuard, TransferGuard;
      if State(db, mp) && WellFormed(sc, executor) {
        DealStateIff(db, executor, mp, sc);
      }
      if sc.None? || !Known(sc.value.name) || |sc.value.args| < Arity(sc.value.name) {
        return Panicked;
      }
      var name, args := sc.value.name, sc.value.args;
      var id := TextOf(args[0]);
      if name == "new" {
        d := New(executor, id, NumberOf(args[1]), NumberOf(args[2]));
      } else if name == "mint" {
        d := Mint(executor, id, NumberOf(args[1]));
      } else if name == "transfer" {
        d := Transfer(executor, id, NumberOf(args[1]), TextOf(args[2]));
      } else {
        d := Mark(executor, id, TextOf(args[1]), LE(if name == "freeze" then 1 else 0, 1));
      }
    }

    /** The store with the overlay written to it. */
    method Flush() returns (flushed: Store)
      ensures flushed == db + mp
    {
      flushed := db;
      var keys := mp.Keys;
      while keys != {}
        invariant keys <= mp.Keys
        invariant flushed == db + (map k | k in mp && k !in keys :: mp[k])
        decreases |keys|
      {
        var k :| k in keys;
        flushed := flushed[k := mp[k]];
        keys := keys - {k};
      }
      assert (map k | k in mp && k !in keys :: mp[k]) == mp;
    }
  }

  /** Runs the operations of a script for `owner` and flushes them, unless one fails. */
  method RunAndFlush(db: Store, scs: seq<Option<Script>>, owner: string) returns (flushed: Option<Store>)
    ensures flushed == Execute(db, scs, owner)
  {
    var e := new Exec(db);
    for i := 0 to |scs|
      invariant e.db == db && fresh(e)
      invariant DealAll(db, owner, map[], scs) == DealAll(db, owner, e.mp, scs[i..])
    {
      var d := e.Run(owner, scs[i]);
      assert scs[i..][1..] == scs[i + 1..];
      if !d.Done? {
        return None;
      }
    }
    var out := e.Flush();
    return Some(out);
  }
}
