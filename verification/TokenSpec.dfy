/** The token operations of a script, on a stored key-value map and an overlay of pending writes. */
module TokenSpec {
  import opened U64
  import opened Wrappers
  import opened Bytes

  type Store = map<string, string>

  datatype Value = Number(n: u64) | Text(s: string)

  datatype Argument = Argument(typ: nat, value: Value)

  datatype Script = Script(name: string, args: seq<Argument>)

  datatype TokenError = TokenExist | NotExist | PermissionDenied | Overflow | InsufficientBalance

  /** A panic is a crash of the caller: a missing script or argument, or a value that is no number. */
  datatype Dealt = Done(mp: Store) | Rejected(error: TokenError) | Panicked

  function AKey(id: string): string { id }
  function BKey(id: string, addr: string): string { "b/" + id + addr }
  function PKey(id: string): string { "p/" + id }
  function FKey(id: string, addr: string): string { "f/" + id + addr }
  function TKey(id: string, addr: string): string { "t/" + id + addr }
  function CKey(id: string, addr: string): string { "c/" + id + addr }

  /** Eight bytes, least significant first. */
  function E64(n: u64): string {
    LE(n, 8)
  }

  /** The number stored under `k`, overlay first; zero if there is none, nothing if it is malformed. */
  function Read(db: Store, mp: Store, k: string): Option<u64> {
    var v := if k in mp then mp[k] else if k in db then db[k] else E64(0);
    if |v| < 8 then None
    else
      var n := FromLE(v[..8]);
      if n < TWO64 then Some(n) else None
  }

  /** `new id total precision` */
  function Deal0(db: Store, executor: string, mp: Store, id: string, total: u64, precision: u64): Dealt {
    if AKey(id) in mp || AKey(id) in db then Rejected(TokenExist)
    else Done(mp[id := executor][BKey(id, executor) := E64(0)][TKey(id, executor) := E64(total)]
                [PKey(id) := E64(precision)][FKey(id, executor) := LE(0, 1)])
  }

  /** `mint id amount`. The limit is compared on signed numbers. */
  function Deal1(db: Store, executor: string, mp: Store, id: string, amount: u64): Dealt {
    if AKey(id) !in db then Rejected(NotExist)
    else if db[AKey(id)] != executor then Rejected(PermissionDenied)
    else
      var t, c, b := Read(db, mp, TKey(id, executor)), Read(db, mp, CKey(id, executor)),
          Read(db, mp, BKey(id, executor));
      if t.None? || c.None? then Panicked
      else if ToInt64(c.value) > SubInt64(ToInt64(t.value), ToInt64(amount)) then Rejected(Overflow)
      else if b.None? then Panicked
      else Done(mp[CKey(id, executor) := E64(Add(c.value, amount))][BKey(id, executor) := E64(Add(b.value, amount))])
  }

  /** Moves `amount` from one balance key to another, both read before either is written. */
  function Move(db: Store, mp: Store, fromKey: string, toKey: string, amount: u64): Dealt {
    var from := Read(db, mp, fromKey);
    if from.None? then Panicked
    else if from.value < amount then Rejected(InsufficientBalance)
    else
      var to := Read(db, mp, toKey);
      if to.None? then Panicked
      else Done(mp[fromKey := E64(from.value - amount)][toKey := E64(Add(to.value, amount))])
  }

  /** `transfer id amount address` */
  function Deal2(db: Store, executor: string, mp: Store, id: string, amount: u64, addr: string): Dealt {
    if AKey(id) !in mp && AKey(id) !in db then Rejected(NotExist)
    else Move(db, mp, BKey(id, executor), BKey(id, addr), amount)
  }

  /** `freeze id address` and `unfreeze id address`: a mark that no other operation reads. */
  function DealMark(db: Store, executor: string, mp: Store, id: string, addr: string, mark: string): Dealt {
    if AKey(id) !in db then Rejected(NotExist)
    else if db[AKey(id)] != executor then Rejected(PermissionDenied)
    else Done(mp[FKey(id, addr) := mark])
  }

  /** An argument read as text or as a number; of the other type it counts as empty or zero. */
  function TextOf(a: Argument): string {
    if a.value.Text? then a.value.s else ""
  }

  function NumberOf(a: Argument): u64 {
    if a.value.Number? then a.value.n else 0
  }

  function Arity(name: string): nat {
    if name == "new" || name == "transfer" then 3 else 2
  }

  predicate Known(name: string) {
    name == "new" || name == "mint" || name == "transfer" || name == "freeze" || name == "unfreeze"
  }

  function Deal(db: Store, executor: string, mp: Store, sc: Option<Script>): Dealt {
    if sc.None? || !Known(sc.value.name) || |sc.value.args| < Arity(sc.value.name) then Panicked
    else
      var name, args := sc.value.name, sc.value.args;
      var id := TextOf(args[0]);
      if name == "new" then Deal0(db, executor, mp, id, NumberOf(args[1]), NumberOf(args[2]))
      else if name == "mint" then Deal1(db, executor, mp, id, NumberOf(args[1]))
      else if name == "transfer" then Deal2(db, executor, mp, id, NumberOf(args[1]), TextOf(args[2]))
      else DealMark(db, executor, mp, id, TextOf(args[1]), LE(if name == "freeze" then 1 else 0, 1))
  }

  /** All operations of a script in order, up to the first that fails. */
  function DealAll(db: Store, executor: string, mp: Store, scs: seq<Option<Script>>): Dealt
    decreases |scs|
  {
    if scs == [] then Done(mp)
    else
      var d := Deal(db, executor, mp, scs[0]);
      if d.Done? then DealAll(db, executor, d.mp, scs[1..]) else d
  }

  /** The store after a script, if all its operations are done. */
  function Execute(db: Store, scs: seq<Option<Script>>, executor: string): Option<Store> {
    var d := DealAll(db, executor, map[], scs);
    if d.Done? then Some(db + d.mp) else None
  }
}
