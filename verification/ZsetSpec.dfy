/** Sorted sets in a flat key-value store: each member's score, and an index of keys ordered by score. */
module ZsetSpec {
  import opened Wrappers
  import opened Bytes
  import opened KeyValue

  const TWO32 := 0x1_0000_0000

  type int32 = x: int | -0x8000_0000 <= x < 0x8000_0000

  function ToUint32(i: int32): nat {
    if i < 0 then i + TWO32 else i
  }

  function ToInt32(n: nat): int32 {
    var m := n % TWO32;
    if m < 0x8000_0000 then m else m - TWO32
  }

  function E32(i: int32): string {
    LE(ToUint32(i), 4)
  }

  /** The number in four bytes; any other length counts as zero. */
  function D32(s: string): int32 {
    if |s| != 4 then 0 else ToInt32(FromLE(s))
  }

  /** The name of a container inside a key, its length first. */
  function Name(k: string): string {
    LE(|k|, 4) + k + "+"
  }

  function MemberKey(k: string, v: string): string {
    "z" + Name(k) + v
  }

  function ScorePrefix(k: string): string {
    "sz" + Name(k)
  }

  function ScoreKey(k: string, v: string, score: int32): string {
    ScorePrefix(k) + (BE(ToUint32(score), 4) + v)
  }

  /** Names at least this long make the decoder's sums of 32 bits wrap around. */
  const NAME_LIMIT := TWO32 - 9

  /** Score and member of a key of the index; one that is too short makes the decoder panic. */
  function Decode(key: string): Option<(int32, string)> {
    if |key| < 6 then None
    else
      var n := FromLE(key[2..6]);
      var lo, hi := 2 + (5 + n) % TWO32, 2 + (9 + n) % TWO32;
      if hi < lo || |key| < hi then None else Some((ToInt32(FromBE(key[lo..hi])), key[hi..]))
  }

  function Add(db: Db, k: string, score: int32, v: string): Db {
    db[MemberKey(k, v) := E32(score)][ScoreKey(k, v, score) := ""]
  }

  function Score(db: Db, k: string, v: string): Result<int32, StoreError> {
    if MemberKey(k, v) in db then Success(D32(db[MemberKey(k, v)])) else Failure(NotExist)
  }

  function Remove(db: Db, k: string, v: string, score: int32): Db {
    db - {MemberKey(k, v)} - {ScoreKey(k, v, score)}
  }

  function Del(db: Db, k: string, v: string): (Db, Result<(), StoreError>) {
    match Score(db, k, v)
    case Failure(e) => (db, Failure(e))
    case Success(score) => (Remove(db, k, v, score), Success(()))
  }

  /** Removes what each of the index keys stands for. */
  function RemoveAll(db: Db, k: string, keys: seq<string>): (Db, Result<(), StoreError>)
    decreases |keys|
  {
    if keys == [] then (db, Success(()))
    else
      match Decode(keys[0])
      case None => (db, Failure(Panic))
      case Some((score, v)) => RemoveAll(Remove(db, k, v, score), k, keys[1..])
  }

  function Clear(db: Db, k: string): (Db, Result<(), StoreError>) {
    RemoveAll(db, k, Scan(db, ScorePrefix(k), ScorePrefix(k)))
  }

  /** The members of index keys, up to the first whose score is above `end`. */
  function Take(keys: seq<string>, end: int32): Result<seq<string>, StoreError>
    decreases |keys|
  {
    if keys == [] then Success([])
    else
      match Decode(keys[0])
      case None => Failure(Panic)
      case Some((score, v)) =>
        if score > end then Success([])
        else
          var rest := Take(keys[1..], end);
          if rest.Failure? then rest else Success([v] + rest.value)
  }

  function Range(db: Db, k: string, start: int32, end: int32): Result<seq<string>, StoreError> {
    Take(Scan(db, ScorePrefix(k), ScoreKey(k, "", start)), end)
  }
}
