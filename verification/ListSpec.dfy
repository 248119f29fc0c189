/** Lists in a flat key-value store: a window of indices under one key, and a cell for each index. */
module ListSpec {
  import opened U64
  import opened Wrappers
  import opened Bytes
  import opened KeyValue

  function E64(i: int64): string {
    LE(ToUint64(i), 8)
  }

  /** The number in eight bytes. */
  function D64(s: string): int64 {
    ToInt64(FromLE(s) % TWO64)
  }

  function MetaKey(k: string): string {
    "l" + k
  }

  function CellKey(k: string, i: int64): string {
    "l" + k + E64(i)
  }

  function MetaValue(start: int64, end: int64): string {
    E64(start) + E64(end)
  }

  /**
   * The window of a list. A value of at most eight bytes makes the decoder panic; a longer one is read up to
   * the capacity of its buffer, whose unused bytes are zero.
   */
  function StartEnd(db: Db, k: string): Result<(int64, int64), StoreError> {
    if MetaKey(k) !in db then Failure(NotExist)
    else
      var v := db[MetaKey(k)];
      if |v| <= 8 then Failure(Panic) else Success((D64(v[..8]), D64(if |v| < 16 then v[8..] else v[8..16])))
  }

  /** The window that a push extends: a list that does not exist is made first. */
  function PushWindow(db: Db, k: string): Result<(int64, int64), StoreError> {
    if MetaKey(k) !in db then Success((0, 0)) else StartEnd(db, k)
  }

  function Written(db: Db, k: string, i: int64, v: string, start: int64, end: int64): Db {
    db[CellKey(k, i) := v][MetaKey(k) := MetaValue(start, end)]
  }

  /** A list that does not exist is made with an empty window. */
  function Made(db: Db, k: string): Db {
    if MetaKey(k) !in db then db[MetaKey(k) := MetaValue(0, 0)] else db
  }

  function LeftPush(db: Db, k: string, v: string): (Db, Result<int64, StoreError>) {
    match PushWindow(db, k)
    case Failure(e) => (db, Failure(e))
    case Success((start, end)) =>
      if SubInt64(start, 1) == end then (Made(db, k), Failure(OutOfSize))
      else
        var first := SubInt64(start, 1);
        (Written(Made(db, k), k, first, v, first, end), Success(AddInt64(SubInt64(end, start), 1)))
  }

  function RightPush(db: Db, k: string, v: string): (Db, Result<int64, StoreError>) {
    match PushWindow(db, k)
    case Failure(e) => (db, Failure(e))
    case Success((start, end)) =>
      if start == AddInt64(end, 1) then (Made(db, k), Failure(OutOfSize))
      else
        (Written(Made(db, k), k, end, v, start, AddInt64(end, 1)), Success(AddInt64(SubInt64(end, start), 1)))
  }

  /** What a key holds. */
  function Lookup(db: Db, key: string): Result<string, StoreError> {
    if key in db then Success(db[key]) else Failure(NotExist)
  }

  function LeftPop(db: Db, k: string): (Db, Result<string, StoreError>) {
    match StartEnd(db, k)
    case Failure(e) => (db, Failure(e))
    case Success((start, end)) =>
      if start == end then (db, Failure(OutOfSize))
      else
        var v := Lookup(db, CellKey(k, start));
        if v.Failure? then (db, v) else (db[MetaKey(k) := MetaValue(AddInt64(start, 1), end)], v)
  }

  function RightPop(db: Db, k: string): (Db, Result<string, StoreError>) {
    match StartEnd(db, k)
    case Failure(e) => (db, Failure(e))
    case Success((start, end)) =>
      if start == end then (db, Failure(OutOfSize))
      else
        var v := Lookup(db, CellKey(k, SubInt64(end, 1)));
        if v.Failure? then (db, v) else (db[MetaKey(k) := MetaValue(start, SubInt64(end, 1))], v)
  }

  function DropCells(db: Db, k: string, start: int64, end: int64): Db
    decreases end - start
  {
    if start < end then DropCells(db - {CellKey(k, start)}, k, start + 1, end) else db
  }

  function Clear(db: Db, k: string): (Db, Result<(), StoreError>) {
    match StartEnd(db, k)
    case Failure(e) => (db, Failure(e))
    case Success((start, end)) => (DropCells(db, k, start, end) - {MetaKey(k)}, Success(()))
  }

  function Len(db: Db, k: string): Result<int64, StoreError> {
    match StartEnd(db, k)
    case Failure(NotExist) => Success(0)
    case Failure(e) => Failure(e)
    case Success((start, end)) => Success(SubInt64(end, start))
  }

  /** The element at an index, counted from the end if it is negative; outside the list it is empty. */
  function Index(db: Db, k: string, idx: int64): Result<string, StoreError> {
    match StartEnd(db, k)
    case Failure(e) => Failure(e)
    case Success((start, end)) =>
      var i := AddInt64(idx, if idx >= 0 then start else end);
      if i < start || i >= end then Success("") else Lookup(db, CellKey(k, i))
  }

  /** Writing at an index: the start of the window is added to it twice. */
  function Set(db: Db, k: string, idx: int64, v: string): (Db, Result<(), StoreError>) {
    match StartEnd(db, k)
    case Failure(e) => (db, Failure(e))
    case Success((start, end)) =>
      var i := AddInt64(idx, if idx >= 0 then start else end);
      if i < start || i >= end then (db, Failure(OutOfSize))
      else (db[CellKey(k, AddInt64(i, start)) := v], Success(()))
  }

  /** The cells `i` to `end`, those that do not exist left out. */
  function Cells(db: Db, k: string, i: int64, end: int64): seq<string>
    requires end < MAXINT64
    decreases end - i + 1
  {
    if i > end then []
    else (if CellKey(k, i) in db then [db[CellKey(k, i)]] else []) + Cells(db, k, i + 1, end)
  }

  const MAXINT64: int64 := 0x7fff_ffff_ffff_ffff

  /** Where a range begins and ends; its end may be the index just behind the list. */
  function Bounds(x: int64, y: int64, start: int64, end: int64): (int64, int64) {
    var e := AddInt64(end, if end < 0 then y else x);
    var s := AddInt64(start, if start < 0 then y else x);
    (if s < x then x else s, if e >= y then y else e)
  }

  function Range(db: Db, k: string, start: int64, end: int64): Result<seq<string>, StoreError> {
    match StartEnd(db, k)
    case Failure(e) => Failure(e)
    case Success((x, y)) =>
      var (s, e) := Bounds(x, y, start, end);
      if e == MAXINT64 then Failure(NeverEnds) else Success(Cells(db, k, s, e))
  }
}
