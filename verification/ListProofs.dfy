/** The stored lists behave as double-ended sequences, whatever other lists share the store. */
module ListProofs {
  import opened U64
  import opened Wrappers
  import opened Bytes
  import opened KeyValue
  import opened ListSpec

  // ---------------------------------------------------------------------- keys

  lemma E64RoundTrip(i: int64)
    ensures |E64(i)| == 8 && D64(E64(i)) == i
  {
    Pow256Of8();
    LERoundTrip(ToUint64(i), 8);
    hide LE, FromLE;
    assert FromLE(E64(i)) == ToUint64(i);
  }

  lemma MetaRoundTrip(db: Db, k: string, start: int64, end: int64)
    ensures StartEnd(db[MetaKey(k) := MetaValue(start, end)], k) == Success((start, end))
  {
    E64RoundTrip(start);
    E64RoundTrip(end);
    var v := MetaValue(start, end);
    assert v[..8] == E64(start) && v[8..16] == E64(end);
  }

  /** `a` is `b` followed by an index that lies within `n` of zero. */
  ghost predicate Extends(a: string, b: string, n: nat) {
    exists i: int64 :: 0 - n <= i < n && a == b + E64(i)
  }

  ghost predicate Apart(a: string, b: string, n: nat) {
    !Extends(a, b, n) && !Extends(b, a, n)
  }

  /** The window of `a` shares its key with a cell of `b` just if `a` is `b` followed by the index of the cell. */
  lemma MetaCell(a: string, b: string, i: int64)
    ensures MetaKey(a) == CellKey(b, i) <==> a == b + E64(i)
    ensures MetaKey(a) != CellKey(a, i)
  {
    E64RoundTrip(i);
    assert MetaKey(a)[1..] == a;
    assert CellKey(b, i)[1..] == b + E64(i);
  }

  lemma MetaMeta(a: string, b: string)
    ensures MetaKey(a) == MetaKey(b) <==> a == b
  {
    assert MetaKey(a)[1..] == a && MetaKey(b)[1..] == b;
  }

  lemma CellCell(a: string, i: int64, b: string, j: int64)
    ensures CellKey(a, i) == CellKey(b, j) <==> a == b && i == j
  {
    E64RoundTrip(i);
    E64RoundTrip(j);
    var x, y := CellKey(a, i), CellKey(b, j);
    assert x[1..1 + |a|] == a && x[1 + |a|..] == E64(i);
    assert y[1..1 + |b|] == b && y[1 + |b|..] == E64(j);
  }

  // --------------------------------------------------------------- abstraction

  function Window(db: Db, k: string): (int64, int64) {
    if StartEnd(db, k).Success? then StartEnd(db, k).value else (0, 0)
  }

  predicate Exists(db: Db, k: string) {
    MetaKey(k) in db
  }

  /** A list either does not exist, or has a window all of whose cells exist. */
  ghost predicate ListOk(db: Db, k: string) {
    && (Exists(db, k) ==> StartEnd(db, k).Success?)
    && Window(db, k).0 <= Window(db, k).1
    && forall i: int64 :: Window(db, k).0 <= i < Window(db, k).1 ==> CellKey(k, i) in db
  }

  /** The elements of a list; one that does not exist has none. */
  ghost function Items(db: Db, k: string): (s: seq<string>)
    requires ListOk(db, k)
    ensures |s| == Window(db, k).1 - Window(db, k).0
  {
    var w := Window(db, k);
    seq(w.1 - w.0, j requires 0 <= j < w.1 - w.0 => db[CellKey(k, w.0 + j)])
  }

  /** The list has at most `n` elements, and its window lies within `n` of zero. */
  predicate Within(db: Db, k: string, n: nat) {
    0 - n <= Window(db, k).0 && Window(db, k).1 <= n && Window(db, k).1 - Window(db, k).0 <= n
  }

  /** As long as fewer operations than this have been done, no index can leave the range of int64. */
  const LIMIT: nat := MAXINT64

  /** The keys of the list `k`, its cells as far as they lie within `n` of zero, hold the same. */
  ghost predicate SameKeys(db: Db, db': Db, k: string, n: nat) {
    && (MetaKey(k) in db <==> MetaKey(k) in db')
    && (MetaKey(k) in db ==> db[MetaKey(k)] == db'[MetaKey(k)])
    && (forall i: int64 :: 0 - n <= i < n ==> (CellKey(k, i) in db <==> CellKey(k, i) in db'))
    && (forall i: int64 :: 0 - n <= i < n && CellKey(k, i) in db ==> db[CellKey(k, i)] == db'[CellKey(k, i)])
  }

  /** Writes to one list leave every list apart from it alone. */
  lemma WriteFrame(db: Db, k: string, i: int64, v: string, m: string, other: string, n: nat)
    requires other != k && Apart(other, k, n)
    ensures 0 - n <= i < n ==> SameKeys(db, db[CellKey(k, i) := v][MetaKey(k) := m], other, n)
    ensures SameKeys(db, db[MetaKey(k) := m], other, n)
  {
    hide E64;
    MetaMeta(k, other);
    MetaCell(other, k, i);
    forall j: int64 | 0 - n <= j < n ensures CellKey(other, j) != CellKey(k, i) && CellKey(other, j) != MetaKey(k) {
      CellCell(other, j, k, i);
      MetaCell(k, other, j);
    }
  }

  // ----------------------------------------------------------------- one list

  /** Both stores have the same cells of the list `k`, but for cell `i`, where `db'` holds `v`. */
  ghost predicate CellsBut(db: Db, db': Db, k: string, i: int64, v: string) {
    && CellKey(k, i) in db' && db'[CellKey(k, i)] == v
    && (forall j: int64 :: j != i ==> (CellKey(k, j) in db' <==> CellKey(k, j) in db))
    && (forall j: int64 :: j != i && CellKey(k, j) in db ==> db'[CellKey(k, j)] == db[CellKey(k, j)])
  }

  lemma Write(db: Db, k: string, i: int64, v: string, start: int64, end: int64)
    ensures var db' := Written(db, k, i, v, start, end);
            && StartEnd(db', k) == Success((start, end))
            && CellsBut(db, db', k, i, v)
  {
    MetaRoundTrip(db[CellKey(k, i) := v], k, start, end);
    forall j: int64 ensures MetaKey(k) != CellKey(k, j) && (j != i ==> CellKey(k, j) != CellKey(k, i)) {
      MetaCell(k, k, j);
      CellCell(k, j, k, i);
    }
  }

  lemma Make(db: Db, k: string)
    requires ListOk(db, k)
    ensures ListOk(Made(db, k), k) && Items(Made(db, k), k) == Items(db, k) && Window(Made(db, k), k) == Window(db, k)
    ensures PushWindow(db, k) == Success(Window(db, k))
    ensures forall i: int64 :: (CellKey(k, i) in Made(db, k) <==> CellKey(k, i) in db)
  {
    MetaRoundTrip(db, k, 0, 0);
    forall i: int64 ensures MetaKey(k) != CellKey(k, i) {
      MetaCell(k, k, i);
    }
  }

  lemma Prepended(db: Db, db': Db, k: string, v: string, start: int64, end: int64)
    requires ListOk(db, k) && Window(db, k) == (start + 1, end) && StartEnd(db', k) == Success((start, end))
    requires CellsBut(db, db', k, start, v)
    ensures ListOk(db', k) && Items(db', k) == [v] + Items(db, k)
  {
  }

  lemma Appended(db: Db, db': Db, k: string, v: string, start: int64, end: int64)
    requires ListOk(db, k) && Window(db, k) == (start, end - 1) && StartEnd(db', k) == Success((start, end))
    requires CellsBut(db, db', k, end - 1, v)
    ensures ListOk(db', k) && Items(db', k) == Items(db, k) + [v]
  {
  }

  lemma LeftPushed(db: Db, k: string, v: string, n: nat)
    requires ListOk(db, k) && Within(db, k, n) && n < LIMIT
    ensures var (db', r) := LeftPush(db, k, v);
            && ListOk(db', k) && Exists(db', k) && Items(db', k) == [v] + Items(db, k) && Within(db', k, n + 1)
            && r == Success(|Items(db, k)| + 1)
  {
    hide E64, CellKey;
    Make(db, k);
    var (start, end) := Window(db, k);
    Write(Made(db, k), k, start - 1, v, start - 1, end);
    Prepended(Made(db, k), LeftPush(db, k, v).0, k, v, start - 1, end);
  }

  lemma RightPushed(db: Db, k: string, v: string, n: nat)
    requires ListOk(db, k) && Within(db, k, n) && n < LIMIT
    ensures var (db', r) := RightPush(db, k, v);
            && ListOk(db', k) && Exists(db', k) && Items(db', k) == Items(db, k) + [v] && Within(db', k, n + 1)
            && r == Success(|Items(db, k)| + 1)
  {
    hide E64, CellKey;
    Make(db, k);
    var (start, end) := Window(db, k);
    Write(Made(db, k), k, end, v, start, end + 1);
    Appended(Made(db, k), RightPush(db, k, v).0, k, v, start, end + 1);
  }

  lemma Shrink(db: Db, k: string, start: int64, end: int64)
    requires ListOk(db, k) && Window(db, k).0 <= start <= end <= Window(db, k).1
    ensures var db' := db[MetaKey(k) := MetaValue(start, end)];
            && ListOk(db', k) && Exists(db', k) && Window(db', k) == (start, end)
            && Items(db', k) == Items(db, k)[start - Window(db, k).0..end - Window(db, k).0]
  {
    MetaRoundTrip(db, k, start, end);
    forall i: int64 ensures MetaKey(k) != CellKey(k, i) {
      MetaCell(k, k, i);
    }
  }

  lemma LeftPopped(db: Db, k: string, n: nat)
    requires ListOk(db, k) && Within(db, k, n) && n < LIMIT
    ensures var (db', r), s := LeftPop(db, k), Items(db, k);
            if !Exists(db, k) then db' == db && r == Failure(NotExist)
            else if s == [] then db' == db && r == Failure(OutOfSize)
            else ListOk(db', k) && Exists(db', k) && Items(db', k) == s[1..] && Within(db', k, n) && r == Success(s[0])
  {
    hide E64;
    var (start, end) := Window(db, k);
    if start < end {
      Shrink(db, k, start + 1, end);
    }
  }

  lemma RightPopped(db: Db, k: string, n: nat)
    requires ListOk(db, k) && Within(db, k, n) && n < LIMIT
    ensures var (db', r), s := RightPop(db, k), Items(db, k);
            if !Exists(db, k) then db' == db && r == Failure(NotExist)
            else if s == [] then db' == db && r == Failure(OutOfSize)
            else
              && ListOk(db', k) && Exists(db', k) && Items(db', k) == s[..|s| - 1] && Within(db', k, n)
              && r == Success(s[|s| - 1])
  {
    hide E64;
    var (start, end) := Window(db, k);
    if start < end {
      Shrink(db, k, start, end - 1);
    }
  }

  lemma {:induction false} DroppedFrame(db: Db, k: string, start: int64, end: int64, other: string, n: nat)
    requires other != k && Apart(other, k, n) && 0 - n <= start && end <= n
    ensures SameKeys(db, DropCells(db, k, start, end), other, n)
    decreases end - start
  {
    hide E64;
    if start < end {
      MetaCell(other, k, start);
      forall j: int64 ensures CellKey(other, j) != CellKey(k, start) {
        CellCell(other, j, k, start);
      }
      DroppedFrame(db - {CellKey(k, start)}, k, start + 1, end, other, n);
    }
  }
}
