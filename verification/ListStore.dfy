/** The list operations as the source runs them, inside one store transaction. */
module ListStore {
  import opened U64
  import opened Wrappers
  import opened KeyValue
  import opened ListSpec
  import opened ListProofs
  import opened ListReads

  class ListTxn {
    var db: Db

    constructor (db: Db)
      ensures this.db == db
    {
      this.db := db;
    }

    method ListStartEnd(k: string) returns (w: Result<(int64, int64), StoreError>)
      ensures forall s: int64, e: int64 :: MetaKey(k) in db && db[MetaKey(k)] == MetaValue(s, e) ==>
                w == Success((s, e))
      ensures w == StartEnd(db, k)
    {
      forall s: int64, e: int64 | MetaKey(k) in db && db[MetaKey(k)] == MetaValue(s, e)
        ensures StartEnd(db, k) == Success((s, e))
      {
        MetaRoundTrip(db, k, s, e);
        assert db[MetaKey(k) := MetaValue(s, e)] == db;
      }
      if MetaKey(k) !in db {
        return Failure(NotExist);
      }
      var v := db[MetaKey(k)];
      if |v| <= 8 {
        return Failure(Panic);
      }
      return Success((D64(v[..8]), D64(if |v| < 16 then v[8..] else v[8..16])));
    }

    /** The window to extend, after making the list if there is none. */
    method Grow(k: string) returns (w: Result<(int64, int64), StoreError>)
      modifies this
      ensures w == PushWindow(old(db), k) && db == Made(old(db), k)
    {
      w := ListStartEnd(k);
      if w == Failure(NotExist) {
        db := db[MetaKey(k) := MetaValue(0, 0)];
        w := Success((0, 0));
      }
    }

    method Llpush(k: string, v: string, ghost n: nat) returns (r: Result<int64, StoreError>)
      modifies this
      ensures old(ListOk(db, k) && Within(db, k, n)) && n < LIMIT ==>
                && ListOk(db, k) && Within(db, k, n + 1) && Items(db, k) == [v] + old(Items(db, k))
                && r == Success(|Items(db, k)|)
      ensures (db, r) == LeftPush(old(db), k, v)
    {
      hide E64, CellKey, MetaKey, ListOk, Items, Within, StartEnd;
      if ListOk(db, k) && Within(db, k, n) && n < LIMIT {
        LeftPushed(db, k, v, n);
      }
      var w := Grow(k);
      if w.Failure? {
        return Failure(w.error);
      }
      var (start, end) := w.value;
      if SubInt64(start, 1) == end {
        return Failure(OutOfSize);
      }
      db := db[CellKey(k, SubInt64(start, 1)) := v];
      db := db[MetaKey(k) := MetaValue(SubInt64(start, 1), end)];
      return Success(AddInt64(SubInt64(end, start), 1));
    }

    method Lrpush(k: string, v: string, ghost n: nat) returns (r: Result<int64, StoreError>)
      modifies this
      ensures old(ListOk(db, k) && Within(db, k, n)) && n < LIMIT ==>
                && ListOk(db, k) && Within(db, k, n + 1) && Items(db, k) == old(Items(db, k)) + [v]
                && r == Success(|Items(db, k)|)
      ensures (db, r) == RightPush(old(db), k, v)
    {
      hide E64, CellKey, MetaKey, ListOk, Items, Within, StartEnd;
      if ListOk(db, k) && Within(db, k, n) && n < LIMIT {
        RightPushed(db, k, v, n);
      }
      var w := Grow(k);
      if w.Failure? {
        return Failure(w.error);
      }
      var (start, end) := w.value;
      if start == AddInt64(end, 1) {
        return Failure(OutOfSize);
      }
      db := db[CellKey(k, end) := v];
      db := db[MetaKey(k) := MetaValue(start, AddInt64(end, 1))];
      return Success(AddInt64(SubInt64(end, start), 1));
    }

    method Llpop(k: string, ghost n: nat) returns (v: Result<string, StoreError>)
      modifies this
      ensures old(ListOk(db, k) && Within(db, k, n)) && n < LIMIT ==>
                && ListOk(db, k) && Within(db, k, n)
                && (v.Success? ==> old(Items(db, k)) == [v.value] + Items(db, k))
                && (v.Failure? <==> old(Items(db, k)) == []) && (v.Failure? ==> db == old(db))
      ensures (db, v) == LeftPop(old(db), k)
    {
      hide E64, CellKey, MetaKey, D64, Within;
      if ListOk(db, k) && Within(db, k, n) && n < LIMIT {
        LeftPopped(db, k, n);
      }
      var w := ListStartEnd(k);
      if w.Failure? {
        return Failure(w.error);
      }
      var (start, end) := w.value;
      if start == end {
        return Failure(OutOfSize);
      }
      v := Lookup(db, CellKey(k, start));
      if v.Failure? {
        return;
      }
      db := db[MetaKey(k) := MetaValue(AddInt64(start, 1), end)];
    }

    method Lrpop(k: string, ghost n: nat) returns (v: Result<string, StoreError>)
      modifies this
      ensures old(ListOk(db, k) && Within(db, k, n)) && n < LIMIT ==>
                && ListOk(db, k) && Within(db, k, n)
                && (v.Success? ==> old(Items(db, k)) == Items(db, k) + [v.value])
                && (v.Failure? <==> old(Items(db, k)) == []) && (v.Failure? ==> db == old(db))
      ensures (db, v) == RightPop(old(db), k)
    {
      hide E64, CellKey, MetaKey, D64, Within;
      if ListOk(db, k) && Within(db, k, n) && n < LIMIT {
        RightPopped(db, k, n);
      }
      var w := ListStartEnd(k);
      if w.Failure? {
        return Failure(w.error);
      }
      var (start, end) := w.value;
      if start == end {
        return Failure(OutOfSize);
      }
      v := Lookup(db, CellKey(k, SubInt64(end, 1)));
      if v.Failure? {
        return;
      }
      db := db[MetaKey(k) := MetaValue(start, SubInt64(end, 1))];
    }

    method Llclear(k: string) returns (r: Result<(), StoreError>)
      modifies this
      ensures (db, r) == Clear(old(db), k)
    {
      hide E64;
      var w := ListStartEnd(k);
      if w.Failure? {
        return Failure(w.error);
      }
      var (start, end) := w.value;
      while start < end
        invariant DropCells(db, k, start, end) == DropCells(old(db), k, w.value.0, end)
      {
        db := db - {CellKey(k, start)};
        start := start + 1;
      }
      db := db - {MetaKey(k)};
      return Success(());
    }

    method Llen(k: string, ghost n: nat) returns (r: Result<int64, StoreError>)
      ensures ListOk(db, k) && Within(db, k, n) && n <= LIMIT ==> r == Success(|Items(db, k)|)
      ensures r == Len(db, k)
    {
      if ListOk(db, k) && Within(db, k, n) && n <= LIMIT {
        LenReads(db, k, n);
      }
      var w := ListStartEnd(k);
      if w == Failure(NotExist) {
        return Success(0);
      }
      if w.Failure? {
        return Failure(w.error);
      }
      return Success(SubInt64(w.value.1, w.value.0));
    }

    method Lindex(k: string, idx: int64) returns (v: Result<string, StoreError>)
      ensures ListOk(db, k) && Exists(db, k) ==>
          var s, i := Items(db, k), Resolve(Items(db, k), idx);
          v == Success(if 0 <= i < |s| then s[i] else "")
      ensures v == Index(db, k, idx)
    {
      if ListOk(db, k) {
        IndexReads(db, k, idx);
      }
      var w := ListStartEnd(k);
      if w.Failure? {
        return Failure(w.error);
      }
      var (start, end) := w.value;
      var i := if idx >= 0 then AddInt64(idx, start) else AddInt64(idx, end);
      if i < start || i >= end {
        return Success("");
      }
      v := Lookup(db, CellKey(k, i));
    }

    /** The start of the window is added to an index from the front, and once more to the cell that is written. */
    method Lset(k: string, idx: int64, v: string) returns (r: Result<(), StoreError>)
      modifies this
      ensures (db, r) == Set(old(db), k, idx, v)
      ensures old(ListOk(db, k) && Exists(db, k) && Window(db, k).0 == 0 &&
                0 <= Resolve(Items(db, k), idx) < |Items(db, k)|) ==>
          ListOk(db, k) && Items(db, k) == old(Items(db, k))[old(Resolve(Items(db, k), idx)) := v]
    {
      if ListOk(db, k) && Exists(db, k) && 0 <= Resolve(Items(db, k), idx) < |Items(db, k)| {
        SetWritesIff(db, k, idx, v);
      }
      var w := ListStartEnd(k);
      if w.Failure? {
        return Failure(w.error);
      }
      var (start, end) := w.value;
      var i := if idx >= 0 then AddInt64(idx, start) else AddInt64(idx, end);
      if i < start || i >= end {
        return Failure(OutOfSize);
      }
      db := db[CellKey(k, AddInt64(i, start)) := v];
      return Success(());
    }

    method Lrange(k: string, first: int64, last: int64) returns (vs: Result<seq<string>, StoreError>)
      ensures vs == Range(db, k, first, last)
    {
      var w := ListStartEnd(k);
      if w.Failure? {
        return Failure(w.error);
      }
      var (x, y) := w.value;
      var end: int64 := if last < 0 then AddInt64(last, y) else AddInt64(last, x);
      var start: int64 := if first < 0 then AddInt64(first, y) else AddInt64(first, x);
      if start < x {
        start := x;
      }
      if end >= y {
        end := y;
      }
      if end == MAXINT64 {
        return Failure(NeverEnds);
      }
      var found := Collect(k, start, end);
      return Success(found);
    }

    /** The loop over a range: cells that do not exist are passed over. */
    method Collect(k: string, first: int64, end: int64) returns (vs: seq<string>)
      requires end < MAXINT64
      ensures vs == Cells(db, k, first, end)
    {
      hide E64;
      vs := [];
      var start: int64 := first;
      while start <= end
        invariant vs + Cells(db, k, start, end) == Cells(db, k, first, end)
        decreases end - start
      {
        var v := Lookup(db, CellKey(k, start));
        if v.Success? {
          assert vs + ([v.value] + Cells(db, k, start + 1, end)) == vs + [v.value] + Cells(db, k, start + 1, end);
          vs := vs + [v.value];
        } else {
          assert [] + Cells(db, k, start + 1, end) == Cells(db, k, start + 1, end);
        }
        start := start + 1;
      }
      assert vs + [] == vs;
    }
  }
}
