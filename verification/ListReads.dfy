/** What reading a list returns: exactly its elements, but for the ranges that reach behind it. */
module ListReads {
  import opened U64
  import opened Wrappers
  import opened Bytes
  import opened KeyValue
  import opened ListSpec
  import opened ListProofs

  // -------------------------------------------------------------------- windows

  const EIGHT_ZEROS := "\0\0\0\0\0\0\0\0"

  lemma {:induction false} ZerosCountNothing(z: string)
    requires forall i :: 0 <= i < |z| ==> z[i] == '\0'
    ensures FromLE(z) == 0
  {
    if z != "" {
      ZerosCountNothing(z[1..]);
    }
  }

  /**
   * What is stored as a window can be read if and only if it has more than eight bytes; then it is filled up with
   * zero bytes, or cut off, to sixteen.
   */
  lemma WindowReadable(db: Db, k: string)
    requires MetaKey(k) in db
    ensures StartEnd(db, k).Success? <==> |db[MetaKey(k)]| > 8
    ensures |db[MetaKey(k)]| > 8 ==>
              StartEnd(db, k) == StartEnd(db[MetaKey(k) := (db[MetaKey(k)] + EIGHT_ZEROS)[..16]], k)
  {
    var v := db[MetaKey(k)];
    if |v| > 8 {
      var w := (v + EIGHT_ZEROS)[..16];
      assert w[..8] == v[..8];
      if |v| < 16 {
        var z := EIGHT_ZEROS[..16 - |v|];
        assert w[8..16] == v[8..] + z;
        LEWeights(v[8..], z);
        ZerosCountNothing(z);
      } else {
        assert w[8..16] == v[8..16];
      }
    }
  }

  lemma LenReads(db: Db, k: string, n: nat)
    requires ListOk(db, k) && Within(db, k, n) && n <= LIMIT
    ensures Len(db, k) == Success(|Items(db, k)|)
  {
    hide E64;
  }

  /** An index counts from the front, or from the back if it is negative, without wrapping around. */
  lemma IndexReads(db: Db, k: string, idx: int64)
    requires ListOk(db, k)
    ensures var s := Items(db, k);
            var i := if idx >= 0 then idx else idx + |s|;
            Index(db, k, idx) ==
            if !Exists(db, k) then Failure(NotExist) else Success(if 0 <= i < |s| then s[i] else "")
  {
    hide E64;
  }

  // -------------------------------------------------------------------- ranges

  lemma {:induction false} CellsWithin(db: Db, k: string, i: int64, end: int64)
    requires ListOk(db, k) && Window(db, k).0 <= i <= end + 1 <= Window(db, k).1
    ensures Cells(db, k, i, end) == Items(db, k)[i - Window(db, k).0..end + 1 - Window(db, k).0]
    decreases end - i + 1
  {
    hide E64;
    if i <= end {
      CellsWithin(db, k, i + 1, end);
    }
  }

  /** The cell just behind a list, if there is one: what a pop on the right has left there. */
  function Behind(db: Db, k: string): seq<string> {
    var key := CellKey(k, Window(db, k).1);
    if key in db then [db[key]] else []
  }

  lemma ItemAt(db: Db, k: string, i: int64)
    requires ListOk(db, k) && Window(db, k).0 <= i < Window(db, k).1
    ensures CellKey(k, i) in db && Items(db, k)[i - Window(db, k).0] == db[CellKey(k, i)]
  {
  }

  lemma Regroup(c: string, s: seq<string>, t: seq<string>)
    ensures [c] + (s + t) == [c] + s + t
  {
  }

  lemma CellsStep(db: Db, k: string, i: int64, end: int64)
    requires i <= end < MAXINT64 && CellKey(k, i) in db
    ensures Cells(db, k, i, end) == [db[CellKey(k, i)]] + Cells(db, k, i + 1, end)
  {
  }

  lemma OnlyBehind(db: Db, k: string)
    requires Window(db, k).1 < MAXINT64
    ensures Cells(db, k, Window(db, k).1, Window(db, k).1) == Behind(db, k)
  {
    var y := Window(db, k).1;
    assert Cells(db, k, y + 1, y) == [];
    assert Behind(db, k) + [] == Behind(db, k);
  }

  lemma {:induction false} CellsBehind(db: Db, k: string, i: int64)
    requires ListOk(db, k) && Window(db, k).0 <= i <= Window(db, k).1 < MAXINT64
    ensures Cells(db, k, i, Window(db, k).1) == Items(db, k)[i - Window(db, k).0..] + Behind(db, k)
    decreases Window(db, k).1 - i
  {
    hide *;
    var (x, y) := Window(db, k);
    var s, t := Items(db, k), Behind(db, k);
    if i < y {
      CellsBehind(db, k, i + 1);
      ItemAt(db, k, i);
      CellsStep(db, k, i, y);
      assert s[i - x..] == [s[i - x]] + s[i + 1 - x..];
      Regroup(s[i - x], s[i + 1 - x..], t);
    } else {
      OnlyBehind(db, k);
      assert s[i - x..] == [] && [] + t == t;
    }
  }

  /** A bound of a range as an index into the list. */
  function Resolve(s: seq<string>, i: int64): int {
    if i < 0 then i + |s| else i
  }

  /** The elements from one index to another, both included, as far as they exist. */
  function Slice(s: seq<string>, first: int, last: int): seq<string> {
    var lo := if first < 0 then 0 else first;
    var hi := if last >= |s| then |s| else last + 1;
    if lo < hi then s[lo..hi] else []
  }

  /** The index that a bound of a range denotes once the sum with an end of the window has wrapped around. */
  function Resolved(db: Db, k: string, i: int64): int {
    AddInt64(i, if i < 0 then Window(db, k).1 else Window(db, k).0) - Window(db, k).0
  }

  predicate Wraps(db: Db, k: string, i: int64) {
    var sum := i + if i < 0 then Window(db, k).1 else Window(db, k).0;
    sum < -0x8000_0000_0000_0000 || MAXINT64 < sum
  }

  /** No index of a list of length `n` is between the two bounds. */
  predicate Nothing(n: nat, first: int, last: int) {
    n == 0 || first >= n || last < 0 || last < first
  }

  /** A range reaches behind the list if its last index does and its first is not beyond that. */
  predicate ReachesBehind(s: seq<string>, first: int, last: int) {
    last >= |s| && first <= |s|
  }

  /** A range up to the end of a list that ends at the largest index is a loop whose counter wraps around. */
  predicate Endless(db: Db, k: string, last: int64) {
    Window(db, k).1 == MAXINT64 && Resolved(db, k, last) >= MAXINT64 - Window(db, k).0
  }

  /**
   * What a range returns, whatever its bounds: the elements between the indices they denote, and the cell
   * behind the list if it reaches that.
   */
  lemma RangeReads(db: Db, k: string, first: int64, last: int64)
    requires ListOk(db, k) && Exists(db, k)
    ensures var s := Items(db, k);
            var lo, hi := Resolved(db, k, first), Resolved(db, k, last);
            Range(db, k, first, last) ==
              if Endless(db, k, last) then Failure(NeverEnds)
              else Success(Slice(s, lo, hi) + if ReachesBehind(s, lo, hi) then Behind(db, k) else [])
  {
    hide E64, CellKey, MetaKey, Cells, Behind;
    var s := Items(db, k);
    var (x, y) := Window(db, k);
    var lo, hi := Resolved(db, k, first), Resolved(db, k, last);
    var (b, e) := Bounds(x, y, first, last);
    assert b == (if lo < 0 then x else x + lo) && e == (if hi >= |s| then y else x + hi);
    if Endless(db, k, last) {
    } else if b > e {
      NoCells(db, k, b, e);
      assert Slice(s, lo, hi) + [] == [];
    } else if e < y {
      CellsWithin(db, k, b, e);
      assert s[b - x..e + 1 - x] == Slice(s, lo, hi) + [];
    } else {
      CellsBehind(db, k, b);
      assert s[b - x..] == Slice(s, lo, hi);
    }
  }

  lemma NoCells(db: Db, k: string, b: int64, e: int64)
    requires e < b && e < MAXINT64
    ensures Cells(db, k, b, e) == []
  {
  }

  lemma SliceEmptyIff(s: seq<string>, first: int, last: int)
    ensures Slice(s, first, last) == [] <==> Nothing(|s|, first, last)
  {
  }

  /** A wrapping bound moves to the other side of the list: either nothing was asked for or nothing is returned. */
  lemma WrapMisses(db: Db, k: string, first: int64, last: int64)
    requires ListOk(db, k)
    ensures !Wraps(db, k, first) ==> Resolved(db, k, first) == Resolve(Items(db, k), first)
    ensures var s := Items(db, k);
            Wraps(db, k, first) || Wraps(db, k, last) ==>
              || Nothing(|s|, Resolve(s, first), Resolve(s, last))
              || (Nothing(|s|, Resolved(db, k, first), Resolved(db, k, last))
                  && !ReachesBehind(s, Resolved(db, k, first), Resolved(db, k, last)))
  {
    hide StartEnd, Window;
  }

  /**
   * A range is the slice it asks for if and only if it ends, reaches no cell behind the list, and
   * neither bound wraps around, unless there is nothing between the bounds before and after wrapping.
   */
  lemma RangeIsSliceIff(db: Db, k: string, first: int64, last: int64)
    requires ListOk(db, k) && Exists(db, k)
    ensures var s := Items(db, k);
            var lo, hi := Resolve(s, first), Resolve(s, last);
            var lo', hi' := Resolved(db, k, first), Resolved(db, k, last);
            Range(db, k, first, last) == Success(Slice(s, lo, hi)) <==>
              && !Endless(db, k, last)
              && !(ReachesBehind(s, lo', hi') && CellKey(k, Window(db, k).1) in db)
              && (Wraps(db, k, first) || Wraps(db, k, last) ==> Nothing(|s|, lo, hi) && Nothing(|s|, lo', hi'))
  {
    hide E64, CellKey, MetaKey, Range, ListOk, Window, Items, Slice, Wraps,
         Resolve, Resolved, Nothing, ReachesBehind, Endless;
    RangeReads(db, k, first, last);
    WrapMisses(db, k, first, last);
    WrapMisses(db, k, last, first);
    var s := Items(db, k);
    SliceEmptyIff(s, Resolve(s, first), Resolve(s, last));
    SliceEmptyIff(s, Resolved(db, k, first), Resolved(db, k, last));
    var asked := Slice(s, Resolve(s, first), Resolve(s, last));
    var slice := Slice(s, Resolved(db, k, first), Resolved(db, k, last));
    assert slice + [] == slice;
    assert |slice + Behind(db, k)| == |slice| + |Behind(db, k)|;
  }

  /** An element popped on the right is still returned by a range that asks for its old index. */
  lemma PoppedStaysVisible(db: Db, k: string)
    requires ListOk(db, k) && Items(db, k) != [] && |Items(db, k)| <= MAXINT64
    ensures Range(RightPop(db, k).0, k, 0, |Items(db, k)| - 1) == Success(Items(db, k))
  {
    hide E64, CellKey, MetaKey, Cells;
    var s := Items(db, k);
    var (x, y) := Window(db, k);
    Shrink(db, k, x, y - 1);
    var db' := db[MetaKey(k) := MetaValue(x, y - 1)];
    MetaCell(k, k, y - 1);
    assert RightPop(db, k).0 == db';
    assert Behind(db', k) == [s[|s| - 1]];
    RangeReads(db', k, 0, |s| - 1);
    var shorter := Items(db', k);
    assert shorter == s[..|s| - 1] && Slice(shorter, 0, |s| - 1) == shorter && ReachesBehind(shorter, 0, |s| - 1);
    assert Range(db', k, 0, |s| - 1) == Success(shorter + [s[|s| - 1]]);
    assert s[..|s| - 1] + [s[|s| - 1]] == s;
  }

  /**
   * Once elements have been popped on the left, a range whose last index leaves int64 returns nothing, and one
   * whose first index does, which asks for nothing, returns the list from its front.
   */
  lemma LargestIndexWraps(db: Db, k: string, i: int64)
    requires ListOk(db, k) && Exists(db, k) && i >= 0 && Window(db, k).0 + i > MAXINT64
    ensures Range(db, k, 0, i) == Success([])
    ensures Range(db, k, i, -1) == Success(Items(db, k))
  {
    hide E64, CellKey, MetaKey, Range;
    RangeReads(db, k, 0, i);
    RangeReads(db, k, i, -1);
    var s := Items(db, k);
    assert Slice(s, Resolved(db, k, 0), Resolved(db, k, i)) == [];
    assert Slice(s, Resolved(db, k, i), Resolved(db, k, -1)) == s;
    assert s + [] == s && s[..0] + [] == [];
  }

  // -------------------------------------------------------------------- writes

  lemma CellWritten(db: Db, k: string, c: int64, v: string)
    requires ListOk(db, k) && Exists(db, k)
    ensures var (s, j, db') := (Items(db, k), c - Window(db, k).0, db[CellKey(k, c) := v]);
            ListOk(db', k) && Items(db', k) == if 0 <= j < |s| then s[j := v] else s
  {
    hide E64, CellKey, MetaKey, D64;
    forall j: int64 ensures MetaKey(k) != CellKey(k, j) && (CellKey(k, j) == CellKey(k, c) <==> j == c) {
      MetaCell(k, k, j);
      CellCell(k, j, k, c);
    }
  }

  /** The cell that is written: behind the front by as much as the element, and by the front itself. */
  lemma SetForm(db: Db, k: string, idx: int64, v: string)
    requires ListOk(db, k)
    ensures var (i, x) := (Resolve(Items(db, k), idx), Window(db, k).0);
            Set(db, k, idx, v) ==
              if !Exists(db, k) then (db, Failure(NotExist))
              else if 0 <= i < |Items(db, k)| then (db[CellKey(k, AddInt64(x + i, x)) := v], Success(()))
              else (db, Failure(OutOfSize))
  {
    hide E64, CellKey, MetaKey, D64;
  }

  /**
   * Writing at an index changes that element and no other if and only if the list starts at zero, or the
   * element, and the one that is written instead, hold the value already.
   */
  lemma SetWritesIff(db: Db, k: string, idx: int64, v: string)
    requires ListOk(db, k) && Exists(db, k) && 0 <= Resolve(Items(db, k), idx) < |Items(db, k)|
    ensures var (s, i, x) := (Items(db, k), Resolve(Items(db, k), idx), Window(db, k).0);
            var (db', r) := Set(db, k, idx, v);
            var j := AddInt64(x + i, x) - x;
            && r == Success(()) && ListOk(db', k)
            && (Items(db', k) == s[i := v] <==> x == 0 || (s[i] == v && (0 <= j < |s| ==> s[j] == v)))
  {
    hide E64, CellKey, MetaKey, D64, Set, ListOk, Items, StartEnd, Window, Exists;
    var s, i, x := Items(db, k), Resolve(Items(db, k), idx), Window(db, k).0;
    SetForm(db, k, idx, v);
    CellWritten(db, k, AddInt64(x + i, x), v);
    WritesAgree(s, i, AddInt64(x + i, x) - x, v);
  }

  lemma WritesAgree(s: seq<string>, i: nat, j: int, v: string)
    requires i < |s|
    ensures (if 0 <= j < |s| then s[j := v] else s) == s[i := v] <==>
              i == j || (s[i] == v && (0 <= j < |s| ==> s[j] == v))
  {
    assert s[i] == v ==> s[i := v] == s;
    assert s[i := v][i] == v;
    if 0 <= j < |s| && i != j {
      assert s[j := v][i] == s[i] && s[j := v][j] == v;
      assert s[i := v][j] == s[j];
      assert s[i] == v && s[j] == v ==> s[j := v] == s;
    }
  }

  // --------------------------------------------------------------------- clearing

  lemma {:induction false} DroppedCells(db: Db, k: string, start: int64, end: int64, key: string)
    ensures key in DropCells(db, k, start, end) <==>
              key in db && forall i: int64 :: start <= i < end ==> key != CellKey(k, i)
    ensures key in DropCells(db, k, start, end) ==> DropCells(db, k, start, end)[key] == db[key]
    decreases end - start
  {
    hide CellKey;
    if start < end {
      DroppedCells(db - {CellKey(k, start)}, k, start + 1, end, key);
    }
  }

  /** Clearing a list deletes its cells and its window, and no other key. */
  lemma ClearDeletes(db: Db, k: string, key: string)
    requires ListOk(db, k) && Exists(db, k)
    ensures key in Clear(db, k).0 <==>
            && key in db && key != MetaKey(k)
            && forall i: int64 :: Window(db, k).0 <= i < Window(db, k).1 ==> key != CellKey(k, i)
    ensures key in Clear(db, k).0 ==> Clear(db, k).0[key] == db[key]
  {
    hide E64, D64, CellKey, MetaKey;
    DroppedCells(db, k, Window(db, k).0, Window(db, k).1, key);
  }

  /** Whatever the store holds, an operation that fails changes nothing. */
  lemma FailureKeeps(db: Db, k: string, v: string, idx: int64)
    ensures LeftPush(db, k, v).1.Failure? ==> LeftPush(db, k, v).0 == db
    ensures RightPush(db, k, v).1.Failure? ==> RightPush(db, k, v).0 == db
    ensures LeftPop(db, k).1.Failure? ==> LeftPop(db, k).0 == db
    ensures RightPop(db, k).1.Failure? ==> RightPop(db, k).0 == db
    ensures Set(db, k, idx, v).1.Failure? ==> Set(db, k, idx, v).0 == db
    ensures Clear(db, k).1.Failure? ==> Clear(db, k).0 == db
  {
    hide E64, D64, DropCells;
  }
}
