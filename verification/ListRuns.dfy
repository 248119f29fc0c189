/** Every run of list operations replies, and ends, as the same run on double-ended sequences. */
module ListRuns {
  import opened U64
  import opened Wrappers
  import opened KeyValue
  import opened ListSpec
  import opened ListProofs
  import opened ListReads

  datatype Op =
    | LPush(k: string, v: string)
    | RPush(k: string, v: string)
    | LPop(k: string)
    | RPop(k: string)
    | Drop(k: string)

  datatype Reply = Count(n: int) | Item(v: string) | Gone | Error(e: StoreError)

  function Counted(r: Result<int64, StoreError>): Reply {
    if r.Success? then Count(r.value) else Error(r.error)
  }

  function Found(r: Result<string, StoreError>): Reply {
    if r.Success? then Item(r.value) else Error(r.error)
  }

  /** One operation on the stored lists. */
  function Perform(db: Db, op: Op): (Db, Reply) {
    match op
    case LPush(k, v) => var r := LeftPush(db, k, v); (r.0, Counted(r.1))
    case RPush(k, v) => var r := RightPush(db, k, v); (r.0, Counted(r.1))
    case LPop(k) => var r := LeftPop(db, k); (r.0, Found(r.1))
    case RPop(k) => var r := RightPop(db, k); (r.0, Found(r.1))
    case Drop(k) => var r := Clear(db, k); (r.0, if r.1.Success? then Gone else Error(r.1.error))
  }

  type Ideal = map<string, seq<string>>

  function At(m: Ideal, k: string): seq<string> {
    if k in m then m[k] else []
  }

  /** The same operation on named sequences. */
  function Perfect(m: Ideal, op: Op): (Ideal, Reply) {
    var k := op.k;
    var s := At(m, k);
    match op
    case LPush(_, v) => (m[k := [v] + s], Count(|s| + 1))
    case RPush(_, v) => (m[k := s + [v]], Count(|s| + 1))
    case LPop(_) =>
      if k !in m then (m, Error(NotExist)) else if s == [] then (m, Error(OutOfSize)) else (m[k := s[1..]], Item(s[0]))
    case RPop(_) =>
      if k !in m then (m, Error(NotExist))
      else if s == [] then (m, Error(OutOfSize))
      else (m[k := s[..|s| - 1]], Item(s[|s| - 1]))
    case Drop(_) => if k !in m then (m, Error(NotExist)) else (m - {k}, Gone)
  }

  /** One stored list is one ideal sequence. */
  ghost predicate Refines(db: Db, m: Ideal, k: string, n: nat) {
    ListOk(db, k) && Within(db, k, n) && (Exists(db, k) <==> k in m) && Items(db, k) == At(m, k)
  }

  ghost predicate AllRefine(db: Db, m: Ideal, names: set<string>, n: nat) {
    forall k :: k in names ==> Refines(db, m, k, n)
  }

  /** No name is another followed by an index that lies within `n` of zero. */
  ghost predicate Free(names: set<string>, n: nat) {
    forall a, b :: a in names && b in names ==> !Extends(a, b, n)
  }

  // -------------------------------------------------------------------- frames

  lemma PerformFrame(db: Db, op: Op, other: string, n: nat, limit: nat)
    requires other != op.k && Apart(other, op.k, limit) && n < limit <= LIMIT
    requires ListOk(db, op.k) && Within(db, op.k, n)
    ensures SameKeys(db, Perform(db, op).0, other, limit)
  {
    hide E64, CellKey, MetaKey, Apart;
    var k := op.k;
    var w := Window(db, k);
    WriteFrame(db, k, 0, "", MetaValue(0, 0), other, limit);
    match op
    case LPush(_, v) =>
      WriteFrame(Made(db, k), k, w.0 - 1, v, MetaValue(w.0 - 1, w.1), other, limit);
    case RPush(_, v) =>
      WriteFrame(Made(db, k), k, w.1, v, MetaValue(w.0, w.1 + 1), other, limit);
    case LPop(_) =>
      WriteFrame(db, k, 0, "", MetaValue(w.0 + 1, w.1), other, limit);
    case RPop(_) =>
      WriteFrame(db, k, 0, "", MetaValue(w.0, w.1 - 1), other, limit);
    case Drop(_) =>
      ClearFrame(db, k, other, limit);
  }

  lemma ClearFrame(db: Db, k: string, other: string, n: nat)
    requires other != k && Apart(other, k, n) && Within(db, k, n)
    ensures SameKeys(db, Clear(db, k).0, other, n)
  {
    hide E64, CellKey;
    var (start, end) := Window(db, k);
    DroppedFrame(db, k, start, end, other, n);
    MetaMeta(k, other);
    forall j: int64 | 0 - n <= j < n ensures CellKey(other, j) != MetaKey(k) {
      MetaCell(k, other, j);
    }
  }

  // ---------------------------------------------------------------------- runs

  lemma PerformRefines(db: Db, m: Ideal, op: Op, n: nat)
    requires Refines(db, m, op.k, n) && n < LIMIT
    ensures Perform(db, op).1 == Perfect(m, op).1
    ensures Refines(Perform(db, op).0, Perfect(m, op).0, op.k, n + 1)
  {
    hide E64, CellKey, MetaKey, LeftPush, RightPush, LeftPop, RightPop, Clear, ListOk, Items;
    match op
    case LPush(k, v) => LeftPushed(db, k, v, n);
    case RPush(k, v) => RightPushed(db, k, v, n);
    case LPop(k) => LeftPopped(db, k, n);
    case RPop(k) => RightPopped(db, k, n);
    case Drop(k) => Cleared(db, k);
  }

  lemma Cleared(db: Db, k: string)
    requires ListOk(db, k)
    ensures var (db', r) := Clear(db, k);
            if !Exists(db, k) then db' == db && r == Failure(NotExist)
            else
              && r == Success(()) && ListOk(db', k) && !Exists(db', k)
              && Items(db', k) == [] && Window(db', k) == (0, 0)
  {
    hide E64, CellKey;
  }

  lemma OthersRefine(db: Db, m: Ideal, op: Op, other: string, n: nat, limit: nat)
    requires other != op.k && Apart(other, op.k, limit) && n < limit <= LIMIT
    requires Refines(db, m, op.k, n) && Refines(db, m, other, n)
    ensures Refines(Perform(db, op).0, Perfect(m, op).0, other, n + 1)
  {
    hide E64, CellKey, MetaKey, Perform, Apart;
    PerformFrame(db, op, other, n, limit);
  }

  function Replies(db: Db, ops: seq<Op>): seq<Reply>
    decreases |ops|
  {
    if ops == [] then [] else [Perform(db, ops[0]).1] + Replies(Perform(db, ops[0]).0, ops[1..])
  }

  function PerfectReplies(m: Ideal, ops: seq<Op>): seq<Reply>
    decreases |ops|
  {
    if ops == [] then [] else [Perfect(m, ops[0]).1] + PerfectReplies(Perfect(m, ops[0]).0, ops[1..])
  }

  function After(db: Db, ops: seq<Op>): Db
    decreases |ops|
  {
    if ops == [] then db else After(Perform(db, ops[0]).0, ops[1..])
  }

  function PerfectAfter(m: Ideal, ops: seq<Op>): Ideal
    decreases |ops|
  {
    if ops == [] then m else PerfectAfter(Perfect(m, ops[0]).0, ops[1..])
  }

  predicate Over(ops: seq<Op>, names: set<string>) {
    forall i :: 0 <= i < |ops| ==> ops[i].k in names
  }

  lemma {:induction false} RunRefines(db: Db, m: Ideal, ops: seq<Op>, names: set<string>, n: nat, limit: nat)
    requires Free(names, limit) && Over(ops, names)
    requires AllRefine(db, m, names, n) && n + |ops| <= limit <= LIMIT
    ensures Replies(db, ops) == PerfectReplies(m, ops)
    ensures AllRefine(After(db, ops), PerfectAfter(m, ops), names, n + |ops|)
    decreases |ops|
  {
    hide E64, CellKey, MetaKey, Perform, Perfect, Refines;
    if ops != [] {
      var op := ops[0];
      PerformRefines(db, m, op, n);
      var db', m' := Perform(db, op).0, Perfect(m, op).0;
      forall k | k in names ensures Refines(db', m', k, n + 1) {
        if k != op.k {
          OthersRefine(db, m, op, k, n, limit);
        }
      }
      RunRefines(db', m', ops[1..], names, n + 1, limit);
    }
  }

  lemma EmptyRefines(k: string)
    ensures Refines(map[], map[], k, 0)
  {
  }

  /** A run from an empty store replies as the same run on double-ended sequences, and leaves their contents. */
  ghost predicate RunIsIdeal(ops: seq<Op>, names: set<string>) {
    && Replies(map[], ops) == PerfectReplies(map[], ops)
    && AllRefine(After(map[], ops), PerfectAfter(map[], ops), names, |ops|)
  }

  lemma RunFromEmpty(ops: seq<Op>, names: set<string>)
    requires Free(names, |ops|) && Over(ops, names) && |ops| <= LIMIT
    ensures RunIsIdeal(ops, names)
  {
    hide Refines;
    forall k ensures Refines(map[], map[], k, 0) {
      EmptyRefines(k);
    }
    RunRefines(map[], map[], ops, names, 0, |ops|);
  }

  // --------------------------------------------------------------- shared keys

  function Repeat(op: Op, c: nat): (ops: seq<Op>)
    ensures |ops| == c && forall i :: 0 <= i < c ==> ops[i] == op
  {
    if c == 0 then [] else [op] + Repeat(op, c - 1)
  }

  lemma {:induction false} RightPushes(db: Db, b: string, v: string, y: int64, c: nat)
    requires PushWindow(db, b) == Success((0, y)) && 0 <= y && 0 < c && y + c <= LIMIT
    ensures var db' := After(db, Repeat(RPush(b, v), c));
            CellKey(b, y + c - 1) in db' && db'[CellKey(b, y + c - 1)] == v
    decreases c
  {
    hide E64, CellKey, MetaKey, StartEnd;
    var db' := Perform(db, RPush(b, v)).0;
    Write(Made(db, b), b, y, v, 0, y + 1);
    if c > 1 {
      assert MetaKey(b) in db';
      RightPushes(db', b, v, y + 1, c - 1);
    }
  }

  lemma {:induction false} LeftPushes(db: Db, b: string, v: string, x: int64, c: nat)
    requires PushWindow(db, b) == Success((x, 0)) && x <= 0 && 0 < c && 0 - LIMIT <= x - c
    ensures var db' := After(db, Repeat(LPush(b, v), c));
            CellKey(b, x - c) in db' && db'[CellKey(b, x - c)] == v
    decreases c
  {
    hide E64, CellKey, MetaKey, StartEnd;
    var db' := Perform(db, LPush(b, v)).0;
    Write(Made(db, b), b, x - 1, v, x - 1, 0);
    if c > 1 {
      assert MetaKey(b) in db';
      LeftPushes(db', b, v, x - 1, c - 1);
    }
  }

  /** Pushes to `b` alone that end with writing the cell `i`. */
  function PushesTo(b: string, v: string, i: int64): seq<Op> {
    if i >= 0 then Repeat(RPush(b, v), i + 1) else Repeat(LPush(b, v), 0 - i)
  }

  /**
   * What a shared key does: pushes of a short element to `b` up to the cell `i` leave, under the name of `b`
   * followed by `i`, a list that no operation can use.
   */
  lemma SharedKey(b: string, v: string, i: int64, w: string)
    requires |v| <= 8 && 0 - LIMIT <= i < LIMIT
    ensures var db, a := After(map[], PushesTo(b, v, i)), b + E64(i);
            && StartEnd(db, a) == Failure(Panic)
            && Perform(db, LPush(a, w)).1 == Perform(db, RPush(a, w)).1 == Error(Panic)
            && Perform(db, LPop(a)).1 == Perform(db, RPop(a)).1 == Perform(db, Drop(a)).1 == Error(Panic)
  {
    hide E64, CellKey, MetaKey, After;
    if i >= 0 {
      RightPushes(map[], b, v, 0, i + 1);
    } else {
      LeftPushes(map[], b, v, 0, 0 - i);
    }
    MetaCell(b + E64(i), b, i);
  }

  /** All runs of at most `n` operations are ideal if and only if no name is another followed by an index within `n`. */
  lemma RunsAreIdealIff(names: set<string>, n: nat)
    requires n <= LIMIT
    ensures (forall ops: seq<Op> :: |ops| <= n && Over(ops, names) ==> RunIsIdeal(ops, names)) <==> Free(names, n)
  {
    hide E64, Replies, PerfectReplies, After, PerfectAfter, AllRefine;
    if Free(names, n) {
      forall ops: seq<Op> | |ops| <= n && Over(ops, names) ensures RunIsIdeal(ops, names) {
        RunFromEmpty(ops, names);
      }
    } else {
      var a, b :| a in names && b in names && Extends(a, b, n);
      var i: int64 :| 0 - n <= i < n && a == b + E64(i);
      SharedKey(b, "", i, "");
      BrokenRun(PushesTo(b, "", i), names, a);
      assert |PushesTo(b, "", i)| <= n && Over(PushesTo(b, "", i), names);
    }
  }

  lemma BrokenRun(ops: seq<Op>, names: set<string>, a: string)
    requires a in names && StartEnd(After(map[], ops), a) == Failure(Panic)
    ensures !RunIsIdeal(ops, names)
  {
    hide D64, MetaKey, After, PerfectAfter, Replies, PerfectReplies;
  }

  /** So the reads after any such run are those of the ideal sequence, but for ranges as `RangeIsSliceIff` says. */
  lemma ReadsAfterRun(ops: seq<Op>, names: set<string>, k: string, first: int64, last: int64)
    requires Free(names, |ops|) && Over(ops, names) && |ops| < LIMIT && k in names
    ensures var db, m := After(map[], ops), PerfectAfter(map[], ops);
            var s := At(m, k);
            var i := Resolve(s, first);
            var lo, hi := Resolved(db, k, first), Resolved(db, k, last);
            && Len(db, k) == Success(|s|)
            && Index(db, k, first) ==
                 (if k !in m then Failure(NotExist) else Success(if 0 <= i < |s| then s[i] else ""))
            && (k !in m ==> Range(db, k, first, last) == Failure(NotExist))
            && (k in m ==>
                 Range(db, k, first, last) ==
                 Success(Slice(s, lo, hi) + if ReachesBehind(s, lo, hi) then Behind(db, k) else []))
            && (k in m ==>
                 (Range(db, k, first, last) == Success(Slice(s, i, Resolve(s, last))) <==>
                   && !(ReachesBehind(s, lo, hi) && CellKey(k, Window(db, k).1) in db)
                   && (Wraps(db, k, first) || Wraps(db, k, last) ==>
                         Nothing(|s|, i, Resolve(s, last)) && Nothing(|s|, lo, hi))))
  {
    hide E64, CellKey, After, PerfectAfter, Len, Index, Range, Resolved, Slice,
         ReachesBehind, Wraps, Behind, Nothing, ListOk, Items;
    RunFromEmpty(ops, names);
    var db, m := After(map[], ops), PerfectAfter(map[], ops);
    assert Refines(db, m, k, |ops|);
    LenReads(db, k, |ops|);
    IndexReads(db, k, first);
    if k in m {
      RangeReads(db, k, first, last);
      RangeIsSliceIff(db, k, first, last);
    } else {
      MissingRange(db, k, first, last);
    }
  }

  lemma MissingRange(db: Db, k: string, first: int64, last: int64)
    requires !Exists(db, k)
    ensures Range(db, k, first, last) == Failure(NotExist)
  {
  }

  /** The key of something other than a list. */
  predicate NoListKey(key: string) {
    key == "" || key[0] != 'l'
  }

  lemma {:induction false} DropCellsElsewhere(db: Db, k: string, start: int64, end: int64, key: string)
    requires NoListKey(key)
    ensures key in DropCells(db, k, start, end) <==> key in db
    ensures key in db ==> DropCells(db, k, start, end)[key] == db[key]
    decreases end - start
  {
    hide E64;
    if start < end {
      assert CellKey(k, start)[0] == 'l';
      DropCellsElsewhere(db - {CellKey(k, start)}, k, start + 1, end, key);
    }
  }

  lemma PerformElsewhere(db: Db, op: Op, key: string)
    requires NoListKey(key)
    ensures key in Perform(db, op).0 <==> key in db
    ensures key in db ==> Perform(db, op).0[key] == db[key]
  {
    hide E64;
    var k := op.k;
    assert MetaKey(k)[0] == 'l' && forall i: int64 :: CellKey(k, i)[0] == 'l';
    hide MetaKey, CellKey;
    if op.Drop? {
      DropCellsElsewhere(db, k, Window(db, k).0, Window(db, k).1, key);
    }
  }

  /** No run of list operations changes a key that belongs to no list. */
  lemma {:induction false} RunElsewhere(db: Db, ops: seq<Op>, key: string)
    requires NoListKey(key)
    ensures key in After(db, ops) <==> key in db
    ensures key in db ==> After(db, ops)[key] == db[key]
    decreases |ops|
  {
    hide Perform;
    if ops != [] {
      PerformElsewhere(db, ops[0], key);
      RunElsewhere(Perform(db, ops[0]).0, ops[1..], key);
    }
  }
}
