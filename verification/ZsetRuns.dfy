/** Runs of sorted-set operations: the index keeps agreeing, and nothing else in the store is touched. */
module ZsetRuns {
  import opened Wrappers
  import opened Bytes
  import opened KeyValue
  import opened ZsetSpec
  import opened ZsetProofs

  // -------------------------------------------------------------------- frames

  /** The keys that belong to the sorted set `k`. */
  predicate Family(k: string, key: string) {
    "z" + Name(k) <= key || ScorePrefix(k) <= key
  }

  predicate SameAt(db: Db, db': Db, key: string) {
    (key in db <==> key in db') && (key in db ==> db'[key] == db[key])
  }

  ghost predicate SameOutside(db: Db, db': Db, k: string) {
    forall key :: !Family(k, key) ==> SameAt(db, db', key)
  }

  ghost predicate SameFamily(db: Db, db': Db, k: string) {
    forall key :: Family(k, key) ==> SameAt(db, db', key)
  }

  lemma OwnKeys(k: string, v: string, s: int32)
    ensures Family(k, MemberKey(k, v)) && Family(k, ScoreKey(k, v, s))
  {
    assert MemberKey(k, v)[..|"z" + Name(k)|] == "z" + Name(k);
  }

  lemma {:induction false} RemoveAllFrame(db: Db, k: string, keys: seq<string>)
    ensures SameOutside(db, RemoveAll(db, k, keys).0, k)
    decreases |keys|
  {
    hide Decode, MemberKey, ScoreKey, Family;
    if keys != [] && Decode(keys[0]).Some? {
      var (s, v) := Decode(keys[0]).value;
      OwnKeys(k, v, s);
      RemoveAllFrame(Remove(db, k, v, s), k, keys[1..]);
    }
  }

  /** Keys of one sorted set never belong to another. */
  lemma FamiliesApart(k: string, k': string, key: string)
    requires |k| < TWO32 && |k'| < TWO32 && Family(k, key) && Family(k', key)
    ensures k == k'
  {
    hide Name;
    assert key[0] == 's' || key[0] == 'z';
    if ScorePrefix(k) <= key {
      assert ScorePrefix(k)[0] == 's';
      PrefixesApart(k, k', key);
    } else {
      assert ("z" + Name(k))[0] == 'z' && ScorePrefix(k')[0] == 's';
      var p, p' := "z" + Name(k), "z" + Name(k');
      var x, y := key[|p|..], key[|p'|..];
      assert key[1..] == Name(k) + x && key[1..] == Name(k') + y;
      NameFirst(k, k', x, y);
    }
  }

  function SetKey(n: string, v: string): string {
    "s" + Name(n) + v
  }

  /** Keys of maps and lists, and of plain sets whose name has no length of 122 modulo 256, belong to no sorted set. */
  lemma OthersOutside(k: string, key: string, n: string, v: string)
    requires (key != "" && (key[0] == 'm' || key[0] == 'l')) || (key == SetKey(n, v) && |n| % 256 != 122)
    ensures !Family(k, key)
  {
    hide Name;
    assert ("z" + Name(k))[0] == 'z' && ScorePrefix(k)[..2] == "sz";
    if key == SetKey(n, v) {
      SecondByte(n, v);
      assert ScorePrefix(k)[1] == 'z' && key[1] != 'z';
    }
  }

  lemma SecondByte(n: string, v: string)
    ensures |SetKey(n, v)| >= 2 && SetKey(n, v)[0] == 's' && SetKey(n, v)[1] as int == |n| % 256
  {
    assert LE(|n|, 4)[0] as int == |n| % 256;
  }

  /** A byte behind a little-endian number is its most significant one. */
  lemma {:induction false} LEAppend(q: nat, w: nat, c: nat)
    requires q < Pow256(w) && c < 256
    ensures LE(q + Pow256(w) * c, w + 1) == LE(q, w) + [c as char]
    decreases w
  {
    if w == 0 {
      assert LE(c, 1) == [c as char] + LE(0, 0);
    } else {
      var n := q + Pow256(w) * c;
      assert n == 256 * (q / 256 + Pow256(w - 1) * c) + q % 256;
      assert n % 256 == q % 256 && n / 256 == q / 256 + Pow256(w - 1) * c;
      LEAppend(q / 256, w - 1, c);
    }
  }

  lemma PrefixParts(len: string, k: string, x: string, t: string)
    requires |len| == |x| == 4
    ensures "sz" + (len + k + "+") <= "sz" + x + t <==> len == x && |k| < |t| && k == t[..|k|] && t[|k|] == '+'
  {
    var p, key := "sz" + (len + k + "+"), "sz" + x + t;
    assert key[2..6] == x && p[2..6] == len;
    assert key[6..] == t && p[6..] == k + "+";
    if |k| < |t| {
      assert key[6..6 + |k|] == t[..|k|] && p[6..6 + |k|] == k;
      assert key[6 + |k|] == t[|k|] && p[6 + |k|] == '+';
    }
    if len == x && |k| < |t| && k == t[..|k|] && t[|k|] == '+' {
      assert key[..7 + |k|] == "sz" + x + t[..|k| + 1];
      assert t[..|k| + 1] == t[..|k|] + [t[|k|]];
      assert key[..|p|] == p;
    }
  }

  /** The length that a sorted set's name would have to have, were the key of the plain set `n` in its index. */
  function ClashLength(n: string): nat
    requires n != ""
  {
    |n| / 256 + 0x100_0000 * (n[0] as int)
  }

  /** With such a length, the key of an element reads as an index key with this length in front. */
  lemma ClashKey(n: string, v: string)
    requires |n| < TWO32 && IsBytes(n) && |n| % 256 == 122
    ensures SetKey(n, v) == "sz" + LE(ClashLength(n), 4) + (n[1..] + "+" + v)
    ensures ClashLength(n) < Pow256(4)
  {
    Pow256Of8();
    assert Pow256(3) == 0x100_0000;
    LEAppend(|n| / 256, 3, n[0] as int);
    assert LE(|n|, 4) == ['z'] + LE(|n| / 256, 3);
    SetKeyParts(LE(|n| / 256, 3), n, v);
  }

  /**
   * A plain set's element has a key in the family of a sorted set if and only if the low byte of the set's length
   * is the letter of the index, and what follows it reads as the length and the name of that sorted set.
   */
  lemma SetClashIff(k: string, n: string, v: string)
    requires |k| < TWO32 && |n| < TWO32 && IsBytes(n)
    ensures Family(k, SetKey(n, v)) <==>
            |n| % 256 == 122 &&
            var t := n[1..] + "+" + v;
            |k| == ClashLength(n) < |t| && k == t[..|k|] && t[|k|] == '+'
  {
    hide LE, FromLE, ClashLength, Pow256;
    SecondByte(n, v);
    assert ("z" + Name(k))[0] == 'z' && ScorePrefix(k)[..2] == "sz";
    assert |n| % 256 != 122 ==> ScorePrefix(k)[1] == 'z' && SetKey(n, v)[1] != 'z';
    if |n| % 256 == 122 {
      ClashKey(n, v);
      Pow256Of8();
      LERoundTrip(|k|, 4);
      LERoundTrip(ClashLength(n), 4);
      PrefixParts(LE(|k|, 4), k, LE(ClashLength(n), 4), n[1..] + "+" + v);
    }
  }

  lemma SetKeyParts(len: string, n: string, v: string)
    requires n != ""
    ensures "s" + (['z'] + len + n + "+") + v == "sz" + (len + [n[0]]) + (n[1..] + "+" + v)
  {
    assert n == [n[0]] + n[1..];
  }

  lemma FamilyDecides(db: Db, db': Db, k: string)
    requires SameFamily(db, db', k) && Kept(db, k)
    ensures Kept(db', k)
    ensures forall v :: (IsMember(db', k, v) <==> IsMember(db, k, v)) && ScoreOf(db', k, v) == ScoreOf(db, k, v)
    ensures forall s, v :: InIndex(db', k, s, v) <==> InIndex(db, k, s, v)
  {
    hide Decode, E32, D32, MemberKey, ScoreKey, IsIndexKey;
    forall s: int32, v ensures SameAt(db, db', MemberKey(k, v)) && SameAt(db, db', ScoreKey(k, v, s)) {
      OwnKeys(k, v, s);
    }
    forall key | key in db' && ScorePrefix(k) <= key ensures IsIndexKey(k, key) {
      assert SameAt(db, db', key);
    }
    forall v | IsMember(db', k, v) ensures Scored(db', k, v) {
      OwnKeys(k, v, ScoreOf(db, k, v));
      assert SameAt(db, db', MemberKey(k, v));
      assert Scored(db, k, v);
    }
  }

  // ---------------------------------------------------------------------- runs

  datatype Op = ZAdd(k: string, score: int32, v: string) | ZDel(k: string, v: string) | ZClear(k: string)

  datatype Reply = Fine | Error(e: StoreError)

  function Told(r: Result<(), StoreError>): Reply {
    if r.Success? then Fine else Error(r.error)
  }

  /** One operation on the stored sorted sets. */
  function Perform(db: Db, op: Op): (Db, Reply) {
    match op
    case ZAdd(k, score, v) => (Add(db, k, score, v), Fine)
    case ZDel(k, v) => var r := Del(db, k, v); (r.0, Told(r.1))
    case ZClear(k) => var r := Clear(db, k); (r.0, Told(r.1))
  }

  type Scores = map<string, int32>

  /** An ideal sorted set: the scores of its members, and the entries of its index. */
  datatype Zset = Zset(scores: Scores, index: set<Entry>)

  type Ideal = map<string, Zset>

  const EMPTY := Zset(map[], {})

  function At(m: Ideal, k: string): Zset {
    if k in m then m[k] else EMPTY
  }

  /** The same operation on named ideal sets: a member's second score leaves the first one in the index. */
  function Perfect(m: Ideal, op: Op): (Ideal, Reply) {
    var z := At(m, op.k);
    match op
    case ZAdd(k, score, v) => (m[k := Zset(z.scores[v := score], z.index + {Entry(score, v)})], Fine)
    case ZDel(k, v) =>
      if v in z.scores then (m[k := Zset(z.scores - {v}, z.index - {Entry(z.scores[v], v)})], Fine)
      else (m, Error(NotExist))
    case ZClear(k) => (m[k := EMPTY], Fine)
  }

  /** The index holds each member under its score, and nothing else. */
  predicate Agrees(z: Zset) {
    && (forall v :: v in z.scores ==> Entry(z.scores[v], v) in z.index)
    && (forall e :: e in z.index ==> e.member in z.scores && z.scores[e.member] == e.score)
  }

  /** An add gives no member a second score. */
  predicate Fair(m: Ideal, op: Op) {
    op.ZAdd? && op.v in At(m, op.k).scores ==> At(m, op.k).scores[op.v] == op.score
  }

  predicate FairRun(m: Ideal, ops: seq<Op>)
    decreases |ops|
  {
    ops == [] || (Fair(m, ops[0]) && FairRun(Perfect(m, ops[0]).0, ops[1..]))
  }

  /** One stored sorted set is one ideal one, its index included. */
  ghost predicate Refines(db: Db, m: Ideal, k: string) {
    var z := At(m, k);
    && Kept(db, k)
    && (forall v :: (IsMember(db, k, v) <==> v in z.scores) && (v in z.scores ==> ScoreOf(db, k, v) == z.scores[v]))
    && (forall s, v :: InIndex(db, k, s, v) <==> Entry(s, v) in z.index)
  }

  lemma PerformFrame(db: Db, op: Op)
    ensures SameOutside(db, Perform(db, op).0, op.k)
  {
    hide Decode, MemberKey, ScoreKey, Family, Scan;
    match op
    case ZAdd(k, score, v) => OwnKeys(k, v, score);
    case ZDel(k, v) => OwnKeys(k, v, ScoreOf(db, k, v));
    case ZClear(k) => RemoveAllFrame(db, k, Scan(db, ScorePrefix(k), ScorePrefix(k)));
  }

  lemma PerformRefines(db: Db, m: Ideal, op: Op)
    requires |op.k| < NAME_LIMIT && Refines(db, m, op.k)
    ensures Perform(db, op).1 == Perfect(m, op).1 && Refines(Perform(db, op).0, Perfect(m, op).0, op.k)
  {
    hide Kept, Clear, Remove, IsMember, ScoreOf, InIndex, Add;
    match op
    case ZAdd(k, score, v) => AddStays(db, k, score, v);
    case ZDel(k, v) => DelRefines(db, m, k, v);
    case ZClear(k) => ClearEmpties(db, k);
  }

  lemma DelRefines(db: Db, m: Ideal, k: string, v: string)
    requires |k| < NAME_LIMIT && Refines(db, m, k)
    ensures var op := ZDel(k, v);
            Perform(db, op).1 == Perfect(m, op).1 && Refines(Perform(db, op).0, Perfect(m, op).0, k)
  {
    hide Kept, Remove, MemberKey, InIndex, D32;
    if IsMember(db, k, v) {
      RemoveStays(db, k, v);
    }
  }

  lemma OthersRefine(db: Db, m: Ideal, op: Op, other: string)
    requires |op.k| < NAME_LIMIT && |other| < NAME_LIMIT && other != op.k && Refines(db, m, other)
    ensures Refines(Perform(db, op).0, Perfect(m, op).0, other)
  {
    hide Kept, IsMember, ScoreOf, InIndex, Perform, Family;
    PerformFrame(db, op);
    var db' := Perform(db, op).0;
    forall key | Family(other, key) ensures SameAt(db, db', key) {
      if Family(op.k, key) {
        FamiliesApart(op.k, other, key);
      }
    }
    FamilyDecides(db, db', other);
  }

  function After(db: Db, ops: seq<Op>): Db
    decreases |ops|
  {
    if ops == [] then db else After(Perform(db, ops[0]).0, ops[1..])
  }

  function PerfectAfter(m: Ideal, ops: seq<Op>): Ideal
    decreases |ops|
  {
    if ops == [] then m else PerfectAfter(Perfect(m, ops[0]).0, ops[1..])
  }

  function Replies(db: Db, ops: seq<Op>): seq<Reply>
    decreases |ops|
  {
    if ops == [] then [] else [Perform(db, ops[0]).1] + Replies(Perform(db, ops[0]).0, ops[1..])
  }

  function PerfectReplies(m: Ideal, ops: seq<Op>): seq<Reply>
    decreases |ops|
  {
    if ops == [] then [] else [Perfect(m, ops[0]).1] + PerfectReplies(Perfect(m, ops[0]).0, ops[1..])
  }

  predicate Over(ops: seq<Op>, names: set<string>) {
    forall i :: 0 <= i < |ops| ==> ops[i].k in names
  }

  ghost predicate Outside(names: set<string>, key: string) {
    forall k :: k in names ==> !Family(k, key)
  }

  /**
   * Any run of operations replies as the same run on ideal sets, leaves every sorted set as the
   * corresponding ideal one, and leaves every key outside the families of its sorted sets as it was.
   */
  lemma {:induction false} RunRefines(db: Db, m: Ideal, ops: seq<Op>, names: set<string>)
    requires forall k :: k in names ==> |k| < NAME_LIMIT && Refines(db, m, k)
    requires Over(ops, names)
    ensures Replies(db, ops) == PerfectReplies(m, ops)
    ensures forall k :: k in names ==> Refines(After(db, ops), PerfectAfter(m, ops), k)
    ensures forall key :: Outside(names, key) ==> SameAt(db, After(db, ops), key)
    decreases |ops|
  {
    hide Perform, Perfect, Refines, Family;
    if ops != [] {
      var op := ops[0];
      PerformRefines(db, m, op);
      PerformFrame(db, op);
      var db', m' := Perform(db, op).0, Perfect(m, op).0;
      forall k | k in names ensures Refines(db', m', k) {
        if k != op.k {
          OthersRefine(db, m, op, k);
        }
      }
      RunRefines(db', m', ops[1..], names);
    }
  }

  lemma EmptyRefines(k: string)
    ensures Refines(map[], map[], k)
  {
  }

  lemma RunFromEmpty(ops: seq<Op>, names: set<string>)
    requires Over(ops, names) && forall k :: k in names ==> |k| < NAME_LIMIT
    ensures Replies(map[], ops) == PerfectReplies(map[], ops)
    ensures forall k :: k in names ==> Refines(After(map[], ops), PerfectAfter(map[], ops), k)
  {
    hide Refines, Perform, Perfect;
    forall n | n in names ensures Refines(map[], map[], n) {
      EmptyRefines(n);
    }
    RunRefines(map[], map[], ops, names);
  }

  // ------------------------------------------------------------- second scores

  lemma RefinedAgreesIff(db: Db, m: Ideal, k: string)
    requires Refines(db, m, k)
    ensures Indexed(db, k) <==> Agrees(At(m, k))
  {
    hide IsMember, ScoreOf;
    var z := At(m, k);
    forall v | v in z.scores ensures Entry(z.scores[v], v) in z.index {
      assert IsMember(db, k, v);
      MemberInIndex(db, k, v);
    }
    hide Kept, InIndex;
    if Indexed(db, k) {
      forall e | e in z.index ensures e.member in z.scores && z.scores[e.member] == e.score {
        assert InIndex(db, k, e.score, e.member) && e == Entry(e.score, e.member);
      }
    }
  }

  /** Every sorted set is in agreement. */
  predicate AllAgree(m: Ideal, names: set<string>) {
    forall k :: k in names ==> Agrees(At(m, k))
  }

  lemma PerfectAgreesIff(m: Ideal, op: Op, names: set<string>)
    requires AllAgree(m, names) && op.k in names
    ensures AllAgree(Perfect(m, op).0, names) <==> Fair(m, op)
  {
    var z := At(m, op.k);
    var m' := Perfect(m, op).0;
    forall k | k in names && k != op.k ensures Agrees(At(m', k)) {
      assert At(m', k) == At(m, k);
    }
    assert Agrees(z);
    assert Agrees(At(m', op.k)) <==> Fair(m, op) by {
      match op
      case ZAdd(k, score, v) =>
        if v in z.scores && z.scores[v] != score {
          assert Entry(z.scores[v], v) in At(m', k).index;
        }
      case ZDel(k, v) =>
      case ZClear(k) =>
    }
  }

  /** At every moment of a run from an empty store, the index of each sorted set agrees with its members. */
  ghost predicate AlwaysIndexed(ops: seq<Op>, names: set<string>) {
    forall i, k :: 0 <= i <= |ops| && k in names ==> Indexed(After(map[], ops[..i]), k)
  }

  lemma {:induction false} AfterSnoc(m: Ideal, ops: seq<Op>, op: Op)
    ensures PerfectAfter(m, ops + [op]) == Perfect(PerfectAfter(m, ops), op).0
    ensures FairRun(m, ops + [op]) <==> FairRun(m, ops) && Fair(PerfectAfter(m, ops), op)
    decreases |ops|
  {
    hide Perfect, Fair;
    if ops == [] {
      assert [] + [op] == [op] && [op][1..] == [];
    } else {
      assert (ops + [op])[1..] == ops[1..] + [op];
      AfterSnoc(Perfect(m, ops[0]).0, ops[1..], op);
    }
  }

  lemma {:induction false} IdealAgreesIff(ops: seq<Op>, names: set<string>)
    requires Over(ops, names)
    ensures (forall i :: 0 <= i <= |ops| ==> AllAgree(PerfectAfter(map[], ops[..i]), names)) <==> FairRun(map[], ops)
    decreases |ops|
  {
    hide Perfect, Fair, AllAgree, PerfectAfter;
    if ops == [] {
      EmptyAgrees(names);
      assert ops[..0] == [];
    } else {
      var before, op := ops[..|ops| - 1], ops[|ops| - 1];
      assert ops == before + [op] && ops[..|ops|] == ops;
      assert forall i :: 0 <= i <= |before| ==> before[..i] == ops[..i];
      IdealAgreesIff(before, names);
      AfterSnoc(map[], before, op);
      assert before[..|before|] == before;
      if AllAgree(PerfectAfter(map[], before), names) {
        PerfectAgreesIff(PerfectAfter(map[], before), op, names);
      }
    }
  }

  lemma EmptyAgrees(names: set<string>)
    ensures AllAgree(PerfectAfter(map[], []), names) && FairRun(map[], [])
  {
  }

  /** The index agrees at every moment of a run if and only if the run gives no member a second score. */
  lemma AlwaysIndexedIff(ops: seq<Op>, names: set<string>)
    requires Over(ops, names) && forall k :: k in names ==> |k| < NAME_LIMIT
    ensures AlwaysIndexed(ops, names) <==> FairRun(map[], ops)
  {
    hide Agrees, Indexed, After, PerfectAfter, FairRun, Refines;
    IdealAgreesIff(ops, names);
    forall i, k | 0 <= i <= |ops| && k in names
      ensures Indexed(After(map[], ops[..i]), k) <==> Agrees(At(PerfectAfter(map[], ops[..i]), k))
    {
      RunFromEmpty(ops[..i], names);
      RefinedAgreesIff(After(map[], ops[..i]), PerfectAfter(map[], ops[..i]), k);
    }
  }

  // -------------------------------------------------------------------- ranges

  /** In the index of an ideal set, an entry that a range returns: nothing from its start on stops before it. */
  ghost predicate Returned(z: Zset, start: int32, end: int32, e: Entry) {
    && e in z.index && ToUint32(start) <= ToUint32(e.score) && e.score <= end
    && forall d :: d in z.index && ToUint32(start) <= ToUint32(d.score) < ToUint32(e.score) ==> d.score <= end
  }

  /**
   * After any run from an empty store, a range returns the members of exactly these entries of the ideal index, in
   * its order and each entry once.
   */
  lemma RangeAfterRun(ops: seq<Op>, names: set<string>, k: string, start: int32, end: int32)
    requires Over(ops, names) && (forall n :: n in names ==> |n| < NAME_LIMIT) && k in names
    ensures var db, z := After(map[], ops), At(PerfectAfter(map[], ops), k);
            var r, hits := Range(db, k, start, end), Hits(db, k, start, end);
            && r.Success? && |r.value| == |hits| && (forall i :: 0 <= i < |hits| ==> r.value[i] == hits[i].member)
            && (forall i, j :: 0 <= i < j < |hits| ==> Before(hits[i], hits[j]))
            && (forall e: Entry :: e in hits <==> Returned(z, start, end, e))
  {
    hide Perform, Perfect, After, PerfectAfter, Kept, ZsetSpec.Range, Hits,
         Reached, Returned, IsMember, ScoreOf, InIndex;
    RunFromEmpty(ops, names);
    var db, m := After(map[], ops), PerfectAfter(map[], ops);
    assert Refines(db, m, k);
    RangeFinds(db, k, start, end);
    forall e: Entry ensures Reached(db, k, start, end, e) <==> Returned(At(m, k), start, end, e) {
      ReachedIsReturned(db, m, k, start, end, e);
    }
  }

  lemma ReachedIsReturned(db: Db, m: Ideal, k: string, start: int32, end: int32, e: Entry)
    requires Refines(db, m, k)
    ensures Reached(db, k, start, end, e) <==> Returned(At(m, k), start, end, e)
  {
    hide Kept, IsMember, ScoreOf, InIndex;
    forall d: Entry ensures Scanned(db, k, start, d) <==> d in At(m, k).index && ToUint32(start) <= ToUint32(d.score) {
      assert d == Entry(d.score, d.member);
    }
    if Reached(db, k, start, end, e) {
      forall d | d in At(m, k).index && ToUint32(start) <= ToUint32(d.score) < ToUint32(e.score)
        ensures d.score <= end
      {
        assert !StopsBefore(db, k, start, end, d, e);
      }
    }
  }

  /** Some member of `s` has a score from `lo` to `hi`. */
  predicate AnyScore(s: Scores, lo: int, hi: int) {
    exists v :: v in s && lo <= s[v] <= hi
  }

  /** Exactly the members with a score from `start` to `end`, each once, by score and then by bytes. */
  ghost predicate IdealRange(s: Scores, start: int32, end: int32, vs: seq<string>) {
    && (forall v :: v in vs <==> v in s && start <= s[v] <= end)
    && forall i, j :: 0 <= i < j < |vs| ==>
         s[vs[i]] < s[vs[j]] || (s[vs[i]] == s[vs[j]] && Below(vs[i], vs[j]))
  }

  /** After a run that gives no member a second score, a range is right exactly when `RangeRightIff` says so. */
  lemma RangeRightAfterRun(ops: seq<Op>, names: set<string>, k: string, start: int32, end: int32)
    requires Over(ops, names) && (forall n :: n in names ==> |n| < NAME_LIMIT) && k in names && FairRun(map[], ops)
    ensures var r, s := Range(After(map[], ops), k, start, end), At(PerfectAfter(map[], ops), k).scores;
            && r.Success?
            && (IdealRange(s, start, end, r.value) <==>
                  if start < 0 then !AnyScore(s, 0, end)
                  else
                    || AnyScore(s, if start > end then start else end + 1, 0x7fff_ffff)
                    || !AnyScore(s, -0x8000_0000, if end < 0 then end else -1))
  {
    hide Perform, Perfect, After, PerfectAfter, Indexed, Kept, IsMember, ScoreOf, InIndex, FairRun;
    hide AnyScore, IdealRange, ZsetSpec.Range, RangeRight, AnyIn;
    RunFromEmpty(ops, names);
    AlwaysIndexedIff(ops, names);
    assert ops[..|ops|] == ops;
    var db, m := After(map[], ops), PerfectAfter(map[], ops);
    assert Refines(db, m, k) && Indexed(db, k);
    RangeRightIff(db, k, start, end);
    SameReads(db, At(m, k).scores, k, start, end);
  }

  /** What a stored sorted set and the map that it refines say of ranges is the same. */
  lemma SameReads(db: Db, s: Scores, k: string, start: int32, end: int32)
    requires |k| < NAME_LIMIT && Indexed(db, k)
    requires forall v :: (IsMember(db, k, v) <==> v in s) && (v in s ==> ScoreOf(db, k, v) == s[v])
    ensures forall lo, hi :: AnyIn(db, k, lo, hi) <==> AnyScore(s, lo, hi)
    ensures Range(db, k, start, end).Success?
    ensures RangeRight(db, k, start, end) <==> IdealRange(s, start, end, Range(db, k, start, end).value)
  {
    hide Kept, InIndex, IsMember, ScoreOf, ZsetSpec.Range, Below, Reached, Hits;
    RangeFinds(db, k, start, end);
    forall lo: int, hi: int ensures AnyIn(db, k, lo, hi) <==> AnyScore(s, lo, hi) {
      assert forall v :: IsMember(db, k, v) && lo <= ScoreOf(db, k, v) <= hi <==> v in s && lo <= s[v] <= hi;
    }
  }
}
