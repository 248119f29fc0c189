/** The two key families of a sorted set agree, and a range over the index is exactly the members it asks for. */
module ZsetProofs {
  import opened Wrappers
  import opened Bytes
  import opened KeyValue
  import opened ZsetSpec

  // ---------------------------------------------------------------------- keys

  lemma E32RoundTrip(s: int32)
    ensures |E32(s)| == 4 && D32(E32(s)) == s
  {
    Pow256Of8();
    LERoundTrip(ToUint32(s), 4);
    hide LE, FromLE;
    assert FromLE(E32(s)) == ToUint32(s);
  }

  lemma ScoreRoundTrip(s: int32)
    ensures |BE(ToUint32(s), 4)| == 4 && ToInt32(FromBE(BE(ToUint32(s), 4))) == s
  {
    Pow256Of8();
    BERoundTrip(ToUint32(s), 4);
    hide BE, FromBE;
  }

  /** A name is never the beginning of another. */
  lemma NameFirst(k: string, k': string, x: string, y: string)
    requires |k| < TWO32 && |k'| < TWO32 && Name(k) + x == Name(k') + y
    ensures k == k' && x == y
  {
    Pow256Of8();
    LERoundTrip(|k|, 4);
    LERoundTrip(|k'|, 4);
    hide LE, FromLE;
    var a, b := Name(k) + x, Name(k') + y;
    assert a[..4] == LE(|k|, 4) && b[..4] == LE(|k'|, 4);
    assert a[4..4 + |k|] == k && b[4..4 + |k'|] == k';
    assert a[|Name(k)|..] == x && b[|Name(k')|..] == y;
  }

  lemma MemberKeys(k: string, v: string, k': string, v': string)
    requires |k| < TWO32 && |k'| < TWO32
    ensures MemberKey(k, v) == MemberKey(k', v') <==> k == k' && v == v'
  {
    hide Name;
    if MemberKey(k, v) == MemberKey(k', v') {
      assert MemberKey(k, v)[1..] == Name(k) + v && MemberKey(k', v')[1..] == Name(k') + v';
      NameFirst(k, k', v, v');
    }
  }

  lemma KeyParts(len: string, k: string, b: string, v: string)
    requires |len| == 4 && |b| == 4
    ensures var key := "sz" + (len + k + "+") + (b + v);
            |key| == 11 + |k| + |v| && key[2..6] == len && key[7 + |k|..11 + |k|] == b && key[11 + |k|..] == v
  {
  }

  /** Decoding a key with `n` as the length it starts with. */
  lemma DecodeForm(key: string, n: nat)
    requires |key| >= 6 && FromLE(key[2..6]) == n < NAME_LIMIT && |key| >= 11 + n
    ensures Decode(key) == Some((ToInt32(FromBE(key[7 + n..11 + n])), key[11 + n..]))
  {
    hide FromLE, FromBE, ToInt32;
    assert (5 + n) % TWO32 == 5 + n && (9 + n) % TWO32 == 9 + n;
  }

  lemma ScoreKeyDecodes(k: string, v: string, s: int32)
    requires |k| < NAME_LIMIT
    ensures Decode(ScoreKey(k, v, s)) == Some((s, v)) && ScorePrefix(k) <= ScoreKey(k, v, s)
  {
    Pow256Of8();
    LERoundTrip(|k|, 4);
    ScoreRoundTrip(s);
    KeyParts(LE(|k|, 4), k, BE(ToUint32(s), 4), v);
    hide LE, FromLE, BE, FromBE, ToInt32, ToUint32, Decode;
    DecodeForm(ScoreKey(k, v, s), |k|);
  }

  /** An index key decodes to its score and member if and only if its name is not that long. */
  lemma ScoreKeyDecodesIff(k: string, v: string, s: int32)
    requires |k| < TWO32
    ensures Decode(ScoreKey(k, v, s)) == Some((s, v)) <==> |k| < NAME_LIMIT
  {
    if |k| < NAME_LIMIT {
      ScoreKeyDecodes(k, v, s);
    } else {
      Pow256Of8();
      LERoundTrip(|k|, 4);
      KeyParts(LE(|k|, 4), k, BE(ToUint32(s), 4), v);
      hide LE, FromLE, BE, FromBE, ToInt32, ToUint32;
    }
  }

  /** No key belongs to the index of two sorted sets. */
  lemma PrefixesApart(k: string, k': string, key: string)
    requires |k| < TWO32 && |k'| < TWO32 && ScorePrefix(k) <= key && ScorePrefix(k') <= key
    ensures k == k'
  {
    var x, y := key[|ScorePrefix(k)|..], key[|ScorePrefix(k')|..];
    assert key[2..] == Name(k) + x && key[2..] == Name(k') + y;
    NameFirst(k, k', x, y);
  }

  lemma MemberOutside(k: string, v: string, k': string)
    ensures !(ScorePrefix(k') <= MemberKey(k, v))
  {
    assert MemberKey(k, v)[0] == 'z' && ScorePrefix(k')[0] == 's';
  }

  // ----------------------------------------------------------------- invariant

  function ScoreOf(db: Db, k: string, v: string): int32 {
    if MemberKey(k, v) in db then D32(db[MemberKey(k, v)]) else 0
  }

  predicate IsMember(db: Db, k: string, v: string) {
    MemberKey(k, v) in db
  }

  /** The index has the member `v` under the score `s`. */
  predicate InIndex(db: Db, k: string, s: int32, v: string) {
    ScoreKey(k, v, s) in db
  }

  predicate IsIndexKey(k: string, key: string) {
    Decode(key).Some? && key == ScoreKey(k, Decode(key).value.1, Decode(key).value.0)
  }

  /** A member has a score, under which the index has it. */
  predicate Scored(db: Db, k: string, v: string) {
    && IsMember(db, k, v) && db[MemberKey(k, v)] == E32(ScoreOf(db, k, v))
    && InIndex(db, k, ScoreOf(db, k, v), v)
  }

  /** What every operation keeps: the index holds index keys alone, and each member under its score. */
  ghost predicate Kept(db: Db, k: string) {
    && (forall key :: key in db && ScorePrefix(k) <= key ==> IsIndexKey(k, key))
    && (forall v :: IsMember(db, k, v) ==> Scored(db, k, v))
  }

  /** The index of the sorted set holds its members with their scores, and nothing else. */
  ghost predicate Indexed(db: Db, k: string) {
    Kept(db, k) && forall s, v :: InIndex(db, k, s, v) ==> IsMember(db, k, v) && ScoreOf(db, k, v) == s
  }

  lemma ScoreKeys(k: string, s: int32, v: string, s': int32, v': string)
    requires |k| < NAME_LIMIT
    ensures ScoreKey(k, v, s) == ScoreKey(k, v', s') <==> s == s' && v == v'
  {
    ScoreKeyDecodes(k, v, s);
    ScoreKeyDecodes(k, v', s');
    hide Decode, ScoreKey;
  }

  /**
   * Whatever was there, an add makes `v` a member with that score, and puts it into the index besides what is
   * there.
   */
  lemma AddStays(db: Db, k: string, score: int32, v: string)
    requires |k| < NAME_LIMIT && Kept(db, k)
    ensures Kept(Add(db, k, score, v), k)
    ensures forall u :: IsMember(Add(db, k, score, v), k, u) <==> u == v || IsMember(db, k, u)
    ensures forall u :: ScoreOf(Add(db, k, score, v), k, u) == if u == v then score else ScoreOf(db, k, u)
    ensures forall s, u :: InIndex(Add(db, k, score, v), k, s, u) <==> (s == score && u == v) || InIndex(db, k, s, u)
  {
    hide E32, D32, Decode, ScoreKey, ScorePrefix, MemberKey;
    var db' := Add(db, k, score, v);
    E32RoundTrip(score);
    ScoreKeyDecodes(k, v, score);
    forall u ensures (MemberKey(k, u) == MemberKey(k, v) <==> u == v) && MemberKey(k, u) != ScoreKey(k, v, score) {
      MemberKeys(k, u, k, v);
      MemberOutside(k, u, k);
    }
    forall s: int32, u
      ensures (ScoreKey(k, u, s) == ScoreKey(k, v, score) <==> s == score && u == v) &&
                ScoreKey(k, u, s) != MemberKey(k, v)
    {
      ScoreKeys(k, s, u, score, v);
      ScoreKeyDecodes(k, u, s);
      MemberOutside(k, v, k);
    }
    MemberOutside(k, v, k);
    forall u | IsMember(db', k, u) ensures Scored(db', k, u) {
      if u != v {
        assert Scored(db, k, u);
      }
    }
  }

  /** An add keeps index and scores in agreement if and only if the member is absent or has the same score. */
  lemma AddKeepsIff(db: Db, k: string, score: int32, v: string)
    requires |k| < NAME_LIMIT && Indexed(db, k)
    ensures Indexed(Add(db, k, score, v), k) <==> (IsMember(db, k, v) ==> ScoreOf(db, k, v) == score)
  {
    hide E32, D32, Decode, ScoreKey, ScorePrefix, MemberKey, IsIndexKey, IsMember, ScoreOf, InIndex, Add, Kept;
    AddStays(db, k, score, v);
    var db', was := Add(db, k, score, v), ScoreOf(db, k, v);
    if IsMember(db, k, v) && was != score {
      MemberInIndex(db, k, v);
      assert InIndex(db', k, was, v);
    }
  }

  lemma MemberInIndex(db: Db, k: string, v: string)
    requires Kept(db, k) && IsMember(db, k, v)
    ensures InIndex(db, k, ScoreOf(db, k, v), v)
  {
    assert Scored(db, k, v);
  }

  lemma RemoveStays(db: Db, k: string, v: string)
    requires |k| < NAME_LIMIT && Kept(db, k) && IsMember(db, k, v)
    ensures var db', score := Remove(db, k, v, ScoreOf(db, k, v)), ScoreOf(db, k, v);
            && Kept(db', k)
            && (forall u :: IsMember(db', k, u) <==> u != v && IsMember(db, k, u))
            && (forall u :: IsMember(db', k, u) ==> ScoreOf(db', k, u) == ScoreOf(db, k, u))
            && (forall s, u :: InIndex(db', k, s, u) <==> !(s == score && u == v) && InIndex(db, k, s, u))
  {
    hide E32, D32, Decode, ScoreKey, ScorePrefix, MemberKey;
    var score := ScoreOf(db, k, v);
    var db' := Remove(db, k, v, score);
    forall u ensures (MemberKey(k, u) == MemberKey(k, v) <==> u == v) && MemberKey(k, u) != ScoreKey(k, v, score) {
      MemberKeys(k, u, k, v);
      MemberOutside(k, u, k);
      ScoreKeyDecodes(k, v, score);
    }
    forall s: int32, u
      ensures (ScoreKey(k, u, s) == ScoreKey(k, v, score) <==> s == score && u == v) &&
                ScoreKey(k, u, s) != MemberKey(k, v)
    {
      ScoreKeys(k, s, u, score, v);
      ScoreKeyDecodes(k, u, s);
      MemberOutside(k, v, k);
    }
    forall u | IsMember(db', k, u) ensures Scored(db', k, u) {
      assert Scored(db, k, u);
    }
  }

  /** So a deletion keeps index and scores in agreement. */
  lemma RemoveKeeps(db: Db, k: string, v: string)
    requires |k| < NAME_LIMIT && Indexed(db, k) && IsMember(db, k, v)
    ensures var db' := Remove(db, k, v, ScoreOf(db, k, v));
            && Indexed(db', k)
            && (forall u :: IsMember(db', k, u) <==> u != v && IsMember(db, k, u))
            && (forall u :: IsMember(db', k, u) ==> ScoreOf(db', k, u) == ScoreOf(db, k, u))
  {
    hide Kept, IsMember, ScoreOf, InIndex, Remove;
    RemoveStays(db, k, v);
  }

  // --------------------------------------------------------------------- clear

  /** All these keys are keys of the index of `k`. */
  predicate IndexKeys(k: string, keys: seq<string>) {
    forall i :: 0 <= i < |keys| ==> IsIndexKey(k, keys[i])
  }

  lemma {:induction false} RemoveAllRemoves(db: Db, k: string, keys: seq<string>)
    requires IndexKeys(k, keys)
    ensures var (db', r) := RemoveAll(db, k, keys);
            && r == Success(())
            && (forall x :: x in db' ==> x in db && db'[x] == db[x])
            && (forall i :: 0 <= i < |keys| ==> keys[i] !in db' && MemberKey(k, Decode(keys[i]).value.1) !in db')
            && (forall x :: x in db && x !in db' ==> x in keys || exists v :: x == MemberKey(k, v))
    decreases |keys|
  {
    hide Decode, ScoreKey, MemberKey;
    if keys != [] {
      var (score, v) := Decode(keys[0]).value;
      var next := Remove(db, k, v, score);
      assert keys[0] == ScoreKey(k, v, score);
      RemoveAllRemoves(next, k, keys[1..]);
      var db' := RemoveAll(db, k, keys).0;
      forall i | 0 <= i < |keys| ensures keys[i] !in db' && MemberKey(k, Decode(keys[i]).value.1) !in db' {
        if i > 0 {
          assert keys[i] == keys[1..][i - 1];
        }
      }
      forall x | x in db && x !in db' ensures x in keys || exists u :: x == MemberKey(k, u) {
        if x in next {
          assert x in keys[1..] ==> x in keys;
        }
      }
    }
  }

  /** A clear succeeds and leaves neither members nor index keys of the sorted set. */
  lemma ClearEmpties(db: Db, k: string)
    requires |k| < NAME_LIMIT && Kept(db, k)
    ensures var (db', r) := Clear(db, k);
            && r == Success(()) && Indexed(db', k)
            && (forall v :: !IsMember(db', k, v)) && forall s, v :: !InIndex(db', k, s, v)
  {
    hide Decode, ScoreKey, ScorePrefix, MemberKey, Below, Least, E32, D32;
    var keys := Scan(db, ScorePrefix(k), ScorePrefix(k));
    ScanKeys(db, k, ScorePrefix(k));
    RemoveAllRemoves(db, k, keys);
    var db' := Clear(db, k).0;
    forall key | key in db && ScorePrefix(k) <= key ensures key in keys && key !in db' {
      NotBelowPrefix(ScorePrefix(k), key);
    }
    forall s: int32, v ensures !InIndex(db', k, s, v) {
      ScoreKeyDecodes(k, v, s);
    }
    forall v | IsMember(db, k, v) ensures !IsMember(db', k, v) {
      assert Scored(db, k, v);
      var key := ScoreKey(k, v, ScoreOf(db, k, v));
      ScoreKeyDecodes(k, v, ScoreOf(db, k, v));
      var i :| 0 <= i < |keys| && keys[i] == key;
      assert MemberKey(k, Decode(keys[i]).value.1) !in db';
    }
  }

  lemma {:induction false} NotBelowPrefix(p: string, key: string)
    requires p <= key
    ensures !Below(key, p)
  {
    if p != "" {
      NotBelowPrefix(p[1..], key[1..]);
    }
  }

  /** A scan of the index: exactly its keys that are not below `from`, in increasing order. */
  lemma ScanKeys(db: Db, k: string, from: string)
    requires Kept(db, k)
    ensures var keys := Scan(db, ScorePrefix(k), from);
            && Increasing(keys) && IndexKeys(k, keys)
            && (forall key :: key in keys <==> key in db && ScorePrefix(k) <= key && !Below(key, from))
  {
    hide Decode, ScoreKey, ScorePrefix, MemberKey, Below, Least, E32, D32, IsIndexKey;
    var found := set key | key in db && ScorePrefix(k) <= key && !Below(key, from);
    AscendingElements(found);
    var keys := Scan(db, ScorePrefix(k), from);
    forall i | 0 <= i < |keys| ensures IsIndexKey(k, keys[i]) {
      assert keys[i] in found;
    }
  }

  // --------------------------------------------------------------------- range

  /** Index keys are ordered by score taken as an unsigned number, and by member within a score. */
  lemma KeyOrder(k: string, v: string, s: int32, v': string, s': int32)
    ensures Below(ScoreKey(k, v, s), ScoreKey(k, v', s')) <==>
            ToUint32(s) < ToUint32(s') || (s == s' && Below(v, v'))
  {
    var p, b, b' := ScorePrefix(k), BE(ToUint32(s), 4), BE(ToUint32(s'), 4);
    Pow256Of8();
    BelowJoin(p, p, b + v, b' + v');
    BelowTotal(p, p);
    BelowJoin(b, b', v, v');
    BelowBE(ToUint32(s), ToUint32(s'), 4);
    BERoundTrip(ToUint32(s), 4);
    BERoundTrip(ToUint32(s'), 4);
  }

  function MemberOf(key: string): string {
    if Decode(key).Some? then Decode(key).value.1 else ""
  }

  function KeyScore(key: string): int32 {
    if Decode(key).Some? then Decode(key).value.0 else 0
  }

  /** How many of the keys come before the first whose score is above `end`. */
  function Count(keys: seq<string>, end: int32): (n: nat)
    ensures n <= |keys|
    ensures forall i :: 0 <= i < n ==> KeyScore(keys[i]) <= end
    ensures n < |keys| ==> KeyScore(keys[n]) > end
  {
    if keys == [] || KeyScore(keys[0]) > end then 0 else 1 + Count(keys[1..], end)
  }

  lemma {:induction false} TakeReads(keys: seq<string>, end: int32)
    requires forall i :: 0 <= i < |keys| ==> Decode(keys[i]).Some?
    ensures Take(keys, end).Success? && |Take(keys, end).value| == Count(keys, end)
    ensures forall i :: 0 <= i < Count(keys, end) ==> Take(keys, end).value[i] == MemberOf(keys[i])
    decreases |keys|
  {
    hide Decode;
    if keys != [] && KeyScore(keys[0]) <= end {
      TakeReads(keys[1..], end);
    }
  }

  lemma FromStart(k: string, v: string, s: int32, start: int32)
    ensures !Below(ScoreKey(k, v, s), ScoreKey(k, "", start)) <==> ToUint32(start) <= ToUint32(s)
  {
    KeyOrder(k, v, s, "", start);
  }

  /** Where the index has an entry: its score and its member. */
  datatype Entry = Entry(score: int32, member: string)

  predicate Before(d: Entry, e: Entry) {
    ToUint32(d.score) < ToUint32(e.score) || (d.score == e.score && Below(d.member, e.member))
  }

  function EntryOf(key: string): Entry {
    Entry(KeyScore(key), MemberOf(key))
  }

  /** The entries that a range comes to, before the first with a score above its end. */
  function Hits(db: Db, k: string, start: int32, end: int32): seq<Entry> {
    var keys := Scan(db, ScorePrefix(k), ScoreKey(k, "", start));
    seq(Count(keys, end), i requires 0 <= i < Count(keys, end) => EntryOf(keys[i]))
  }

  /** The scan from `start` comes to this entry. */
  predicate Scanned(db: Db, k: string, start: int32, e: Entry) {
    InIndex(db, k, e.score, e.member) && ToUint32(start) <= ToUint32(e.score)
  }

  /** It comes to `d` before `e` and stops there. */
  predicate StopsBefore(db: Db, k: string, start: int32, end: int32, d: Entry, e: Entry) {
    Scanned(db, k, start, d) && d.score > end && ToUint32(d.score) < ToUint32(e.score)
  }

  /** A scanned entry with a score that is not above the end, and no such stop before it. */
  ghost predicate Reached(db: Db, k: string, start: int32, end: int32, e: Entry) {
    Scanned(db, k, start, e) && e.score <= end && forall d: Entry :: !StopsBefore(db, k, start, end, d, e)
  }

  /** The keys of a scan are the scanned entries, in order. */
  lemma ScanEntries(db: Db, k: string, start: int32)
    requires |k| < NAME_LIMIT && Kept(db, k)
    ensures var keys := Scan(db, ScorePrefix(k), ScoreKey(k, "", start));
            && (forall i :: 0 <= i < |keys| ==> Scanned(db, k, start, EntryOf(keys[i])))
            && (forall e: Entry :: Scanned(db, k, start, e) ==> exists i :: 0 <= i < |keys| && EntryOf(keys[i]) == e)
            && (forall i, j :: 0 <= i < j < |keys| ==> Before(EntryOf(keys[i]), EntryOf(keys[j])))
  {
    hide Decode, ScoreKey, ScorePrefix, MemberKey, Below, Least, Scan, Kept;
    var keys := Scan(db, ScorePrefix(k), ScoreKey(k, "", start));
    ScanKeys(db, k, ScoreKey(k, "", start));
    forall i | 0 <= i < |keys| ensures Scanned(db, k, start, EntryOf(keys[i])) {
      FromStart(k, MemberOf(keys[i]), KeyScore(keys[i]), start);
      assert keys[i] in keys;
    }
    forall e: Entry | Scanned(db, k, start, e) ensures exists i :: 0 <= i < |keys| && EntryOf(keys[i]) == e {
      ScoreKeyDecodes(k, e.member, e.score);
      FromStart(k, e.member, e.score, start);
      var i :| 0 <= i < |keys| && keys[i] == ScoreKey(k, e.member, e.score);
      assert EntryOf(keys[i]) == e;
    }
    forall i, j | 0 <= i < j < |keys| ensures Before(EntryOf(keys[i]), EntryOf(keys[j])) {
      KeyOrder(k, MemberOf(keys[i]), KeyScore(keys[i]), MemberOf(keys[j]), KeyScore(keys[j]));
    }
  }

  /** The first `n` of the entries are those that no other stops. */
  lemma TakenIff(db: Db, k: string, start: int32, end: int32, es: seq<Entry>, n: nat)
    requires n <= |es|
    requires forall i :: 0 <= i < |es| ==> Scanned(db, k, start, es[i])
    requires forall e: Entry :: Scanned(db, k, start, e) ==> exists i :: 0 <= i < |es| && es[i] == e
    requires forall i, j :: 0 <= i < j < |es| ==> Before(es[i], es[j])
    requires (forall i :: 0 <= i < n ==> es[i].score <= end) && (n < |es| ==> es[n].score > end)
    ensures forall e: Entry :: (exists i :: 0 <= i < n && es[i] == e) <==> Reached(db, k, start, end, e)
  {
    hide Below, InIndex;
    forall e: Entry ensures (exists i :: 0 <= i < n && es[i] == e) <==> Reached(db, k, start, end, e) {
      if Scanned(db, k, start, e) {
        var i :| 0 <= i < |es| && es[i] == e;
        if i < n {
          forall d: Entry ensures !StopsBefore(db, k, start, end, d, e) {
          }
        } else if e.score <= end {
          assert StopsBefore(db, k, start, end, es[n], e);
        }
      }
    }
  }

  /** A range takes the members of the keys before the first whose score is above the end. */
  lemma RangeTakes(db: Db, k: string, start: int32, end: int32)
    requires Kept(db, k)
    ensures var r, hits := Range(db, k, start, end), Hits(db, k, start, end);
            r.Success? && |r.value| == |hits| && forall i :: 0 <= i < |hits| ==> r.value[i] == hits[i].member
  {
    hide Decode, ScoreKey, ScorePrefix, Scan, Kept, MemberOf, KeyScore, Take;
    ScanKeys(db, k, ScoreKey(k, "", start));
    TakeReads(Scan(db, ScorePrefix(k), ScoreKey(k, "", start)), end);
  }

  /**
   * What a range returns, whatever the index holds: the members of the scanned entries, in the order of the index
   * and each entry once, up to the first with a score above the end.
   */
  lemma RangeFinds(db: Db, k: string, start: int32, end: int32)
    requires |k| < NAME_LIMIT && Kept(db, k)
    ensures var r, hits := Range(db, k, start, end), Hits(db, k, start, end);
            && r.Success? && |r.value| == |hits| && (forall i :: 0 <= i < |hits| ==> r.value[i] == hits[i].member)
            && (forall i, j :: 0 <= i < j < |hits| ==> Before(hits[i], hits[j]))
            && (forall e: Entry :: e in hits <==> Reached(db, k, start, end, e))
  {
    hide Range, ScoreKey, ScorePrefix, Scan, Kept, EntryOf, Scanned, Reached, Before;
    RangeTakes(db, k, start, end);
    ScanEntries(db, k, start);
    var keys := Scan(db, ScorePrefix(k), ScoreKey(k, "", start));
    var es := seq(|keys|, i requires 0 <= i < |keys| => EntryOf(keys[i]));
    forall e: Entry | Scanned(db, k, start, e) ensures exists i :: 0 <= i < |es| && es[i] == e {
      var i :| 0 <= i < |keys| && EntryOf(keys[i]) == e;
      assert es[i] == e;
    }
    CountedScores(keys, end);
    TakenIff(db, k, start, end, es, Count(keys, end));
    var hits := Hits(db, k, start, end);
    assert forall i :: 0 <= i < |hits| ==> hits[i] == es[i];
    forall e: Entry ensures e in hits <==> exists i :: 0 <= i < |hits| && es[i] == e {
      if i :| 0 <= i < |hits| && es[i] == e {
        assert hits[i] == e;
      }
    }
  }

  lemma CountedScores(keys: seq<string>, end: int32)
    ensures forall i :: 0 <= i < Count(keys, end) ==> EntryOf(keys[i]).score <= end
    ensures Count(keys, end) < |keys| ==> EntryOf(keys[Count(keys, end)]).score > end
  {
    hide KeyScore;
  }

  /** A second score shows: a range that asks for the first score alone still returns the member. */
  lemma SecondScoreShows(db: Db, k: string, score: int32, v: string)
    requires |k| < NAME_LIMIT && Kept(db, k) && IsMember(db, k, v) && ScoreOf(db, k, v) != score
    ensures var db', was := Add(db, k, score, v), ScoreOf(db, k, v);
            var r := Range(db', k, was, was);
            r.Success? && v in r.value && IsMember(db', k, v) && ScoreOf(db', k, v) == score
  {
    hide Kept, IsMember, ScoreOf, InIndex, Add, Range, Hits;
    var db', was := Add(db, k, score, v), ScoreOf(db, k, v);
    AddStays(db, k, score, v);
    MemberInIndex(db, k, v);
    RangeFinds(db', k, was, was);
    assert Reached(db', k, was, was, Entry(was, v));
    var i :| 0 <= i < |Hits(db', k, was, was)| && Hits(db', k, was, was)[i] == Entry(was, v);
    assert Range(db', k, was, was).value[i] == v;
  }

  // -------------------------------------------------------------- right ranges

  /** A range is right if it returns exactly the members it asks for, each once, by score and then by bytes. */
  ghost predicate RangeRight(db: Db, k: string, start: int32, end: int32) {
    var r := Range(db, k, start, end);
    && r.Success?
    && (forall v :: v in r.value <==> IsMember(db, k, v) && start <= ScoreOf(db, k, v) <= end)
    && forall i, j :: 0 <= i < j < |r.value| ==>
         || ScoreOf(db, k, r.value[i]) < ScoreOf(db, k, r.value[j])
         || (ScoreOf(db, k, r.value[i]) == ScoreOf(db, k, r.value[j]) && Below(r.value[i], r.value[j]))
  }

  /** Some member has a score from `lo` to `hi`. */
  ghost predicate AnyIn(db: Db, k: string, lo: int, hi: int) {
    exists v :: IsMember(db, k, v) && lo <= ScoreOf(db, k, v) <= hi
  }

  /** From an index in agreement, a range returns the reached members, in order. */
  lemma RangeMembers(db: Db, k: string, start: int32, end: int32)
    requires |k| < NAME_LIMIT && Indexed(db, k)
    ensures var r := Range(db, k, start, end);
            && r.Success?
            && (forall v :: v in r.value <==>
                 IsMember(db, k, v) && Reached(db, k, start, end, Entry(ScoreOf(db, k, v), v)))
            && (forall i, j :: 0 <= i < j < |r.value| ==>
                  Before(Entry(ScoreOf(db, k, r.value[i]), r.value[i]), Entry(ScoreOf(db, k, r.value[j]), r.value[j])))
  {
    hide Range, Hits, Kept, IsMember, ScoreOf, InIndex, Before, Reached;
    RangeFinds(db, k, start, end);
    var vs, hits := Range(db, k, start, end).value, Hits(db, k, start, end);
    forall e: Entry | Reached(db, k, start, end, e)
      ensures IsMember(db, k, e.member) && ScoreOf(db, k, e.member) == e.score
    {
      ReachedInIndex(db, k, start, end, e);
    }
    forall i | 0 <= i < |hits| ensures hits[i] == Entry(ScoreOf(db, k, vs[i]), vs[i]) && IsMember(db, k, vs[i]) {
      assert hits[i] in hits;
    }
    forall v ensures v in vs <==> IsMember(db, k, v) && Reached(db, k, start, end, Entry(ScoreOf(db, k, v), v)) {
      if IsMember(db, k, v) && Reached(db, k, start, end, Entry(ScoreOf(db, k, v), v)) {
        var i :| 0 <= i < |hits| && hits[i] == Entry(ScoreOf(db, k, v), v);
        assert vs[i] == v;
      }
    }
  }

  lemma ReachedInIndex(db: Db, k: string, start: int32, end: int32, e: Entry)
    requires Reached(db, k, start, end, e)
    ensures InIndex(db, k, e.score, e.member)
  {
  }

  lemma ReachedFromZero(db: Db, k: string, start: int32, end: int32, v: string)
    requires start >= 0 && Indexed(db, k) && IsMember(db, k, v)
    ensures Reached(db, k, start, end, Entry(ScoreOf(db, k, v), v)) <==>
            && ScoreOf(db, k, v) <= end
            && if ScoreOf(db, k, v) >= 0 then start <= ScoreOf(db, k, v)
               else !AnyIn(db, k, if start > end then start else end + 1, 0x7fff_ffff)
  {
    MemberInIndex(db, k, v);
    hide IsMember, ScoreOf, InIndex;
    var s, lo := ScoreOf(db, k, v), if start > end then start else end + 1;
    if s <= end && s < 0 && AnyIn(db, k, lo, 0x7fff_ffff) {
      var u :| IsMember(db, k, u) && lo <= ScoreOf(db, k, u) <= 0x7fff_ffff;
      MemberInIndex(db, k, u);
      assert StopsBefore(db, k, start, end, Entry(ScoreOf(db, k, u), u), Entry(s, v));
    }
  }

  lemma ReachedFromBelow(db: Db, k: string, start: int32, end: int32, v: string)
    requires start < 0 && Indexed(db, k) && IsMember(db, k, v)
    ensures Reached(db, k, start, end, Entry(ScoreOf(db, k, v), v)) <==>
            start <= ScoreOf(db, k, v) < 0 && ScoreOf(db, k, v) <= end
  {
    MemberInIndex(db, k, v);
    hide IsMember, ScoreOf, InIndex, Kept;
  }

  /**
   * Scores are stored as unsigned numbers, so negative ones come last. A range is right if and only if it starts
   * below zero and asks for no member that is not negative, or starts at zero or above and either some member
   * beyond its end stops it, or no negative member is left to return.
   */
  lemma RangeRightIff(db: Db, k: string, start: int32, end: int32)
    requires |k| < NAME_LIMIT && Indexed(db, k)
    ensures RangeRight(db, k, start, end) <==>
            if start < 0 then !AnyIn(db, k, 0, end)
            else
              || AnyIn(db, k, if start > end then start else end + 1, 0x7fff_ffff)
              || !AnyIn(db, k, -0x8000_0000, if end < 0 then end else -1)
  {
    hide Range, IsMember, ScoreOf, Below, Indexed, Reached;
    RangeMembers(db, k, start, end);
    var vs := Range(db, k, start, end).value;
    forall v
      ensures v in vs <==>
              if start < 0 then IsMember(db, k, v) && start <= ScoreOf(db, k, v) < 0 && ScoreOf(db, k, v) <= end
              else
                && IsMember(db, k, v) && ScoreOf(db, k, v) <= end
                && if ScoreOf(db, k, v) >= 0 then start <= ScoreOf(db, k, v)
                   else !AnyIn(db, k, if start > end then start else end + 1, 0x7fff_ffff)
    {
      if IsMember(db, k, v) {
        if start < 0 {
          ReachedFromBelow(db, k, start, end, v);
        } else {
          ReachedFromZero(db, k, start, end, v);
        }
      }
    }
  }
}
