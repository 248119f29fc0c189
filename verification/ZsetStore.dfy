/** The sorted-set operations as the source runs them, inside one store transaction. */
module ZsetStore {
  import opened Wrappers
  import opened KeyValue
  import opened ZsetSpec
  import opened ZsetProofs

  class ZsetTxn {
    var db: Db

    constructor (db: Db)
      ensures this.db == db
    {
      this.db := db;
    }

    method Zadd(k: string, score: int32, v: string)
      modifies this
      ensures |k| < NAME_LIMIT && old(Kept(db, k)) ==>
          && Kept(db, k)
          && (forall u :: IsMember(db, k, u) <==> u == v || old(IsMember(db, k, u)))
          && (forall u :: ScoreOf(db, k, u) == if u == v then score else old(ScoreOf(db, k, u)))
      ensures |k| < NAME_LIMIT && old(Indexed(db, k)) ==>
          (Indexed(db, k) <==> old(IsMember(db, k, v) ==> ScoreOf(db, k, v) == score))
      ensures db == Add(old(db), k, score, v)
    {
      hide Kept, IsMember, ScoreOf, InIndex;
      if |k| < NAME_LIMIT && Kept(db, k) {
        AddStays(db, k, score, v);
        if Indexed(db, k) {
          AddKeepsIff(db, k, score, v);
        }
      }
      hide Indexed;
      db := db[MemberKey(k, v) := E32(score)];
      db := db[ScoreKey(k, v, score) := ""];
    }

    method Zscore(k: string, v: string) returns (score: Result<int32, StoreError>)
      ensures score == if IsMember(db, k, v) then Success(ScoreOf(db, k, v)) else Failure(NotExist)
    {
      if MemberKey(k, v) !in db {
        return Failure(NotExist);
      }
      return Success(D32(db[MemberKey(k, v)]));
    }

    method Zdel(k: string, v: string) returns (r: Result<(), StoreError>)
      modifies this
      ensures r == if old(IsMember(db, k, v)) then Success(()) else Failure(NotExist)
      ensures |k| < NAME_LIMIT && old(Kept(db, k)) ==>
          && Kept(db, k)
          && (forall u :: IsMember(db, k, u) <==> u != v && old(IsMember(db, k, u)))
          && (forall u :: IsMember(db, k, u) ==> ScoreOf(db, k, u) == old(ScoreOf(db, k, u)))
      ensures |k| < NAME_LIMIT && old(Indexed(db, k)) ==> Indexed(db, k)
      ensures (db, r) == Del(old(db), k, v)
    {
      hide Kept, D32, E32, MemberKey, ScoreKey, InIndex;
      if |k| < NAME_LIMIT && Kept(db, k) && IsMember(db, k, v) {
        RemoveStays(db, k, v);
        if Indexed(db, k) {
          RemoveKeeps(db, k, v);
        }
      }
      hide Indexed;
      var key := MemberKey(k, v);
      if key !in db {
        return Failure(NotExist);
      }
      var buf := db[key];
      db := db - {key};
      db := db - {ScoreKey(k, v, D32(buf))};
      return Success(());
    }

    /** The iterator goes over the keys as they were when it was made. */
    method Zclear(k: string) returns (r: Result<(), StoreError>)
      modifies this
      ensures (db, r) == Clear(old(db), k)
    {
      hide Decode, Remove;
      var prefix := ScorePrefix(k);
      var keys := Scan(db, prefix, prefix);
      var i := 0;
      while i < |keys|
        invariant i <= |keys| && RemoveAll(db, k, keys[i..]) == Clear(old(db), k)
      {
        var item := Decode(keys[i]);
        assert keys[i..][0] == keys[i] && keys[i..][1..] == keys[i + 1..];
        if item.None? {
          return Failure(Panic);
        }
        var (score, v) := item.value;
        RemoveOne(k, v, score);
        i := i + 1;
      }
      return Success(());
    }

    method RemoveOne(k: string, v: string, score: int32)
      modifies this
      ensures db == Remove(old(db), k, v, score)
    {
      db := db - {MemberKey(k, v)};
      db := db - {ScoreKey(k, v, score)};
    }

    method Zrange(k: string, start: int32, end: int32) returns (vs: Result<seq<string>, StoreError>)
      ensures vs == Range(db, k, start, end)
    {
      hide Decode, Scan;
      var keys := Scan(db, ScorePrefix(k), ScoreKey(k, "", start));
      var found: seq<string> := [];
      var i := 0;
      assert keys[0..] == keys;
      PrependNone(Take(keys, end));
      while i < |keys|
        invariant i <= |keys| && Take(keys, end) == Prepend(found, Take(keys[i..], end))
      {
        var item := Decode(keys[i]);
        assert keys[i..][0] == keys[i] && keys[i..][1..] == keys[i + 1..];
        if item.None? {
          return Failure(Panic);
        }
        var (score, v) := item.value;
        if score > end {
          assert found + [] == found;
          return Success(found);
        }
        PrependOne(found, v, Take(keys[i + 1..], end));
        found := found + [v];
        i := i + 1;
      }
      assert found + [] == found;
      return Success(found);
    }
  }

  /** A result, behind elements found before it. */
  function Prepend(found: seq<string>, r: Result<seq<string>, StoreError>): Result<seq<string>, StoreError> {
    if r.Failure? then r else Success(found + r.value)
  }

  lemma PrependNone(r: Result<seq<string>, StoreError>)
    ensures Prepend([], r) == r
  {
    if r.Success? {
      assert [] + r.value == r.value;
    }
  }

  lemma PrependOne(found: seq<string>, v: string, r: Result<seq<string>, StoreError>)
    ensures Prepend(found, Prepend([v], r)) == Prepend(found + [v], r)
  {
    if r.Success? {
      assert found + ([v] + r.value) == found + [v] + r.value;
    }
  }
}
