/** The flat ordered key-value store below the containers, and the order of its keys. */
module KeyValue {
  import opened Bytes

  type Db = map<string, string>

  /** What a container operation fails with; a loop that never ends counts as one such outcome. */
  datatype StoreError = NotExist | OutOfSize | Panic | NeverEnds

  /** The byte order of keys. */
  predicate Below(a: string, b: string) {
    if a == "" then b != ""
    else b != "" && (a[0] < b[0] || (a[0] == b[0] && Below(a[1..], b[1..])))
  }

  lemma {:induction false} BelowTotal(a: string, b: string)
    ensures !(Below(a, b) && Below(b, a)) && !Below(a, a)
    ensures a == b || Below(a, b) || Below(b, a)
  {
    if a != "" && b != "" {
      BelowTotal(a[1..], b[1..]);
      if a[0] == b[0] && a[1..] == b[1..] {
        assert a == [a[0]] + a[1..] && b == [b[0]] + b[1..];
      }
    }
    if a != "" {
      BelowTotal(a[1..], a[1..]);
    }
  }

  lemma {:induction false} BelowTransitive(a: string, b: string, c: string)
    requires Below(a, b) && Below(b, c)
    ensures Below(a, c)
  {
    if a != "" && a[0] == b[0] == c[0] {
      BelowTransitive(a[1..], b[1..], c[1..]);
    }
  }

  /** Keys of a common length are compared first, what follows them afterwards. */
  lemma {:induction false} BelowJoin(x: string, y: string, a: string, b: string)
    requires |x| == |y|
    ensures Below(x + a, y + b) <==> Below(x, y) || (x == y && Below(a, b))
  {
    if x == "" {
      assert x + a == a && y + b == b;
    } else {
      assert (x + a)[1..] == x[1..] + a && (y + b)[1..] == y[1..] + b;
      BelowJoin(x[1..], y[1..], a, b);
      assert x == [x[0]] + x[1..] && y == [y[0]] + y[1..];
    }
  }

  lemma DigitOrder(n: nat, m: nat)
    ensures n < m <==> n / 256 < m / 256 || (n / 256 == m / 256 && n % 256 < m % 256)
  {
  }

  /** Big-endian numbers are ordered as the numbers are. */
  lemma {:induction false} BelowBE(n: nat, m: nat, w: nat)
    requires n < Pow256(w) && m < Pow256(w)
    ensures Below(BE(n, w), BE(m, w)) <==> n < m
  {
    if w > 0 {
      BelowBE(n / 256, m / 256, w - 1);
      BelowJoin(BE(n / 256, w - 1), BE(m / 256, w - 1), [(n % 256) as char], [(m % 256) as char]);
      BERoundTrip(n / 256, w - 1);
      BERoundTrip(m / 256, w - 1);
      DigitOrder(n, m);
      hide Below, FromBE;
    }
  }

  // --------------------------------------------------------------------- scans

  predicate IsLeast(m: string, keys: set<string>) {
    m in keys && forall k :: k in keys ==> k == m || Below(m, k)
  }

  lemma {:induction false} LeastExists(keys: set<string>) returns (m: string)
    requires keys != {}
    ensures IsLeast(m, keys)
  {
    var x :| x in keys;
    if keys == {x} {
      m := x;
    } else {
      var rest := LeastExists(keys - {x});
      BelowTotal(x, rest);
      m := if Below(x, rest) then x else rest;
      forall k | k in keys ensures k == m || Below(m, k) {
        if m == x && k != x && k != rest {
          BelowTransitive(x, rest, k);
        }
      }
    }
  }

  lemma LeastUnique(keys: set<string>)
    requires keys != {}
    ensures exists m :: IsLeast(m, keys)
    ensures forall m, m' :: IsLeast(m, keys) && IsLeast(m', keys) ==> m == m'
  {
    var least := LeastExists(keys);
    forall m, m' | IsLeast(m, keys) && IsLeast(m', keys) ensures m == m' {
      BelowTotal(m, m');
    }
  }

  function Least(keys: set<string>): (m: string)
    requires keys != {}
    ensures IsLeast(m, keys)
  {
    LeastUnique(keys);
    var m :| m in keys && IsLeast(m, keys);
    m
  }

  function Ascending(keys: set<string>): seq<string>
    decreases |keys|
  {
    if keys == {} then [] else [Least(keys)] + Ascending(keys - {Least(keys)})
  }

  /** What an iterator with a prefix visits, from a key on. */
  function Scan(db: Db, prefix: string, from: string): seq<string> {
    Ascending(set key | key in db && prefix <= key && !Below(key, from))
  }

  predicate Increasing(s: seq<string>) {
    forall i, j :: 0 <= i < j < |s| ==> Below(s[i], s[j])
  }

  lemma {:induction false} AscendingElements(keys: set<string>)
    ensures forall k :: k in keys <==> k in Ascending(keys)
    ensures Increasing(Ascending(keys))
    decreases |keys|
  {
    if keys != {} {
      AscendingElements(keys - {Least(keys)});
    }
  }
}
