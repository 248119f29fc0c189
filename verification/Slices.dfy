/**
 * Sorting with a queue of ranges, and searching what was sorted. The sort asks for `lt` and for `ge`, which need
 * not be opposites.
 */
module Slices {
  type Less<!T> = (T, T) -> bool

  /** On these elements, `lt` is irreflexive and transitive. */
  ghost predicate StrictOrder<T(!new)>(lt: Less<T>, dom: iset<T>) {
    && (forall a :: a in dom ==> !lt(a, a))
    && (forall a, b, c :: a in dom && b in dom && c in dom && lt(a, b) && lt(b, c) ==> lt(a, c))
  }

  /** Elements that are not below one another are interchangeable. */
  ghost predicate TotalOrder<T(!new)>(lt: Less<T>, dom: iset<T>) {
    && StrictOrder(lt, dom)
    && forall a, b, c :: a in dom && b in dom && c in dom && lt(a, c) ==> lt(a, b) || lt(b, c)
  }

  ghost predicate Sorted<T(!new)>(lt: Less<T>, s: seq<T>) {
    forall i, j :: 0 <= i < j < |s| ==> !lt(s[j], s[i])
  }

  /** Of any two elements, one comparison holds just if the other does not. */
  ghost predicate Opposite<T(!new)>(lt: Less<T>, ge: Less<T>, dom: iset<T>) {
    forall a, b :: a in dom && b in dom ==> ge(a, b) == !lt(a, b)
  }

  ghost predicate Sortable<T(!new)>(lt: Less<T>, ge: Less<T>, dom: iset<T>) {
    StrictOrder(lt, dom) && Opposite(lt, ge, dom)
  }

  ghost function Elements<T(!new)>(s: seq<T>): (e: iset<T>)
  {
    iset x | x in s
  }

  // -------------------------------------------------------------------- filter

  function Keep<T>(f: T -> bool, xs: seq<T>): seq<T> {
    if xs == [] then [] else (if f(xs[0]) then [xs[0]] else []) + Keep(f, xs[1..])
  }

  method Filter<T>(f: T -> bool, xs: seq<T>) returns (rs: seq<T>)
    ensures rs == Keep(f, xs)
  {
    rs := [];
    var left := xs;
    while left != []
      invariant rs + Keep(f, left) == Keep(f, xs)
      decreases |left|
    {
      var rest := Keep(f, left[1..]);
      if f(left[0]) {
        assert rs + ([left[0]] + rest) == rs + [left[0]] + rest;
        rs := rs + [left[0]];
      } else {
        assert [] + rest == rest;
      }
      left := left[1..];
    }
    assert rs + [] == rs;
  }

  lemma {:induction false} KeepMembers<T>(f: T -> bool, xs: seq<T>)
    ensures forall x :: x in Keep(f, xs) <==> x in xs && f(x)
    ensures |Keep(f, xs)| <= |xs|
  {
    if xs != [] {
      KeepMembers(f, xs[1..]);
      assert xs == [xs[0]] + xs[1..];
    }
  }

  /** A filter and its opposite share the elements out between them. */
  lemma {:induction false} KeepBoth<T>(f: T -> bool, g: T -> bool, xs: seq<T>)
    requires forall x :: x in xs ==> f(x) == !g(x)
    ensures multiset(Keep(f, xs)) + multiset(Keep(g, xs)) == multiset(xs)
    ensures |Keep(f, xs)| + |Keep(g, xs)| == |xs|
  {
    if xs != [] {
      KeepBoth(f, g, xs[1..]);
      assert xs == [xs[0]] + xs[1..];
    }
  }

  // ----------------------------------------------------------------- partition

  function Lower<T>(lt: Less<T>, s: seq<T>): seq<T>
    requires s != []
  {
    Keep(x => lt(x, s[0]), s[1..])
  }

  function Upper<T>(ge: Less<T>, s: seq<T>): seq<T>
    requires s != []
  {
    Keep(x => ge(x, s[0]), s[1..])
  }

  /** How many of those not below the first element there is room for behind it. */
  function Fitting<T>(lt: Less<T>, ge: Less<T>, s: seq<T>): (n: nat)
    requires s != []
    ensures |Lower(lt, s)| + 1 + n <= |s| && n <= |Upper(ge, s)|
  {
    KeepMembers(x => lt(x, s[0]), s[1..]);
    var room := |s| - 1 - |Lower(lt, s)|;
    if |Upper(ge, s)| <= room then |Upper(ge, s)| else room
  }

  /** A stretch with its first element moved between those below it and the others; behind these, what was there. */
  function Partition<T>(lt: Less<T>, ge: Less<T>, s: seq<T>): (p: seq<T>)
    requires s != []
    ensures |p| == |s|
  {
    var n := Fitting(lt, ge, s);
    Lower(lt, s) + [s[0]] + Upper(ge, s)[..n] + s[|Lower(lt, s)| + 1 + n..]
  }

  /** With opposite comparisons, it is those below, the first element, and all others. */
  lemma PartitionForm<T(!new)>(lt: Less<T>, ge: Less<T>, s: seq<T>)
    requires s != [] && Opposite(lt, ge, Elements(s))
    ensures |Lower(lt, s)| + 1 + |Upper(ge, s)| == |s| && Fitting(lt, ge, s) == |Upper(ge, s)|
    ensures Partition(lt, ge, s) == Lower(lt, s) + [s[0]] + Upper(ge, s)
  {
    KeepBoth(x => lt(x, s[0]), x => ge(x, s[0]), s[1..]);
  }

  lemma PartitionPermutes<T(!new)>(lt: Less<T>, ge: Less<T>, s: seq<T>)
    requires s != [] && Opposite(lt, ge, Elements(s))
    ensures multiset(Partition(lt, ge, s)) == multiset(s)
  {
    PartitionForm(lt, ge, s);
    KeepBoth(x => lt(x, s[0]), x => ge(x, s[0]), s[1..]);
    assert s == [s[0]] + s[1..];
  }

  /** Across the pivot, the elements of a partition are in order. */
  lemma PartitionOrders<T(!new)>(lt: Less<T>, ge: Less<T>, s: seq<T>, i: nat, j: nat)
    requires s != [] && Sortable(lt, ge, Elements(s))
    requires i < j < |s| && i <= |Lower(lt, s)| <= j
    ensures !lt(Partition(lt, ge, s)[j], Partition(lt, ge, s)[i])
  {
    PartitionForm(lt, ge, s);
    var p, n := Partition(lt, ge, s), |Lower(lt, s)|;
    KeepMembers(x => lt(x, s[0]), s[1..]);
    KeepMembers(x => ge(x, s[0]), s[1..]);
    assert i < n ==> p[i] in Lower(lt, s);
    assert j > n ==> p[j] in Upper(ge, s);
  }

  // --------------------------------------------------------------------- queue

  datatype Range = Range(x: int, y: int)

  predicate Covers(r: Range, i: int) {
    r.x <= i <= r.y
  }

  /** The ranges lie within a sequence of length `n`, and no two of them cover the same position. */
  ghost predicate Queue(q: seq<Range>, n: nat) {
    && (forall k :: 0 <= k < |q| ==> 0 <= q[k].x && q[k].y < n && q[k].x <= q[k].y + 1)
    && (forall k, l, i :: 0 <= k < l < |q| && Covers(q[k], i) ==> !Covers(q[l], i))
  }

  predicate Share(q: seq<Range>, i: int, j: int) {
    exists k :: 0 <= k < |q| && Covers(q[k], i) && Covers(q[k], j)
  }

  /** Positions that share no range are in order. */
  ghost predicate Ordered<T(!new)>(lt: Less<T>, s: seq<T>, q: seq<Range>) {
    forall i, j :: 0 <= i < j < |s| ==> Share(q, i, j) || !lt(s[j], s[i])
  }

  function Weight(q: seq<Range>): nat {
    if q == [] then 0 else WeightOf(q[0]) + Weight(q[1..])
  }

  function WeightOf(r: Range): nat {
    if r.x <= r.y then 2 * (r.y - r.x + 1) + 1 else 1
  }

  lemma {:induction false} WeightOfBoth(p: seq<Range>, q: seq<Range>)
    ensures Weight(p + q) == Weight(p) + Weight(q)
  {
    if p == [] {
      assert p + q == q;
    } else {
      assert (p + q)[1..] == p[1..] + q;
      WeightOfBoth(p[1..], q);
    }
  }

  /** The ranges that a range leaves to sort, with `lower` elements in front of the pivot and perhaps some behind. */
  function Parts(x: int, y: int, lower: nat, behind: bool): seq<Range> {
    (if lower != 0 then [Range(x, x + lower - 1)] else []) + (if behind then [Range(x + lower + 1, y)] else [])
  }

  function Replaced<T>(s: seq<T>, x: int, y: int, p: seq<T>): (r: seq<T>)
    requires 0 <= x <= y < |s| && |p| == y + 1 - x
    ensures |r| == |s| && forall i :: 0 <= i < |s| ==> r[i] == if x <= i <= y then p[i - x] else s[i]
  {
    s[..x] + p + s[y + 1..]
  }

  lemma PartsWeight(x: int, y: int, lower: nat, behind: bool, rest: seq<Range>)
    requires x < y && x + lower <= y
    ensures Weight(rest + Parts(x, y, lower, behind)) < Weight([Range(x, y)] + rest)
  {
    WeightOfBoth(rest, Parts(x, y, lower, behind));
    WeightOfBoth([Range(x, y)], rest);
    WeightOfOne(Range(x, y));
    WeightOfOne(Range(x, x + lower - 1));
    WeightOfOne(Range(x + lower + 1, y));
    WeightOfBoth(if lower != 0 then [Range(x, x + lower - 1)] else [],
                 if behind then [Range(x + lower + 1, y)] else []);
  }

  lemma WeightOfOne(r: Range)
    ensures Weight([r]) == WeightOf(r)
  {
    assert [r][1..] == [];
  }

  /** The parts cover the positions of the range but for the pivot, each once. */
  lemma PartsCover(x: int, y: int, lower: nat, i: int)
    requires 0 <= x < y && x + lower <= y
    ensures var parts := Parts(x, y, lower, x + lower < y);
            && (forall k :: 0 <= k < |parts| && Covers(parts[k], i) ==> x <= i <= y && i != x + lower)
            && (forall k, l :: 0 <= k < l < |parts| && Covers(parts[k], i) ==> !Covers(parts[l], i))
            && (x <= i < x + lower ==> Covers(parts[0], i) && parts[0] == Range(x, x + lower - 1))
            && (x + lower < i <= y ==> parts != [] && parts[|parts| - 1] == Range(x + lower + 1, y))
  {
  }

  lemma TailQueue(q: seq<Range>, n: nat)
    requires Queue(q, n) && q != []
    ensures Queue(q[1..], n) && 0 <= q[0].x && q[0].y < n
    ensures forall k, i :: 0 <= k < |q[1..]| && Covers(q[0], i) ==> !Covers(q[1..][k], i)
  {
    forall k, l, i | 0 <= k < l < |q[1..]| && Covers(q[1..][k], i) ensures !Covers(q[1..][l], i) {
      assert Covers(q[k + 1], i);
    }
  }

  lemma PartsQueue(rest: seq<Range>, x: int, y: int, lower: nat, n: nat)
    requires Queue(rest, n) && 0 <= x < y < n && x + lower <= y
    requires forall k, i :: 0 <= k < |rest| && Covers(Range(x, y), i) ==> !Covers(rest[k], i)
    ensures Queue(rest + Parts(x, y, lower, x + lower < y), n)
  {
    var parts := Parts(x, y, lower, x + lower < y);
    var q := rest + parts;
    forall k, l, i | 0 <= k < l < |q| && Covers(q[k], i) ensures !Covers(q[l], i) {
      PartsCover(x, y, lower, i);
      if l >= |rest| {
        assert q[l] == parts[l - |rest|];
        if k >= |rest| {
          assert q[k] == parts[k - |rest|];
        } else {
          assert Covers(Range(x, y), i) ==> !Covers(rest[k], i);
        }
      }
    }
  }

  lemma ShareGrows(p: seq<Range>, q: seq<Range>, i: int, j: int)
    ensures Share(p, i, j) || Share(q, i, j) ==> Share(p + q, i, j)
  {
    if Share(p, i, j) {
      var k :| 0 <= k < |p| && Covers(p[k], i) && Covers(p[k], j);
      assert (p + q)[k] == p[k];
    } else if Share(q, i, j) {
      var k :| 0 <= k < |q| && Covers(q[k], i) && Covers(q[k], j);
      assert (p + q)[|p| + k] == q[k];
    }
  }

  /** Two positions on the same side of the pivot share a part. */
  lemma PartsShare(x: int, y: int, lower: nat, i: int, j: int)
    requires 0 <= x < y && x + lower <= y
    requires (x <= i && j < x + lower && i < j) || (x + lower < i && j <= y && i < j)
    ensures Share(Parts(x, y, lower, x + lower < y), i, j)
  {
    PartsCover(x, y, lower, i);
    PartsCover(x, y, lower, j);
    var parts := Parts(x, y, lower, x + lower < y);
    if j < x + lower {
      assert Covers(parts[0], i) && Covers(parts[0], j);
    } else {
      assert Covers(parts[|parts| - 1], i) && Covers(parts[|parts| - 1], j);
    }
  }

  /** Positions that do not share the first range of the queue share one of the others, if any. */
  lemma TailShares(q: seq<Range>, i: int, j: int)
    requires q != [] && !(Covers(q[0], i) && Covers(q[0], j))
    ensures Share(q, i, j) ==> Share(q[1..], i, j)
  {
    if Share(q, i, j) {
      var k :| 0 <= k < |q| && Covers(q[k], i) && Covers(q[k], j);
      assert q[1..][k - 1] == q[k];
    }
  }

  /** What one round on the range from `x` to `y` makes of a sequence. */
  function Rearranged<T>(lt: Less<T>, ge: Less<T>, s: seq<T>, x: int, y: int): (r: seq<T>)
    requires 0 <= x < y < |s|
    ensures |r| == |s|
  {
    Replaced(s, x, y, Partition(lt, ge, s[x..y + 1]))
  }

  /** The ranges that it queues. */
  function Queued<T>(lt: Less<T>, ge: Less<T>, s: seq<T>, x: int, y: int): (q: seq<Range>)
    requires 0 <= x < y < |s|
  {
    Parts(x, y, |Lower(lt, s[x..y + 1])|, Upper(ge, s[x..y + 1]) != [])
  }

  /** Partitioning the first range of the queue keeps everything outside its parts in order. */
  lemma StepOrders<T(!new)>(lt: Less<T>, ge: Less<T>, s: seq<T>, q: seq<Range>, x: int, y: int)
    requires Sortable(lt, ge, Elements(s)) && Queue(q, |s|) && Ordered(lt, s, q)
    requires q != [] && q[0] == Range(x, y) && 0 <= x < y < |s|
    ensures Ordered(lt, Rearranged(lt, ge, s, x, y), q[1..] + Queued(lt, ge, s, x, y))
  {
    QueuedForm(lt, ge, s, x, y);
    var s', q' := Rearranged(lt, ge, s, x, y), q[1..] + Queued(lt, ge, s, x, y);
    forall i, j | 0 <= i < j < |s'| && !Share(q', i, j) ensures !lt(s'[j], s'[i]) {
      PairOrdered(lt, ge, s, q, x, y, i, j);
    }
  }

  lemma PieceSortable<T(!new)>(lt: Less<T>, ge: Less<T>, s: seq<T>, x: int, y: int)
    requires 0 <= x < y < |s|
    ensures Opposite(lt, ge, Elements(s)) ==> Opposite(lt, ge, Elements(s[x..y + 1]))
    ensures StrictOrder(lt, Elements(s)) ==> StrictOrder(lt, Elements(s[x..y + 1]))
  {
    assert forall e :: e in s[x..y + 1] ==> e in s;
  }

  lemma QueuedForm<T(!new)>(lt: Less<T>, ge: Less<T>, s: seq<T>, x: int, y: int)
    requires Opposite(lt, ge, Elements(s)) && 0 <= x < y < |s|
    ensures var lower := |Lower(lt, s[x..y + 1])|;
            x + lower <= y && Queued(lt, ge, s, x, y) == Parts(x, y, lower, x + lower < y)
  {
    PieceSortable(lt, ge, s, x, y);
    PartitionForm(lt, ge, s[x..y + 1]);
  }

  lemma PairOrdered<T(!new)>(lt: Less<T>, ge: Less<T>, s: seq<T>, q: seq<Range>, x: int, y: int, i: int, j: int)
    requires Sortable(lt, ge, Elements(s)) && Queue(q, |s|) && Ordered(lt, s, q)
    requires q != [] && q[0] == Range(x, y) && 0 <= x < y < |s| && 0 <= i < j < |s|
    requires !Share(q[1..] + Queued(lt, ge, s, x, y), i, j)
    ensures var s' := Rearranged(lt, ge, s, x, y); !lt(s'[j], s'[i])
  {
    hide Partition;
    var piece := s[x..y + 1];
    var lower := |Lower(lt, piece)|;
    QueuedForm(lt, ge, s, x, y);
    PieceSortable(lt, ge, s, x, y);
    ShareGrows(q[1..], Parts(x, y, lower, x + lower < y), i, j);
    if Covers(q[0], i) && Covers(q[0], j) {
      if i <= x + lower <= j {
        PartitionOrders(lt, ge, piece, i - x, j - x);
      } else {
        PartsShare(x, y, lower, i, j);
      }
    } else if Covers(q[0], i) {
      var i' := Origin(lt, ge, s, x, y, i);
    } else if Covers(q[0], j) {
      var j' := Origin(lt, ge, s, x, y, j);
    } else {
      TailShares(q, i, j);
    }
  }

  /** Where an element of a partition was before. */
  lemma Origin<T(!new)>(lt: Less<T>, ge: Less<T>, s: seq<T>, x: int, y: int, i: int) returns (k: int)
    requires 0 <= x <= i <= y < |s| && x < y && Opposite(lt, ge, Elements(s))
    ensures x <= k <= y && s[k] == Partition(lt, ge, s[x..y + 1])[i - x]
  {
    hide Partition;
    var piece := s[x..y + 1];
    PieceSortable(lt, ge, s, x, y);
    PartitionPermutes(lt, ge, piece);
    var e := Partition(lt, ge, piece)[i - x];
    assert e in multiset(Partition(lt, ge, piece));
    assert e in piece;
    var m :| 0 <= m < |piece| && piece[m] == e;
    k := x + m;
  }

  lemma ReplacedPermutes<T>(s: seq<T>, x: int, y: int, p: seq<T>)
    requires 0 <= x <= y < |s| && |p| == y + 1 - x && multiset(p) == multiset(s[x..y + 1])
    ensures multiset(Replaced(s, x, y, p)) == multiset(s)
  {
    assert s == s[..x] + s[x..y + 1] + s[y + 1..];
    assert Replaced(s, x, y, p) == s[..x] + p + s[y + 1..];
  }

  // ---------------------------------------------------------------------- sort

  /** Copies a list into a stretch of an array. */
  method CopyInto<T>(ys: array<T>, at: nat, from: seq<T>)
    requires at + |from| <= ys.Length
    modifies ys
    ensures forall j :: 0 <= j < ys.Length ==> ys[j] == if at <= j < at + |from| then from[j - at] else old(ys[j])
  {
    for i := 0 to |from|
      invariant forall j :: 0 <= j < ys.Length ==> ys[j] == if at <= j < at + i then from[j - at] else old(ys[j])
    {
      ys[at + i] := from[i];
    }
  }

  /** What a round writes, and what it queues, piece by piece. */
  lemma RoundForm<T>(lt: Less<T>, ge: Less<T>, s: seq<T>, x: int, y: int)
    requires 0 <= x < y < |s|
    ensures var piece := s[x..y + 1];
            var ls, rs, n := Lower(lt, piece), Upper(ge, piece), Fitting(lt, ge, piece);
            && Rearranged(lt, ge, s, x, y) == Replaced(s, x, y, Placed(ls, piece[0], rs[..n], piece))
            && Queued(lt, ge, s, x, y) == (if |ls| != 0 then [Range(x, x + |ls| - 1)] else [])
                                          + (if |rs| != 0 then [Range(x + |ls| + 1, y)] else [])
            && n == if |rs| <= y - x - |ls| then |rs| else y - x - |ls|
  {
    hide Lower, Upper;
  }

  /** One round on a range of more than one element: partitions it and queues its parts. */
  method PartitionRange<T>(lt: Less<T>, ge: Less<T>, ys: array<T>, x: nat, y: nat) returns (parts: seq<Range>)
    requires x < y < ys.Length
    modifies ys
    ensures ys[..] == Rearranged(lt, ge, old(ys[..]), x, y) && parts == Queued(lt, ge, old(ys[..]), x, y)
  {
    hide Keep, Lower, Upper, Fitting, Rearranged, Queued, Replaced, Placed;
    ghost var s := ys[..];
    ghost var piece := s[x..y + 1];
    var z := ys[x];
    var ls := Filter(e => lt(e, z), ys[x + 1..y + 1]);
    var rs := Filter(e => ge(e, z), ys[x + 1..y + 1]);
    assert ys[x + 1..y + 1] == piece[1..] && piece[0] == z;
    SameKeep(lt, ge, piece, z);
    RoundForm(lt, ge, s, x, y);
    ghost var n := Fitting(lt, ge, piece);
    parts := [];
    if |ls| != 0 {
      CopyInto(ys, x, ls);
      parts := parts + [Range(x, x + |ls| - 1)];
    }
    assert forall j :: 0 <= j < ys.Length ==> ys[j] == if x <= j < x + |ls| then ls[j - x] else s[j];
    if |rs| != 0 {
      var room := y - x - |ls|;
      CopyInto(ys, x + |ls| + 1, if |rs| <= room then rs else rs[..room]);
      parts := parts + [Range(x + |ls| + 1, y)];
    }
    ys[x + |ls|] := z;
    ghost var p := Placed(ls, z, rs[..n], piece);
    assert forall j :: 0 <= j < ys.Length ==> ys[j] == if j < x || j > y then s[j] else p[j - x];
    assert ys[..] == Replaced(s, x, y, p);
  }

  /** Three lists one behind the other, and behind them what was there. */
  function Placed<T>(ls: seq<T>, z: T, rs: seq<T>, piece: seq<T>): (p: seq<T>)
    requires |ls| + 1 + |rs| <= |piece|
    ensures |p| == |piece|
    ensures forall i :: 0 <= i < |p| ==>
              p[i] == if i < |ls| then ls[i] else if i == |ls| then z
                      else if i < |ls| + 1 + |rs| then rs[i - |ls| - 1] else piece[i]
  {
    ls + [z] + rs + piece[|ls| + 1 + |rs|..]
  }

  lemma SameKeep<T>(lt: Less<T>, ge: Less<T>, piece: seq<T>, z: T)
    requires piece != [] && piece[0] == z
    ensures Keep(e => lt(e, z), piece[1..]) == Lower(lt, piece) && Keep(e => ge(e, z), piece[1..]) == Upper(ge, piece)
  {
    SameFilter(e => lt(e, z), x => lt(x, piece[0]), piece[1..]);
    SameFilter(e => ge(e, z), x => ge(x, piece[0]), piece[1..]);
  }

  lemma {:induction false} SameFilter<T>(f: T -> bool, g: T -> bool, xs: seq<T>)
    requires forall x :: x in xs ==> f(x) == g(x)
    ensures Keep(f, xs) == Keep(g, xs)
  {
    if xs != [] {
      SameFilter(f, g, xs[1..]);
    }
  }

  lemma RearrangedPermutes<T(!new)>(lt: Less<T>, ge: Less<T>, s: seq<T>, x: int, y: int)
    requires Opposite(lt, ge, Elements(s)) && 0 <= x < y < |s|
    ensures multiset(Rearranged(lt, ge, s, x, y)) == multiset(s)
  {
    hide Partition;
    PieceSortable(lt, ge, s, x, y);
    PartitionPermutes(lt, ge, s[x..y + 1]);
    ReplacedPermutes(s, x, y, Partition(lt, ge, s[x..y + 1]));
  }

  /** What one round on the first range of the queue keeps. */
  lemma Round<T(!new)>(lt: Less<T>, ge: Less<T>, s: seq<T>, q: seq<Range>, x: int, y: int)
    requires Sortable(lt, ge, Elements(s)) && Queue(q, |s|) && Ordered(lt, s, q)
    requires q != [] && q[0] == Range(x, y) && 0 <= x < y < |s|
    ensures var s', q' := Rearranged(lt, ge, s, x, y), q[1..] + Queued(lt, ge, s, x, y);
            multiset(s') == multiset(s) && Ordered(lt, s', q') && Queue(q', |s|)
  {
    hide Ordered, Rearranged, Queue, Queued, Parts;
    QueuedForm(lt, ge, s, x, y);
    RearrangedPermutes(lt, ge, s, x, y);
    StepOrders(lt, ge, s, q, x, y);
    TailQueue(q, |s|);
    PartsQueue(q[1..], x, y, |Lower(lt, s[x..y + 1])|, |s|);
  }

  /** Each round makes the queue lighter, whatever the comparisons. */
  lemma RoundLighter<T>(lt: Less<T>, ge: Less<T>, s: seq<T>, q: seq<Range>, x: int, y: int)
    requires q != [] && q[0] == Range(x, y) && 0 <= x < y < |s|
    ensures Weight(q[1..] + Queued(lt, ge, s, x, y)) < Weight(q)
  {
    var piece := s[x..y + 1];
    KeepMembers(e => lt(e, piece[0]), piece[1..]);
    PartsWeight(x, y, |Lower(lt, piece)|, Upper(ge, piece) != [], q[1..]);
    assert [Range(x, y)] + q[1..] == q;
  }

  /** All rounds, until the queue is empty. */
  function Rounds<T>(lt: Less<T>, ge: Less<T>, s: seq<T>, q: seq<Range>): (r: seq<T>)
    ensures |r| == |s|
    decreases Weight(q)
  {
    if q == [] then s
    else if 0 <= q[0].x < q[0].y < |s| then
      RoundLighter(lt, ge, s, q, q[0].x, q[0].y);
      Rounds(lt, ge, Rearranged(lt, ge, s, q[0].x, q[0].y), q[1..] + Queued(lt, ge, s, q[0].x, q[0].y))
    else Rounds(lt, ge, s, q[1..])
  }

  /** What the sort returns. */
  function Sorting<T>(lt: Less<T>, ge: Less<T>, xs: seq<T>): seq<T> {
    Rounds(lt, ge, xs, [Range(0, |xs| - 1)])
  }

  ghost predicate SortedPermutation<T(!new)>(lt: Less<T>, ge: Less<T>, xs: seq<T>) {
    multiset(Sorting(lt, ge, xs)) == multiset(xs) && Sorted(lt, Sorting(lt, ge, xs))
  }

  lemma {:induction false} RoundsSort<T(!new)>(lt: Less<T>, ge: Less<T>, s: seq<T>, q: seq<Range>)
    requires Sortable(lt, ge, Elements(s)) && Queue(q, |s|) && Ordered(lt, s, q)
    ensures multiset(Rounds(lt, ge, s, q)) == multiset(s) && Sorted(lt, Rounds(lt, ge, s, q))
    decreases Weight(q)
  {
    hide Ordered, Queue, Sortable;
    if q == [] {
      DoneSorted(lt, s);
    } else {
      TailQueue(q, |s|);
      if q[0].x < q[0].y {
        var x, y := q[0].x, q[0].y;
        Round(lt, ge, s, q, x, y);
        RoundLighter(lt, ge, s, q, x, y);
        SameElements(s, Rearranged(lt, ge, s, x, y));
        RoundsSort(lt, ge, Rearranged(lt, ge, s, x, y), q[1..] + Queued(lt, ge, s, x, y));
      } else {
        DropShort(lt, s, q);
        RoundsSort(lt, ge, s, q[1..]);
      }
    }
  }

  lemma SameElements<T(!new)>(s: seq<T>, s': seq<T>)
    requires multiset(s) == multiset(s')
    ensures Elements(s) == Elements(s')
  {
    forall x ensures x in s <==> x in s' {
      assert x in multiset(s) <==> x in multiset(s');
    }
  }

  /** With opposite comparisons on the elements, of which `lt` is a strict order, the sort sorts. */
  lemma SortingSorts<T(!new)>(lt: Less<T>, ge: Less<T>, xs: seq<T>)
    requires Sortable(lt, ge, Elements(xs))
    ensures SortedPermutation(lt, ge, xs)
  {
    StartOrdered(lt, xs);
    RoundsSort(lt, ge, xs, [Range(0, |xs| - 1)]);
  }

  // ------------------------------------------------- comparisons that are no opposites

  /** Nothing is below anything, and each pivot has all or none of the elements not below it. */
  ghost predicate Idle<T(!new)>(lt: Less<T>, ge: Less<T>, dom: iset<T>) {
    && (forall a, b :: a in dom && b in dom ==> !lt(a, b))
    && forall a :: a in dom ==> (forall e :: e in dom ==> ge(e, a)) || (forall e :: e in dom ==> !ge(e, a))
  }

  lemma {:induction false} KeepAll<T>(f: T -> bool, xs: seq<T>)
    ensures (forall x :: x in xs ==> f(x)) ==> Keep(f, xs) == xs
    ensures (forall x :: x in xs ==> !f(x)) ==> Keep(f, xs) == []
  {
    if xs != [] {
      KeepAll(f, xs[1..]);
      assert xs == [xs[0]] + xs[1..];
    }
  }

  lemma IdlePartition<T>(lt: Less<T>, ge: Less<T>, s: seq<T>)
    requires s != [] && Lower(lt, s) == [] && (Upper(ge, s) == [] || Upper(ge, s) == s[1..])
    ensures Partition(lt, ge, s) == s
  {
    hide Lower, Upper;
  }

  /** Then each round leaves the elements where they are. */
  lemma IdleRound<T(!new)>(lt: Less<T>, ge: Less<T>, s: seq<T>, x: int, y: int)
    requires Idle(lt, ge, Elements(s)) && 0 <= x < y < |s|
    ensures Rearranged(lt, ge, s, x, y) == s
  {
    var piece := s[x..y + 1];
    var a := piece[0];
    assert a in Elements(s) && forall e :: e in piece[1..] ==> e in Elements(s);
    KeepAll(e => lt(e, piece[0]), piece[1..]);
    KeepAll(e => ge(e, piece[0]), piece[1..]);
    assert Lower(lt, piece) == [];
    if forall e :: e in Elements(s) ==> ge(e, a) {
      assert Upper(ge, piece) == piece[1..];
    } else {
      assert Upper(ge, piece) == [];
    }
    IdlePartition(lt, ge, piece);
    hide *;
    ReplacedSame(s, x, y);
    RearrangedForm(lt, ge, s, x, y);
  }

  lemma RearrangedForm<T>(lt: Less<T>, ge: Less<T>, s: seq<T>, x: int, y: int)
    requires 0 <= x < y < |s|
    ensures Rearranged(lt, ge, s, x, y) == Replaced(s, x, y, Partition(lt, ge, s[x..y + 1]))
  {
  }

  lemma ReplacedSame<T>(s: seq<T>, x: int, y: int)
    requires 0 <= x < y < |s|
    ensures Replaced(s, x, y, s[x..y + 1]) == s
  {
  }

  lemma {:induction false} IdleRounds<T(!new)>(lt: Less<T>, ge: Less<T>, s: seq<T>, q: seq<Range>)
    requires Idle(lt, ge, Elements(s))
    ensures Rounds(lt, ge, s, q) == s
    decreases Weight(q)
  {
    hide Idle, Rearranged, Queued;
    if q != [] {
      if 0 <= q[0].x < q[0].y < |s| {
        IdleRound(lt, ge, s, q[0].x, q[0].y);
        RoundLighter(lt, ge, s, q, q[0].x, q[0].y);
        IdleRounds(lt, ge, s, q[1..] + Queued(lt, ge, s, q[0].x, q[0].y));
      } else {
        IdleRounds(lt, ge, s, q[1..]);
      }
    }
  }

  /** Ranges of at most one element change nothing. */
  lemma {:induction false} ShortRounds<T>(lt: Less<T>, ge: Less<T>, s: seq<T>, q: seq<Range>)
    requires forall k :: 0 <= k < |q| ==> q[k].x >= q[k].y
    ensures Rounds(lt, ge, s, q) == s
    decreases |q|
  {
    if q != [] {
      ShortRounds(lt, ge, s, q[1..]);
    }
  }

  lemma KeepTwo<T>(f: T -> bool, b: T, c: T)
    ensures Keep(f, [b, c]) == (if f(b) then [b] else []) + (if f(c) then [c] else [])
  {
    assert [b, c][1..] == [c] && [c][1..] == [];
    assert Keep(f, [c]) == (if f(c) then [c] else []) + [];
  }

  /** The first round on three elements. */
  lemma FirstOfThree<T>(lt: Less<T>, ge: Less<T>, a: T, b: T, c: T)
    ensures var xs, ls, rs := [a, b, c], Lower(lt, [a, b, c]), Upper(ge, [a, b, c]);
            && ls == (if lt(b, a) then [b] else []) + (if lt(c, a) then [c] else [])
            && rs == (if ge(b, a) then [b] else []) + (if ge(c, a) then [c] else [])
            && Sorting(lt, ge, xs) == Rounds(lt, ge, Partition(lt, ge, xs), Parts(0, 2, |ls|, rs != []))
  {
    var xs := [a, b, c];
    assert xs[1..] == [b, c] && xs[0..2 + 1] == xs;
    KeepTwo(x => lt(x, a), b, c);
    KeepTwo(x => ge(x, a), b, c);
    SameFilter(x => lt(x, a), x => lt(x, xs[0]), [b, c]);
    SameFilter(x => ge(x, a), x => ge(x, xs[0]), [b, c]);
    hide Partition, Lower, Upper, Parts;
    var q := [Range(0, 2)];
    RoundLighter(lt, ge, xs, q, 0, 2);
    assert Rearranged(lt, ge, xs, 0, 2) == Partition(lt, ge, xs);
    assert q[1..] == [] && [] + Queued(lt, ge, xs, 0, 2) == Queued(lt, ge, xs, 0, 2);
  }

  lemma KeepOne<T>(f: T -> bool, c: T)
    ensures Keep(f, [c]) == if f(c) then [c] else []
  {
    assert [c][1..] == [];
  }

  /** An element twice at the end stays there. */
  lemma PairRounds<T>(lt: Less<T>, ge: Less<T>, a: T, c: T)
    requires !lt(c, c)
    ensures Rounds(lt, ge, [a, c, c], [Range(1, 2)]) == [a, c, c]
  {
    var xs, q := [a, c, c], [Range(1, 2)];
    var piece := [c, c];
    assert xs[1..2 + 1] == piece && piece[1..] == [c];
    KeepOne(x => lt(x, piece[0]), c);
    KeepOne(x => ge(x, piece[0]), c);
    assert Lower(lt, piece) == [] && Upper(ge, piece) == if ge(c, c) then [c] else [];
    assert Partition(lt, ge, piece) == piece;
    hide Partition, Lower, Upper, Rounds;
    assert Rearranged(lt, ge, xs, 1, 2) == xs;
    RoundLighter(lt, ge, xs, q, 1, 2);
    ShortRounds(lt, ge, xs, Queued(lt, ge, xs, 1, 2));
    RoundsStep(lt, ge, xs, 1, 2);
  }

  lemma RoundsStep<T>(lt: Less<T>, ge: Less<T>, s: seq<T>, x: int, y: int)
    requires 0 <= x < y < |s|
    ensures Rounds(lt, ge, s, [Range(x, y)]) == Rounds(lt, ge, Rearranged(lt, ge, s, x, y), Queued(lt, ge, s, x, y))
  {
    hide Rearranged, Queued;
    var q := [Range(x, y)];
    RoundLighter(lt, ge, s, q, x, y);
    assert q[1..] == [] && [] + Queued(lt, ge, s, x, y) == Queued(lt, ge, s, x, y);
  }

  // What the sort makes of three elements, two of them the same, when the pivot is no opposite of itself or another.

  lemma LowerTwice<T>(lt: Less<T>, ge: Less<T>, a: T, b: T)
    requires lt(b, a) && !lt(a, a) && ge(b, a) && ge(a, a)
    ensures Sorting(lt, ge, [a, b, a]) == [b, a, b]
  {
    hide Rounds, Lower, Upper;
    FirstOfThree(lt, ge, a, b, a);
    assert Partition(lt, ge, [a, b, a]) == [b, a, b];
    ShortRounds(lt, ge, [b, a, b], Parts(0, 2, 1, true));
  }

  lemma LowerOnce<T>(lt: Less<T>, ge: Less<T>, a: T, b: T)
    requires lt(b, a) && !lt(a, a) && !ge(a, a)
    ensures Sorting(lt, ge, [a, a, b]) == [b, a, b]
  {
    hide Rounds, Lower, Upper;
    FirstOfThree(lt, ge, a, a, b);
    assert Partition(lt, ge, [a, a, b]) == [b, a, b];
    ShortRounds(lt, ge, [b, a, b], Parts(0, 2, 1, ge(b, a)));
  }

  lemma UpperTwice<T>(lt: Less<T>, ge: Less<T>, a: T, b: T)
    requires !lt(a, a) && !lt(b, a) && ge(a, a) && !ge(b, a)
    ensures Sorting(lt, ge, [a, b, a]) == [a, a, a]
  {
    hide Rounds, Lower, Upper;
    FirstOfThree(lt, ge, a, b, a);
    assert Partition(lt, ge, [a, b, a]) == [a, a, a];
    assert Parts(0, 2, 0, true) == [Range(1, 2)];
    PairRounds(lt, ge, a, a);
  }

  lemma UpperOnce<T>(lt: Less<T>, ge: Less<T>, a: T, b: T)
    requires !lt(a, a) && !lt(b, a) && !lt(b, b) && !ge(a, a) && ge(b, a)
    ensures Sorting(lt, ge, [a, a, b]) == [a, b, b]
  {
    hide Rounds, Lower, Upper;
    FirstOfThree(lt, ge, a, a, b);
    assert Partition(lt, ge, [a, a, b]) == [a, b, b];
    assert Parts(0, 2, 0, true) == [Range(1, 2)];
    PairRounds(lt, ge, a, b);
  }

  /** So a list of two elements loses one of them if its pivot does not tell opposites apart. */
  lemma Loses<T(!new)>(lt: Less<T>, ge: Less<T>, a: T, b: T)
    requires !lt(a, a) && !lt(b, b)
    requires if lt(b, a) then ge(b, a) || !ge(a, a) else ge(a, a) != ge(b, a)
    ensures !SortedPermutation(lt, ge, [a, b, a]) || !SortedPermutation(lt, ge, [a, a, b])
  {
    hide Sorting;
    assert multiset([b, a, b])[a] == 1 || a == b;
    assert multiset([a, b, a])[a] == 2 || a == b;
    assert multiset([a, a, b])[a] == 2 || a == b;
    if lt(b, a) {
      if ge(a, a) {
        LowerTwice(lt, ge, a, b);
      } else {
        LowerOnce(lt, ge, a, b);
      }
    } else if ge(a, a) {
      UpperTwice(lt, ge, a, b);
      assert multiset([a, a, a])[a] == 3;
    } else {
      UpperOnce(lt, ge, a, b);
      assert multiset([a, b, b])[a] == 1 || a == b;
    }
  }

  /** A pivot that compares with nothing stops the sort. */
  lemma StopsSorting<T(!new)>(lt: Less<T>, ge: Less<T>, a: T, b: T, c: T)
    requires lt(b, c) && !lt(b, a) && !lt(c, a) && !ge(b, a) && !ge(c, a)
    ensures !SortedPermutation(lt, ge, [a, c, b])
  {
    FirstOfThree(lt, ge, a, c, b);
    assert Partition(lt, ge, [a, c, b]) == [a, c, b];
    ShortRounds(lt, ge, [a, c, b], Parts(0, 2, 0, false));
    assert [a, c, b][1] == c && [a, c, b][2] == b;
  }

  predicate Over<T(==)>(xs: seq<T>, dom: iset<T>) {
    forall x :: x in xs ==> x in dom
  }

  /**
   * Whatever list of these elements is sorted, the result is a sorted permutation of it, if and only if `ge` is
   * the opposite of `lt` on them, or there is nothing to sort and nothing gets lost.
   */
  lemma SortsAllIff<T(!new)>(lt: Less<T>, ge: Less<T>, dom: iset<T>)
    requires StrictOrder(lt, dom)
    ensures (forall xs: seq<T> :: Over(xs, dom) ==> SortedPermutation(lt, ge, xs)) <==>
            Opposite(lt, ge, dom) || Idle(lt, ge, dom)
  {
    hide SortedPermutation, Opposite, Idle;
    if Opposite(lt, ge, dom) || Idle(lt, ge, dom) {
      forall xs: seq<T> | Over(xs, dom) ensures SortedPermutation(lt, ge, xs) {
        SortsOver(lt, ge, dom, xs);
      }
    } else {
      var xs := SomeUnsorted(lt, ge, dom);
    }
  }

  lemma SortsOver<T(!new)>(lt: Less<T>, ge: Less<T>, dom: iset<T>, xs: seq<T>)
    requires StrictOrder(lt, dom) && Over(xs, dom) && (Opposite(lt, ge, dom) || Idle(lt, ge, dom))
    ensures SortedPermutation(lt, ge, xs)
  {
    if Opposite(lt, ge, dom) {
      SortingSorts(lt, ge, xs);
    } else {
      IdleRounds(lt, ge, xs, [Range(0, |xs| - 1)]);
      assert forall i :: 0 <= i < |xs| ==> xs[i] in xs;
    }
  }

  lemma SomeUnsorted<T(!new)>(lt: Less<T>, ge: Less<T>, dom: iset<T>) returns (xs: seq<T>)
    requires StrictOrder(lt, dom) && !Opposite(lt, ge, dom) && !Idle(lt, ge, dom)
    ensures Over(xs, dom) && !SortedPermutation(lt, ge, xs)
  {
    hide SortedPermutation;
    if a, b :| a in dom && b in dom && lt(b, a) && (ge(b, a) || !ge(a, a)) {
      Loses(lt, ge, a, b);
      xs := if SortedPermutation(lt, ge, [a, b, a]) then [a, a, b] else [a, b, a];
    } else if a, b :| a in dom && b in dom && !lt(b, a) && ge(a, a) != ge(b, a) {
      Loses(lt, ge, a, b);
      xs := if SortedPermutation(lt, ge, [a, b, a]) then [a, a, b] else [a, b, a];
    } else {
      xs := StuckList(lt, ge, dom);
    }
  }

  /** What remains: each pivot has all or none of the others, and one with none stops those that could be sorted. */
  lemma StuckList<T(!new)>(lt: Less<T>, ge: Less<T>, dom: iset<T>) returns (xs: seq<T>)
    requires StrictOrder(lt, dom) && !Opposite(lt, ge, dom) && !Idle(lt, ge, dom)
    requires forall a, b :: a in dom && b in dom && lt(b, a) ==> !ge(b, a) && ge(a, a)
    requires forall a, b :: a in dom && b in dom && !lt(b, a) ==> ge(a, a) == ge(b, a)
    ensures Over(xs, dom) && !SortedPermutation(lt, ge, xs)
  {
    hide SortedPermutation;
    var e, a :| e in dom && a in dom && ge(e, a) == lt(e, a);
    assert !lt(e, a) && !ge(a, a);
    var b, c :| b in dom && c in dom && lt(b, c);
    StopsSorting(lt, ge, a, b, c);
    xs := [a, c, b];
  }

  /** Sorts a copy of `xs`, whatever the comparisons; the copy is a sorted permutation as `SortingSorts` says. */
  method Qsort<T(!new)>(lt: Less<T>, ge: Less<T>, xs: seq<T>) returns (sorted: seq<T>)
    ensures sorted == Sorting(lt, ge, xs)
    ensures Sortable(lt, ge, Elements(xs)) ==> multiset(sorted) == multiset(xs) && Sorted(lt, sorted)
  {
    hide Rearranged, Queued, Weight, Sorted, Sortable;
    var ys := new T[|xs|](i requires 0 <= i < |xs| => xs[i]);
    assert ys[..] == xs;
    var qs := [Range(0, ys.Length - 1)];
    while |qs| > 0
      invariant fresh(ys) && forall k :: 0 <= k < |qs| ==> 0 <= qs[k].x && qs[k].y < ys.Length
      invariant Rounds(lt, ge, ys[..], qs) == Sorting(lt, ge, xs)
      decreases Weight(qs)
    {
      ghost var s, q := ys[..], qs;
      var x, y := qs[0].x, qs[0].y;
      var parts := [];
      if x < y {
        RoundLighter(lt, ge, s, q, x, y);
        QueuedWithin(lt, ge, s, x, y);
        parts := PartitionRange(lt, ge, ys, x, y);
      } else {
        WeightOfTail(q);
        assert q[1..] + [] == q[1..];
      }
      qs := qs[1..] + parts;
    }
    sorted := ys[..];
    if Sortable(lt, ge, Elements(xs)) {
      SortingSorts(lt, ge, xs);
    }
  }

  lemma WeightOfTail(q: seq<Range>)
    requires q != []
    ensures Weight(q[1..]) < Weight(q)
  {
  }

  lemma QueuedWithin<T>(lt: Less<T>, ge: Less<T>, s: seq<T>, x: int, y: int)
    requires 0 <= x < y < |s|
    ensures var q := Queued(lt, ge, s, x, y);
            forall k :: 0 <= k < |q| ==> 0 <= q[k].x && q[k].y < |s|
  {
    var piece := s[x..y + 1];
    KeepMembers(e => lt(e, piece[0]), piece[1..]);
  }

  lemma StartOrdered<T(!new)>(lt: Less<T>, s: seq<T>)
    ensures Ordered(lt, s, [Range(0, |s| - 1)]) && Queue([Range(0, |s| - 1)], |s|)
  {
    var q := [Range(0, |s| - 1)];
    forall i, j | 0 <= i < j < |s| ensures Share(q, i, j) {
      assert Covers(q[0], i) && Covers(q[0], j);
    }
  }

  lemma DoneSorted<T(!new)>(lt: Less<T>, s: seq<T>)
    requires Ordered(lt, s, [])
    ensures Sorted(lt, s)
  {
  }

  /** A range of at most one element can leave the queue. */
  lemma DropShort<T(!new)>(lt: Less<T>, s: seq<T>, q: seq<Range>)
    requires q != [] && q[0].y <= q[0].x && Queue(q, |s|) && Ordered(lt, s, q)
    ensures Ordered(lt, s, q[1..]) && Weight(q[1..]) < Weight(q)
  {
    forall i, j | 0 <= i < j < |s| && Share(q, i, j) ensures Share(q[1..], i, j) {
      TailShares(q, i, j);
    }
  }

  // -------------------------------------------------------------------- search

  /** Equal elements are those of which none is below the other. */
  ghost predicate Matches<T(!new)>(lt: Less<T>, eq: Less<T>, dom: iset<T>) {
    forall a, b :: a in dom && b in dom ==> eq(a, b) == (!lt(a, b) && !lt(b, a))
  }

  /** Finds an element equal to `x`; in a sorted list, under a total order, -1 if and only if there is none. */
  method Bsearch<T(!new)>(lt: Less<T>, eq: Less<T>, x: T, xs: seq<T>) returns (at: int)
    ensures at >= 0 ==> at < |xs| && eq(xs[at], x)
    ensures at < 0 ==> at == -1
    ensures var dom := Elements(xs + [x]);
            TotalOrder(lt, dom) && Matches(lt, eq, dom) && Sorted(lt, xs) && at < 0 ==>
              forall i :: 0 <= i < |xs| ==> !eq(xs[i], x)
  {
    ghost var dom := Elements(xs + [x]);
    ghost var fit := TotalOrder(lt, dom) && Matches(lt, eq, dom) && Sorted(lt, xs);
    assert x in dom && forall i :: 0 <= i < |xs| ==> xs[i] in dom by {
      assert (xs + [x])[|xs|] == x && forall i :: 0 <= i < |xs| ==> (xs + [x])[i] == xs[i];
    }
    var mid, start, end := 0, 0, |xs| - 1;
    while start <= end
      invariant 0 <= start <= end + 1 <= |xs|
      invariant fit ==> forall i :: 0 <= i < start ==> lt(xs[i], x)
      invariant fit ==> forall i :: end < i < |xs| ==> lt(x, xs[i])
    {
      mid := start + (end - start) / 2;
      if eq(xs[mid], x) {
        return mid;
      }
      if lt(xs[mid], x) {
        forall i | fit && 0 <= i < mid + 1 ensures lt(xs[i], x) {
          assert i < mid ==> !lt(xs[mid], xs[i]);
        }
        start := mid + 1;
      } else {
        forall i | fit && mid - 1 < i < |xs| ensures lt(x, xs[i]) {
          assert mid < i ==> !lt(xs[i], xs[mid]);
        }
        end := mid - 1;
      }
    }
    return -1;
  }
}
