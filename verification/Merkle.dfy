/** Merkle trees over a list of items, the hash being any function. */
module Merkle {
  import opened Wrappers

  type Hash = string -> string

  // ----------------------------------------------------------------- the split

  function BitAnd(a: nat, b: nat): (r: nat)
    ensures r <= a && r <= b
  {
    if a == 0 || b == 0 then 0 else 2 * BitAnd(a / 2, b / 2) + if a % 2 == 1 && b % 2 == 1 then 1 else 0
  }

  /** Clears the lowest bits one by one until a single one is left. */
  function PowerOfTwo0(n: nat): nat {
    if n == 0 || BitAnd(n, n - 1) == 0 then n else PowerOfTwo0(BitAnd(n, n - 1))
  }

  /** How many of `n` items go to the left. */
  function PowerOfTwo(n: nat): nat
    requires n >= 1
  {
    if BitAnd(n, n - 1) == 0 then n / 2 else PowerOfTwo0(n)
  }

  /** The largest power of two up to `n`. */
  function HighBit(n: nat): (p: nat)
    requires n >= 1
    ensures 1 <= p <= n < 2 * p
  {
    if n == 1 then 1 else 2 * HighBit(n / 2)
  }

  lemma {:induction false} BitAndSelf(n: nat)
    ensures BitAnd(n, n) == n
  {
    if n > 0 {
      BitAndSelf(n / 2);
    }
  }

  lemma BitAndStep(a: nat, b: nat)
    requires a > 0 && b > 0
    ensures BitAnd(a, b) == 2 * BitAnd(a / 2, b / 2) + if a % 2 == 1 && b % 2 == 1 then 1 else 0
  {
  }

  lemma ClearOdd(m: nat)
    ensures BitAnd(2 * m + 1, 2 * m) == 2 * m
  {
    BitAndSelf(m);
    if m > 0 {
      hide BitAnd;
      BitAndStep(2 * m + 1, 2 * m);
      assert (2 * m + 1) / 2 == m && 2 * m / 2 == m && 2 * m % 2 == 0;
    }
  }

  lemma ClearEven(m: nat)
    requires m >= 1
    ensures BitAnd(2 * m, 2 * m - 1) == 2 * BitAnd(m, m - 1)
  {
    hide BitAnd;
    BitAndStep(2 * m, 2 * m - 1);
    assert 2 * m / 2 == m && 2 * m % 2 == 0 && (2 * m - 1) / 2 == m - 1;
  }

  /** Clearing the lowest bit keeps the highest, unless it is the same. */
  lemma {:induction false} ClearLowest(n: nat)
    requires n >= 1
    ensures BitAnd(n, n - 1) == 0 <==> n == HighBit(n)
    ensures BitAnd(n, n - 1) > 0 ==> HighBit(BitAnd(n, n - 1)) == HighBit(n)
  {
    hide BitAnd, HighBit;
    var m := n / 2;
    if n == 1 {
      ClearOne();
    } else if n % 2 == 1 {
      ClearOdd(m);
      HighBitDouble(m);
      assert n == 2 * m + 1;
    } else {
      ClearEven(m);
      ClearLowest(m);
      HighBitDouble(m);
      if BitAnd(m, m - 1) > 0 {
        HighBitDouble(BitAnd(m, m - 1));
      }
      assert n == 2 * m;
    }
  }

  lemma ClearOne()
    ensures BitAnd(1, 0) == 0 && HighBit(1) == 1
  {
  }

  lemma HighBitDouble(m: nat)
    requires m >= 1
    ensures HighBit(2 * m) == HighBit(2 * m + 1) == 2 * HighBit(m)
  {
    var a, b := 2 * m, 2 * m + 1;
    assert a / 2 == m && b / 2 == m;
  }

  lemma {:induction false} PowerOfTwo0IsHighBit(n: nat)
    requires n >= 1
    ensures PowerOfTwo0(n) == HighBit(n)
  {
    ClearLowest(n);
    if BitAnd(n, n - 1) > 0 {
      PowerOfTwo0IsHighBit(BitAnd(n, n - 1));
    }
  }

  /** The left side gets the largest power of two strictly below `n`, so both sides are smaller than the whole. */
  lemma SplitStrict(n: nat)
    requires n >= 2
    ensures 1 <= PowerOfTwo(n) < n <= 2 * PowerOfTwo(n)
    ensures HighBit(PowerOfTwo(n)) == PowerOfTwo(n)
  {
    ClearLowest(n);
    PowerOfTwo0IsHighBit(n);
    if BitAnd(n, n - 1) == 0 {
    } else {
      HighBitOfHighBit(n);
    }
  }

  lemma {:induction false} HighBitOfHighBit(n: nat)
    requires n >= 1
    ensures HighBit(HighBit(n)) == HighBit(n)
  {
    if n > 1 {
      HighBitOfHighBit(n / 2);
    }
  }

  // ------------------------------------------------------------------ the tree

  datatype Node = Leaf(data: string, root: string) | Branch(left: Node, right: Node, root: string)

  /** An empty item makes no leaf. */
  function MkLeaf(h: Hash, data: string): Option<Node> {
    if data == "" then None else Some(Leaf(data, h(data)))
  }

  function MkBranch(h: Hash, l: Option<Node>, r: Option<Node>): Option<Node> {
    if l.None? || r.None? then None else Some(Branch(l.value, r.value, h(l.value.root + r.value.root)))
  }

  function MkTree(h: Hash, data: seq<string>): Option<Node>
    requires data != []
    decreases |data|
  {
    if |data| == 1 then MkLeaf(h, data[0])
    else
      SplitStrict(|data|);
      var i := PowerOfTwo(|data|);
      MkBranch(h, MkTree(h, data[..i]), MkTree(h, data[i..]))
  }

  function Leaves(t: Node): seq<string> {
    match t
    case Leaf(data, _) => [data]
    case Branch(l, r, _) => Leaves(l) + Leaves(r)
  }

  /** Every node carries the hash of what is below it. */
  predicate Hashed(h: Hash, t: Node) {
    match t
    case Leaf(data, root) => data != "" && root == h(data)
    case Branch(l, r, root) => Hashed(h, l) && Hashed(h, r) && root == h(l.root + r.root)
  }

  predicate NoneEmpty(data: seq<string>) {
    forall i :: 0 <= i < |data| ==> data[i] != ""
  }

  lemma NoneEmptyOfOne(data: seq<string>)
    ensures |data| == 1 ==> (NoneEmpty(data) <==> data[0] != "")
  {
  }

  lemma NoneEmptyOfBoth(a: seq<string>, b: seq<string>)
    ensures NoneEmpty(a + b) <==> NoneEmpty(a) && NoneEmpty(b)
  {
    if NoneEmpty(a + b) {
      assert forall i :: 0 <= i < |a| ==> (a + b)[i] == a[i];
      assert forall i :: 0 <= i < |b| ==> (a + b)[|a| + i] == b[i];
    }
  }

  /** There is a tree if and only if no item is empty, and its leaves are the items in order. */
  lemma {:induction false} TreeHoldsData(h: Hash, data: seq<string>)
    requires data != []
    ensures MkTree(h, data).Some? <==> NoneEmpty(data)
    ensures MkTree(h, data).Some? ==> Leaves(MkTree(h, data).value) == data && Hashed(h, MkTree(h, data).value)
    decreases |data|
  {
    hide HighBit, PowerOfTwo0, BitAnd, NoneEmpty;
    NoneEmptyOfOne(data);
    if |data| > 1 {
      SplitStrict(|data|);
      var i := PowerOfTwo(|data|);
      TreeHoldsData(h, data[..i]);
      TreeHoldsData(h, data[i..]);
      assert data == data[..i] + data[i..];
      NoneEmptyOfBoth(data[..i], data[i..]);
      hide PowerOfTwo;
    }
  }

  // --------------------------------------------------------------- the shape

  predicate IsPowerOfTwo(n: nat) {
    n == 1 || (n > 0 && n % 2 == 0 && IsPowerOfTwo(n / 2))
  }

  lemma {:induction false} PowerIsHighBit(n: nat)
    requires n >= 1
    ensures IsPowerOfTwo(n) <==> HighBit(n) == n
    decreases n
  {
    if n > 1 {
      PowerIsHighBit(n / 2);
    }
  }

  /** There is one power of two below `n` and not below its half. */
  lemma {:induction false} PowerBetween(p: nat, q: nat, n: nat)
    requires IsPowerOfTwo(p) && IsPowerOfTwo(q) && p < n <= 2 * p && q < n <= 2 * q
    ensures p == q
    decreases p
  {
    if p > 1 && q > 1 {
      PowerBetween(p / 2, q / 2, (n + 1) / 2);
    }
  }

  /** In every branch the left side holds the largest power of two of leaves that leaves some to the right. */
  predicate LeftFull(t: Node) {
    t.Branch? ==>
      var n := |Leaves(t.left)|;
      IsPowerOfTwo(n) && n < |Leaves(t)| <= 2 * n && LeftFull(t.left) && LeftFull(t.right)
  }

  lemma {:induction false} TreeIsLeftFull(h: Hash, data: seq<string>)
    requires data != [] && MkTree(h, data).Some?
    ensures LeftFull(MkTree(h, data).value)
    decreases |data|
  {
    hide HighBit, PowerOfTwo0, BitAnd, IsPowerOfTwo, PowerOfTwo;
    TreeHoldsData(h, data);
    if |data| > 1 {
      SplitStrict(|data|);
      var i := PowerOfTwo(|data|);
      PowerIsHighBit(i);
      TreeHoldsData(h, data[..i]);
      TreeHoldsData(h, data[i..]);
      TreeIsLeftFull(h, data[..i]);
      TreeIsLeftFull(h, data[i..]);
    }
  }

  /** Leaves, hashes and shape leave no choice. */
  lemma {:induction false} ShapeIsUnique(h: Hash, a: Node, b: Node)
    requires Hashed(h, a) && Hashed(h, b) && LeftFull(a) && LeftFull(b) && Leaves(a) == Leaves(b)
    ensures a == b
    decreases a
  {
    hide IsPowerOfTwo;
    if a.Branch? && b.Branch? {
      var n, all := |Leaves(a.left)|, Leaves(a);
      PowerBetween(n, |Leaves(b.left)|, |all|);
      assert Leaves(a.left) == all[..n] == Leaves(b.left) && Leaves(a.right) == all[n..] == Leaves(b.right);
      ShapeIsUnique(h, a.left, b.left);
      ShapeIsUnique(h, a.right, b.right);
    }
  }

  /** So the tree of a list is the one hashed tree of this shape with these leaves, and its root is determined. */
  lemma TreeIff(h: Hash, data: seq<string>, t: Node)
    requires data != []
    ensures MkTree(h, data) == Some(t) <==> Hashed(h, t) && LeftFull(t) && Leaves(t) == data
  {
    TreeHoldsData(h, data);
    if MkTree(h, data) == Some(t) {
      TreeIsLeftFull(h, data);
    } else if Hashed(h, t) && LeftFull(t) && Leaves(t) == data {
      LeavesNotEmpty(h, t);
      TreeIsLeftFull(h, data);
      ShapeIsUnique(h, t, MkTree(h, data).value);
    }
  }

  lemma {:induction false} LeavesNotEmpty(h: Hash, t: Node)
    requires Hashed(h, t)
    ensures NoneEmpty(Leaves(t))
  {
    if t.Branch? {
      LeavesNotEmpty(h, t.left);
      LeavesNotEmpty(h, t.right);
      NoneEmptyOfBoth(Leaves(t.left), Leaves(t.right));
    }
  }

  // ------------------------------------------------------------------- binding

  /** What was hashed to make a tree. */
  function Inputs(t: Node): set<string> {
    match t
    case Leaf(data, _) => {data}
    case Branch(l, r, _) => {l.root + r.root} + Inputs(l) + Inputs(r)
  }

  /** Two different inputs with the same hash. */
  ghost predicate Collide(h: Hash, xs: set<string>, ys: set<string>) {
    exists x, y :: x in xs && y in ys && x != y && h(x) == h(y)
  }

  ghost predicate FixedLength(h: Hash, w: nat) {
    forall x :: |h(x)| == w
  }

  predicate SameShape(a: Node, b: Node) {
    match (a, b)
    case (Leaf(_, _), Leaf(_, _)) => true
    case (Branch(l, r, _), Branch(l', r', _)) => SameShape(l, l') && SameShape(r, r')
    case _ => false
  }

  lemma {:induction false} EqualRootsEqualTrees(h: Hash, w: nat, a: Node, b: Node)
    requires FixedLength(h, w) && Hashed(h, a) && Hashed(h, b) && SameShape(a, b) && a.root == b.root
    ensures a == b || Collide(h, Inputs(a), Inputs(b))
  {
    if a.Branch? {
      var x, y := a.left.root + a.right.root, b.left.root + b.right.root;
      assert x in Inputs(a) && y in Inputs(b);
      if x == y {
        assert |a.left.root| == w == |b.left.root|;
        assert a.left.root == x[..w] == b.left.root && a.right.root == x[w..] == b.right.root;
        EqualRootsEqualTrees(h, w, a.left, b.left);
        EqualRootsEqualTrees(h, w, a.right, b.right);
      }
    } else {
      assert a.data in Inputs(a) && b.data in Inputs(b);
    }
  }

  lemma {:induction false} SameLengthSameShape(h: Hash, a: seq<string>, b: seq<string>)
    requires a != [] && |a| == |b| && MkTree(h, a).Some? && MkTree(h, b).Some?
    ensures SameShape(MkTree(h, a).value, MkTree(h, b).value)
    decreases |a|
  {
    if |a| > 1 {
      SplitStrict(|a|);
      var i := PowerOfTwo(|a|);
      SameLengthSameShape(h, a[..i], b[..i]);
      SameLengthSameShape(h, a[i..], b[i..]);
    }
  }

  /** Two lists of one length with the same root are the same list, or two of the hashed inputs collide. */
  lemma RootBinds(h: Hash, w: nat, a: seq<string>, b: seq<string>)
    requires FixedLength(h, w) && a != [] && |a| == |b|
    requires MkTree(h, a).Some? && MkTree(h, b).Some? && MkTree(h, a).value.root == MkTree(h, b).value.root
    ensures a == b || Collide(h, Inputs(MkTree(h, a).value), Inputs(MkTree(h, b).value))
  {
    TreeHoldsData(h, a);
    TreeHoldsData(h, b);
    SameLengthSameShape(h, a, b);
    EqualRootsEqualTrees(h, w, MkTree(h, a).value, MkTree(h, b).value);
  }

  // ---------------------------------------------------------------- membership

  datatype Elem = Elem(isLeft: bool, nodeRoot: string, siblingRoot: string)

  /** The ways from the root to every leaf with the root hash `x`, one behind the other. */
  function ConstructPath(proof: seq<Elem>, t: Node, x: string): seq<Elem>
    decreases t
  {
    match t
    case Leaf(_, root) => if root == x then proof else []
    case Branch(l, r, _) =>
      ConstructPath(proof + [Elem(true, l.root, r.root)], l, x) +
          ConstructPath(proof + [Elem(false, r.root, l.root)], r, x)
  }

  /** Whether hashing upwards along a proof, from its end, leads from `x` to `root`. */
  function Validate(h: Hash, proof: seq<Elem>, root: string, x: string): bool
    decreases |proof|
  {
    if proof == [] then x == root
    else
      var e := proof[|proof| - 1];
      e.nodeRoot == x &&
      Validate(h, proof[..|proof| - 1], root,
               if e.isLeft then h(e.nodeRoot + e.siblingRoot) else h(e.siblingRoot + e.nodeRoot))
  }

  /** Whether a datum is found in a tree; an empty one makes no leaf to look for. */
  function VerifyNode(h: Hash, t: Node, data: string): Option<bool> {
    if data == "" then None else Some(Validate(h, ConstructPath([], t, h(data)), t.root, h(data)))
  }

  /** How many items have the hash `x`. */
  function Holders(h: Hash, data: seq<string>, x: string): nat {
    if data == [] then 0 else (if h(data[0]) == x then 1 else 0) + Holders(h, data[1..], x)
  }

  lemma {:induction false} HoldersOfBoth(h: Hash, a: seq<string>, b: seq<string>, x: string)
    ensures Holders(h, a + b, x) == Holders(h, a, x) + Holders(h, b, x)
  {
    if a == [] {
      assert a + b == b;
    } else {
      assert (a + b)[1..] == a[1..] + b;
      HoldersOfBoth(h, a[1..], b, x);
    }
  }

  /** The separate ways that `ConstructPath` strings together. */
  function Paths(proof: seq<Elem>, t: Node, x: string): seq<seq<Elem>>
    decreases t
  {
    match t
    case Leaf(_, root) => if root == x then [proof] else []
    case Branch(l, r, _) =>
      Paths(proof + [Elem(true, l.root, r.root)], l, x) + Paths(proof + [Elem(false, r.root, l.root)], r, x)
  }

  function Flatten(ps: seq<seq<Elem>>): seq<Elem> {
    if ps == [] then [] else Flatten(ps[..|ps| - 1]) + ps[|ps| - 1]
  }

  lemma {:induction false} FlattenBoth(ps: seq<seq<Elem>>, qs: seq<seq<Elem>>)
    ensures Flatten(ps + qs) == Flatten(ps) + Flatten(qs)
    decreases |qs|
  {
    if qs == [] {
      assert ps + qs == ps && Flatten(ps) + [] == Flatten(ps);
    } else {
      var front := qs[..|qs| - 1];
      assert (ps + qs)[..|ps + qs| - 1] == ps + front;
      FlattenBoth(ps, front);
      assert Flatten(ps) + (Flatten(front) + qs[|qs| - 1]) == Flatten(ps) + Flatten(front) + qs[|qs| - 1];
    }
  }

  lemma {:induction false} PathsFlatten(proof: seq<Elem>, t: Node, x: string)
    ensures ConstructPath(proof, t, x) == Flatten(Paths(proof, t, x))
    decreases t
  {
    match t
    case Leaf(_, root) =>
      assert [proof][..0] == [] && [] + proof == proof;
    case Branch(l, r, _) =>
      var p, q := proof + [Elem(true, l.root, r.root)], proof + [Elem(false, r.root, l.root)];
      PathsFlatten(p, l, x);
      PathsFlatten(q, r, x);
      FlattenBoth(Paths(p, l, x), Paths(q, r, x));
  }

  lemma {:induction false} PathPerHolder(h: Hash, proof: seq<Elem>, t: Node, x: string)
    requires Hashed(h, t)
    ensures |Paths(proof, t, x)| == Holders(h, Leaves(t), x)
    decreases t
  {
    if t.Branch? {
      PathPerHolder(h, proof + [Elem(true, t.left.root, t.right.root)], t.left, x);
      PathPerHolder(h, proof + [Elem(false, t.right.root, t.left.root)], t.right, x);
      HoldersOfBoth(h, Leaves(t.left), Leaves(t.right), x);
    } else {
      assert [t.data][1..] == [];
    }
  }

  /** `p` leads from `x` up to the node with hash `top`, whatever lies in front of it. */
  ghost predicate Climbs(h: Hash, p: seq<Elem>, proof: seq<Elem>, top: string, x: string) {
    forall front: seq<Elem>, root: string :: Validate(h, front + p, root, x) == Validate(h, front + proof, root, top)
  }

  lemma {:induction false} PathsClimb(h: Hash, proof: seq<Elem>, t: Node, x: string, i: nat)
    requires Hashed(h, t) && i < |Paths(proof, t, x)|
    ensures Climbs(h, Paths(proof, t, x)[i], proof, t.root, x)
    ensures t.Branch? ==> var p := Paths(proof, t, x)[i]; p != [] && p[|p| - 1].nodeRoot == x
    decreases t, 0
  {
    if t.Branch? {
      var ps := Paths(proof + [Elem(true, t.left.root, t.right.root)], t.left, x);
      if i < |ps| {
        SideClimbs(h, proof, t, t.left, Elem(true, t.left.root, t.right.root), x, i);
      } else {
        SideClimbs(h, proof, t, t.right, Elem(false, t.right.root, t.left.root), x, i - |ps|);
      }
    }
  }

  lemma {:induction false} SideClimbs(h: Hash, proof: seq<Elem>, t: Node, side: Node, e: Elem, x: string, i: nat)
    requires Hashed(h, t) && t.Branch? && i < |Paths(proof + [e], side, x)|
    requires if e.isLeft then side == t.left && e == Elem(true, t.left.root, t.right.root)
             else side == t.right && e == Elem(false, t.right.root, t.left.root)
    ensures Climbs(h, Paths(proof + [e], side, x)[i], proof, t.root, x)
    ensures var p := Paths(proof + [e], side, x)[i]; p != [] && p[|p| - 1].nodeRoot == x
    decreases side, 1
  {
    var p := Paths(proof + [e], side, x)[i];
    PathsClimb(h, proof + [e], side, x, i);
    forall front: seq<Elem>, root: string
      ensures Validate(h, front + p, root, x) == Validate(h, front + proof, root, t.root)
    {
      var longer := front + (proof + [e]);
      assert Validate(h, front + p, root, x) == Validate(h, longer, root, side.root);
      assert longer[|longer| - 1] == e && longer[..|longer| - 1] == front + proof;
    }
    if side.Leaf? {
      assert p == proof + [e];
    }
  }

  lemma FlattenLast(ps: seq<seq<Elem>>, k: nat)
    requires 1 <= k <= |ps|
    ensures Flatten(ps[..k]) == Flatten(ps[..k - 1]) + ps[k - 1]
  {
    assert ps[..k][..k - 1] == ps[..k - 1];
  }

  /** What does not start with the hash at its end does not validate. */
  lemma WrongEnd(h: Hash, proof: seq<Elem>, root: string, x: string)
    requires proof != [] && proof[|proof| - 1].nodeRoot != x
    ensures !Validate(h, proof, root, x)
  {
  }

  lemma LeafPaths(proof: seq<Elem>, t: Node, x: string)
    ensures |Paths(proof, t, x)| > 1 ==> t.Branch?
  {
  }

  /** Ways to all the holders, one behind the other, validate only if there is one, or if `x` is the root itself. */
  lemma {:induction false} ValidatePaths(h: Hash, t: Node, x: string, k: nat)
    requires Hashed(h, t) && 1 <= k <= |Paths([], t, x)|
    ensures Validate(h, Flatten(Paths([], t, x)[..k]), t.root, x) <==> k == 1 || x == t.root
    decreases k
  {
    ValidateNothing(h, t.root);
    hide Paths, Hashed, Validate, Flatten;
    var ps := Paths([], t, x);
    var front := Flatten(ps[..k - 1]);
    FlattenLast(ps, k);
    PathsClimb(h, [], t, x, k - 1);
    assert front + [] == front;
    assert Validate(h, front + ps[k - 1], t.root, x) == Validate(h, front + [], t.root, t.root);
    if k > 1 {
      ValidatePaths(h, t, x, k - 1);
      LeafPaths([], t, x);
      PathsClimb(h, [], t, x, k - 2);
      FlattenLast(ps, k - 1);
      if x != t.root {
        WrongEnd(h, front, t.root, t.root);
      }
    } else {
      FlattenNone(ps);
    }
  }

  lemma ValidateNothing(h: Hash, root: string)
    ensures Validate(h, [], root, root)
  {
  }

  lemma FlattenNone(ps: seq<seq<Elem>>)
    ensures Flatten(ps[..0]) == []
  {
  }

  /** A datum is accepted if and only if exactly one item has its hash, or its hash is that of the root. */
  lemma VerifyIff(h: Hash, data: seq<string>, d: string)
    requires data != [] && MkTree(h, data).Some? && d != ""
    ensures VerifyNode(h, MkTree(h, data).value, d) ==
            Some(Holders(h, data, h(d)) == 1 || h(d) == MkTree(h, data).value.root)
  {
    var t, x := MkTree(h, data).value, h(d);
    TreeHoldsData(h, data);
    PathsFlatten([], t, x);
    PathPerHolder(h, [], t, x);
    var ps := Paths([], t, x);
    if ps != [] {
      ValidatePaths(h, t, x, |ps|);
      assert ps[..|ps|] == ps;
    }
  }

  lemma {:induction false} OneHolder(h: Hash, data: seq<string>, i: nat)
    requires i < |data| && forall j :: 0 <= j < |data| && j != i ==> h(data[j]) != h(data[i])
    ensures Holders(h, data, h(data[i])) == 1
  {
    if i == 0 {
      NoHolder(h, data[1..], h(data[0]));
    } else {
      OneHolder(h, data[1..], i - 1);
    }
  }

  lemma {:induction false} NoHolder(h: Hash, data: seq<string>, x: string)
    ensures Holders(h, data, x) == 0 <==> forall j :: 0 <= j < |data| ==> h(data[j]) != x
  {
    if data != [] {
      NoHolder(h, data[1..], x);
      assert (forall j :: 0 <= j < |data| ==> h(data[j]) != x) <==>
             h(data[0]) != x && (forall j :: 0 <= j < |data| - 1 ==> h(data[1..][j]) != x) by {
        forall j | 1 <= j < |data| ensures data[j] == data[1..][j - 1] {
        }
      }
    }
  }

  /** An item that exactly one leaf holds is accepted, if no other item has its hash. */
  lemma SoleHolderAccepted(h: Hash, data: seq<string>, i: nat)
    requires i < |data| && MkTree(h, data).Some?
    requires forall j :: 0 <= j < |data| && j != i ==> h(data[j]) != h(data[i])
    ensures VerifyNode(h, MkTree(h, data).value, data[i]) == Some(true)
  {
    TreeHoldsData(h, data);
    OneHolder(h, data, i);
    VerifyIff(h, data, data[i]);
  }

  /** An item that occurs twice is rejected, unless its hash is that of the root. */
  lemma RepeatedItemRejected(h: Hash, data: seq<string>, i: nat, j: nat)
    requires i < j < |data| && data[i] == data[j] && MkTree(h, data).Some? && h(data[i]) != MkTree(h, data).value.root
    ensures VerifyNode(h, MkTree(h, data).value, data[i]) == Some(false)
  {
    TreeHoldsData(h, data);
    TwoHolders(h, data, i, j);
    VerifyIff(h, data, data[i]);
  }

  lemma TwoHolders(h: Hash, data: seq<string>, i: nat, j: nat)
    requires i < j < |data| && data[i] == data[j]
    ensures Holders(h, data, h(data[i])) >= 2
  {
    var x := h(data[i]);
    var a, b := data[..j], data[j..];
    assert data == a + b && a[i] == data[i] && b[0] == data[j];
    HoldersOfBoth(h, a, b, x);
    NoHolder(h, a, x);
    NoHolder(h, b, x);
    hide Holders;
  }

  /** Whatever is accepted has the hash of an item or of the root. */
  lemma AcceptedHash(h: Hash, data: seq<string>, d: string)
    requires data != [] && MkTree(h, data).Some? && VerifyNode(h, MkTree(h, data).value, d) == Some(true)
    ensures (exists i :: 0 <= i < |data| && h(data[i]) == h(d)) || h(d) == MkTree(h, data).value.root
  {
    VerifyIff(h, data, d);
    NoHolder(h, data, h(d));
  }
}
