/** From the words of a script to calls, and from calls to typed scripts. */
module ParseSpec {
  import opened Wrappers
  import opened LexSpec
  import opened TokenSpec

  // ------------------------------------------------------------ the roll buffer

  /** The parser's input: at most one word pushed back, and the text behind it. */
  datatype Input = Input(back: Option<Token>, rest: string)

  function Size(p: Input): nat {
    |p.rest| + if p.back.Some? then 1 else 0
  }

  /** The next word. At the end there is none, and at an error there is none either, but the text moves on. */
  function GetW(p: Input): (r: (Option<Token>, Input))
    ensures r.0.Some? ==> Size(r.1) < Size(p)
    ensures r.1.back.None? && Size(r.1) <= Size(p)
  {
    if p.back.Some? then (p.back, Input(None, p.rest))
    else
      match Lex(p.rest)
      case Tok(t, rest) => (Some(t), Input(None, rest))
      case End => (None, Input(None, ""))
      case Bad(rest) => (None, Input(None, rest))
  }

  /** The next word, which stays next. */
  function Peek(p: Input): (r: (Option<Token>, Input))
    ensures Size(r.1) <= Size(p) && r.1.back == r.0
  {
    var (t, p') := GetW(p);
    (t, Input(t, p'.rest))
  }

  // ------------------------------------------------------------------ the tree

  /** An argument list: its last argument, or an argument and the list of the others. */
  datatype Arguments = One(value: Value) | EList(left: Value, right: Arguments)

  datatype Call = Call(name: string, right: Option<Arguments>)

  datatype Parsed<T> = Parsed(node: T, p: Input) | Failed

  /** PrimaryExpression: a number or a string. */
  function Parser2(p: Input): (r: Parsed<Value>)
    ensures r.Parsed? ==> Size(r.p) < Size(p)
  {
    var (t, p1) := Peek(p);
    if t.Some? && t.value.Int? then Parsed(Number(t.value.n), GetW(p1).1)
    else
      var (u, p2) := Peek(p1);
      if u.Some? && u.value.Str? then Parsed(Text(u.value.s), GetW(p2).1) else Failed
  }

  /** ArgumentExpressionList: it ends at the end of the text, or at an error, which is skipped with one more word. */
  function Parser1(p: Input): (r: Parsed<Arguments>)
    ensures r.Parsed? ==> Size(r.p) < Size(p)
    decreases Size(p)
  {
    match Parser2(p)
    case Failed => Failed
    case Parsed(n1, p1) =>
      var (t, p2) := Peek(p1);
      if t.None? then Parsed(One(n1), GetW(p2).1)
      else if t.value.Word? then Failed
      else
        match Parser1(p2)
        case Failed => Failed
        case Parsed(n2, p3) => Parsed(EList(n1, n2), p3)
  }

  /** FunctionCALL: a name and its arguments, if any. */
  function Parser0(p: Input): (r: Parsed<Call>)
    ensures r.Parsed? ==> Size(r.p) < Size(p)
  {
    var (t, p1) := Peek(p);
    if t.None? || !t.value.Word? then Failed
    else
      var p2 := GetW(p1).1;
      var (u, p3) := Peek(p2);
      if u.None? then Parsed(Call(t.value.name, None), GetW(p3).1)
      else
        match Parser1(p3)
        case Failed => Failed
        case Parsed(args, p4) => Parsed(Call(t.value.name, Some(args)), p4)
  }

  /** All calls of a text, after those of `ns`; nothing if it is no script. */
  function Calls(p: Input, ns: seq<Call>): Option<seq<Call>>
    decreases Size(p)
  {
    var (t, p1) := Peek(p);
    if t.None? then Some(ns)
    else if !t.value.Word? then None
    else
      match Parser0(p1)
      case Failed => None
      case Parsed(node, p2) => Calls(p2, ns + [node])
  }

  // --------------------------------------------------------------------- types

  const ORDER: nat := 0
  const AMOUNT: nat := 1
  const ADDRESS: nat := 2
  const TOKENID: nat := 3
  const PERCENTAGE: nat := 4

  predicate IsNumeric(typ: nat) {
    typ == AMOUNT || typ == PERCENTAGE
  }

  /** The types a script wants its leading arguments to have. */
  function Signature(name: string): (r: seq<nat>)
    ensures |r| > 0 && forall i :: 0 <= i < |r| ==> r[i] <= PERCENTAGE
  {
    if name == "new" then [TOKENID, AMOUNT, AMOUNT]
    else if name == "mint" then [TOKENID, AMOUNT]
    else if name == "transfer" then [TOKENID, AMOUNT, ADDRESS]
    else [TOKENID, ADDRESS]
  }

  function First(a: Arguments): Value {
    if a.One? then a.value else a.left
  }

  function Next(a: Arguments): Option<Arguments> {
    if a.One? then None else Some(a.right)
  }

  predicate Fits(typ: nat, v: Value) {
    IsNumeric(typ) == v.Number?
  }

  /** As many arguments as there are types, each of its type; arguments beyond them are not looked at. */
  function Typed(typs: seq<nat>, a: Option<Arguments>): Option<seq<Argument>> {
    if typs == [] then Some([])
    else if a.None? || !Fits(typs[0], First(a.value)) then None
    else
      var tail := Typed(typs[1..], Next(a.value));
      if tail.None? then None else Some([Argument(typs[0], First(a.value))] + tail.value)
  }

  /** The argument walk over two types, step by step. */
  lemma Typed2(t0: nat, t1: nat, a: Option<Arguments>)
    ensures Typed([t0, t1], a)
         == if a.None? || !Fits(t0, First(a.value)) || Next(a.value).None? ||
             !Fits(t1, First(Next(a.value).value)) then None
            else Some([Argument(t0, First(a.value)), Argument(t1, First(Next(a.value).value))])
  {
    assert [t0, t1][1..] == [t1] && [t1][1..] == [];
    if a.Some? && Next(a.value).Some? {
      var b := Next(a.value);
      assert [Argument(t1, First(b.value))] + [] == [Argument(t1, First(b.value))];
      assert Typed([], Next(b.value)) == Some([]);
      assert Typed([t1], b) == if !Fits(t1, First(b.value)) then None else Some([Argument(t1, First(b.value))]);
      assert [Argument(t0, First(a.value))] + [Argument(t1, First(b.value))] ==
           [Argument(t0, First(a.value)), Argument(t1, First(b.value))];
    }
  }

  lemma Typed3(t0: nat, t1: nat, t2: nat, a: Option<Arguments>)
    ensures Typed([t0, t1, t2], a)
         == if a.None? || !Fits(t0, First(a.value)) then None
            else if Next(a.value).None? || !Fits(t1, First(Next(a.value).value)) then None
            else
              var b := Next(a.value).value;
              if Next(b).None? || !Fits(t2, First(Next(b).value)) then None
              else Some([Argument(t0, First(a.value)), Argument(t1, First(b)), Argument(t2, First(Next(b).value))])
  {
    assert [t0, t1, t2][1..] == [t1, t2];
    if a.Some? {
      Typed2(t1, t2, Next(a.value));
      var rest := Typed([t1, t2], Next(a.value));
      if rest.Some? {
        assert [Argument(t0, First(a.value))] + rest.value ==
             [Argument(t0, First(a.value)), rest.value[0], rest.value[1]];
      }
    }
  }

  function Operate(c: Call): Option<Script> {
    var args := Typed(Signature(c.name), c.right);
    if args.None? then None else Some(Script(c.name, args.value))
  }

  function Copies<T>(n: nat, x: T): (s: seq<T>)
    ensures |s| == n && forall i :: 0 <= i < n ==> s[i] == x
  {
    if n == 0 then [] else [x] + Copies(n - 1, x)
  }

  /** The scripts of a text: one per call, but each of them made from the first call. */
  function Parse(data: string): seq<Option<Script>> {
    var calls := Calls(Input(None, data), []);
    if calls.None? || calls.value == [] || !Known(calls.value[0].name) then []
    else Copies(|calls.value|, Operate(calls.value[0]))
  }
}
