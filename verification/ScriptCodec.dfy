/** The binary form of scripts, written and read back into a script object that may already hold something. */
module ScriptCodec {
  import opened U64
  import opened Wrappers
  import opened Bytes
  import opened TokenSpec
  import opened ParseSpec

  const TWO32 := 0x1_0000_0000

  /** An argument as it lies in memory; a new one has no value yet. */
  datatype Cell = Cell(typ: nat, value: Option<Value>)

  /** Four bytes of length, then the text. */
  function ESlice(s: string): string {
    LE(|s|, 4) + s
  }

  /** The text at the front of `data`, and what follows it. What is left is counted in 32 bits. */
  function DSlice(data: string): Option<(string, string)> {
    if |data| < 4 then None
    else
      var n := FromLE(data[..4]);
      if (|data| - 4) % TWO32 < n then None else Some((data[4..4 + n], data[4 + n..]))
  }

  function ShowCell(a: Cell): string {
    LE(a.typ, 4) + match a.value
                   case None => ""
                   case Some(Number(n)) => LE(n, 8)
                   case Some(Text(s)) => ESlice(s)
  }

  function ShowCells(args: seq<Cell>): string {
    if args == [] then "" else ShowCell(args[0]) + ShowCells(args[1..])
  }

  /** The number of arguments, which is written as 32 bits, the name, and that many arguments. */
  function ShowScript(name: string, args: seq<Cell>): string {
    LE(|args|, 4) + ESlice(name) + ShowCells(args[..|args| % TWO32])
  }

  /**
   * What reading makes of the argument `a`, and what it leaves to read. An unknown type keeps the value and
   * reads nothing more.
   */
  function ReadCell(a: Cell, data: string): (Cell, Option<string>) {
    if |data| < 4 then (a, None)
    else
      var typ := FromLE(data[..4]);
      if IsNumeric(typ) then
        if |data| < 12 || FromLE(data[4..12]) >= TWO64 then (Cell(typ, a.value), None)
        else (Cell(typ, Some(Number(FromLE(data[4..12])))), Some(data[12..]))
      else if typ <= PERCENTAGE then
        var d := DSlice(data[4..]);
        if d.None? then (Cell(typ, a.value), None) else (Cell(typ, Some(Text(d.value.0))), Some(d.value.1))
      else (Cell(typ, a.value), Some(data))
  }

  /** Reads the arguments `i` to `n` in place. */
  function ReadCells(args: seq<Cell>, i: nat, n: nat, data: string): (r: (seq<Cell>, Option<string>))
    requires i <= n <= |args|
    ensures |r.0| == |args|
    decreases n - i
  {
    if i == n then (args, Some(data))
    else
      var (a, rest) := ReadCell(args[i], data);
      if rest.None? then (args[i := a], None) else ReadCells(args[i := a], i + 1, n, rest.value)
  }

  function Fresh(n: nat): (s: seq<Cell>)
    ensures |s| == n
  {
    seq(n, _ => Cell(0, None))
  }

  /** The arguments to read into: new ones unless there are enough, counted in 32 bits. */
  function Room(args: seq<Cell>, n: nat): (r: seq<Cell>) {
    if |args| % TWO32 < n then Fresh(n) else args
  }

  /** The name and arguments that reading leaves in an object, and what it leaves to read, if it succeeds. */
  function ReadScript(name: string, args: seq<Cell>, data: string): (string, seq<Cell>, Option<string>) {
    if |data| < 4 then (name, args, None)
    else
      var n, d := FromLE(data[..4]), DSlice(data[4..]);
      if d.None? then (name, args, None)
      else
        var r := ReadCells(Room(args, n), 0, n, d.value.1);
        (d.value.0, r.0, r.1)
  }

  lemma Regroup(a: string, b: string, c: string)
    ensures a + b + c == a + (b + c)
  {
  }

  lemma RegroupFour(a: string, b: string, c: string, d: string)
    ensures a + b + c + d == a + (b + (c + d))
  {
  }

  lemma Front(h: string, t: string)
    ensures (h + t)[..|h|] == h && (h + t)[|h|..] == t
  {
  }

  lemma {:induction false} ShowCellsSnoc(args: seq<Cell>, a: Cell)
    ensures ShowCells(args + [a]) == ShowCells(args) + ShowCell(a)
  {
    if args == [] {
      assert [a][1..] == [] && ShowCells([]) == "";
      assert ShowCells([a]) == ShowCell(a) + "";
    } else {
      ShowCellsSnoc(args[1..], a);
      assert (args + [a])[1..] == args[1..] + [a];
      Regroup(ShowCell(args[0]), ShowCells(args[1..]), ShowCell(a));
    }
  }

  // -------------------------------------------------------------------- methods

  class ScriptObject {
    var name: string
    var args: seq<Cell>

    constructor ()
      ensures name == "" && args == []
    {
      name, args := "", [];
    }

    method ShowBytes() returns (buf: string)
      ensures buf == ShowScript(name, args)
    {
      var n := |args| % TWO32;
      buf := LE(|args|, 4) + ESlice(name);
      ghost var head := buf;
      for i := 0 to n
        invariant buf == head + ShowCells(args[..i])
      {
        ShowCellsSnoc(args[..i], args[i]);
        assert args[..i + 1] == args[..i] + [args[i]];
        Regroup(head, ShowCells(args[..i]), ShowCell(args[i]));
        buf := buf + ShowCell(args[i]);
      }
    }

    method ReadBytes(data: string) returns (rest: Option<string>)
      modifies this
      ensures (name, args, rest) == ReadScript(old(name), old(args), data)
    {
      if |data| < 4 {
        return None;
      }
      var n, d := FromLE(data[..4]), DSlice(data[4..]);
      if d.None? {
        return None;
      }
      name := d.value.0;
      var left := d.value.1;
      if |args| % TWO32 < n {
        args := Fresh(n);
      }
      ghost var start := args;
      for i := 0 to n
        invariant name == d.value.0 && n <= |args|
        invariant ReadCells(args, i, n, left) == ReadCells(start, 0, n, d.value.1)
      {
        var a, r := ReadArgument(args[i], left);
        args := args[i := a];
        if r.None? {
          return None;
        }
        left := r.value;
      }
      return Some(left);
    }
  }

  /** The bytes are a written argument, and what follows it. */
  predicate Starts(data: string, c: Cell, tail: string) {
    WellTyped(c) && data == ShowCell(c) + tail
  }

  method ReadArgument(a: Cell, data: string) returns (b: Cell, rest: Option<string>)
    ensures forall c, tail :: Starts(data, c, tail) && CellFits(c, |tail|) ==> b == c && rest == Some(tail)
    ensures forall c, tail :: Starts(data, c, tail) && !CellFits(c, |tail|) ==> rest == None
    ensures (b, rest) == ReadCell(a, data)
  {
    forall c, tail | Starts(data, c, tail)
      ensures if CellFits(c, |tail|) then ReadCell(a, data) == (c, Some(tail)) else ReadCell(a, data).1 == None
    {
      CellRoundTrip(c, a, tail);
    }
    hide Starts, CellFits;
    b := a;
    if |data| < 4 {
      return b, None;
    }
    b := b.(typ := FromLE(data[..4]));
    if IsNumeric(b.typ) {
      var left := data[4..];
      if |left| < 8 {
        return b, None;
      }
      assert left[..8] == data[4..12] && left[8..] == data[12..];
      var n := FromLE(left[..8]);
      if n >= TWO64 {
        return b, None;
      }
      return b.(value := Some(Number(n))), Some(left[8..]);
    } else if b.typ <= PERCENTAGE {
      var d := DSlice(data[4..]);
      if d.None? {
        return b, None;
      }
      return b.(value := Some(Text(d.value.0))), Some(d.value.1);
    }
    return b, Some(data);
  }

  // ------------------------------------------------------------------ round trip

  /** The value has the type it claims, and its text, if it is one, a length that fits 32 bits. */
  predicate WellTyped(a: Cell) {
    a.typ <= PERCENTAGE && a.value.Some? && Fits(a.typ, a.value.value) &&
        (a.value.value.Text? ==> |a.value.value.s| < TWO32)
  }

  predicate AllWellTyped(args: seq<Cell>) {
    forall i :: 0 <= i < |args| ==> WellTyped(args[i])
  }

  /** A text of `n` bytes with `r` more behind it: cut to 32 bits, what is left still holds it. */
  predicate SliceFits(n: nat, r: nat) {
    (n + r) % TWO32 >= n
  }

  lemma SliceRoundTrip(s: string, rest: string)
    requires |s| < TWO32
    ensures DSlice(ESlice(s) + rest) == if SliceFits(|s|, |rest|) then Some((s, rest)) else None
  {
    Pow256Of8();
    LERoundTrip(|s|, 4);
    hide LE, FromLE;
    var data := ESlice(s) + rest;
    assert data[..4] == LE(|s|, 4) && data[4..4 + |s|] == s && data[4 + |s|..] == rest;
  }

  /** The written argument is read back when `r` bytes follow it. */
  predicate CellFits(a: Cell, r: nat) {
    a.value.Some? && a.value.value.Text? ==> SliceFits(|a.value.value.s|, r)
  }

  predicate CellsFit(args: seq<Cell>, r: nat) {
    args == [] || (CellFits(args[0], |ShowCells(args[1..])| + r) && CellsFit(args[1..], r))
  }

  /** Each text of the script is within what is left to read, cut to 32 bits, when `r` bytes follow the script. */
  predicate ScriptFits(name: string, args: seq<Cell>, r: nat) {
    SliceFits(|name|, |ShowCells(args)| + r) && CellsFit(args, r)
  }

  lemma ReadNumber(was: Cell, head: string, body: string, rest: string)
    requires |head| == 4 && IsNumeric(FromLE(head)) && |body| == 8 && FromLE(body) < TWO64
    ensures ReadCell(was, head + (body + rest)) == (Cell(FromLE(head), Some(Number(FromLE(body)))), Some(rest))
  {
    var data := head + (body + rest);
    assert data[..4] == head && data[4..12] == body && data[12..] == rest;
  }

  lemma ReadText(was: Cell, head: string, s: string, rest: string)
    requires |head| == 4 && FromLE(head) <= PERCENTAGE && !IsNumeric(FromLE(head)) && |s| < TWO32
    ensures var r := ReadCell(was, head + (ESlice(s) + rest));
            if SliceFits(|s|, |rest|) then r == (Cell(FromLE(head), Some(Text(s))), Some(rest)) else r.1 == None
  {
    Front(head, ESlice(s) + rest);
    SliceRoundTrip(s, rest);
  }

  lemma CellRoundTrip(a: Cell, was: Cell, rest: string)
    requires WellTyped(a)
    ensures var r := ReadCell(was, ShowCell(a) + rest);
            if CellFits(a, |rest|) then r == (a, Some(rest)) else r.1 == None
  {
    Pow256Of8();
    LERoundTrip(a.typ, 4);
    match a.value.value
    case Number(n) =>
      LERoundTrip(n, 8);
      Regroup(LE(a.typ, 4), LE(n, 8), rest);
      ReadNumber(was, LE(a.typ, 4), LE(n, 8), rest);
    case Text(s) =>
      Regroup(LE(a.typ, 4), ESlice(s), rest);
      ReadText(was, LE(a.typ, 4), s, rest);
  }

  /** `was` with `args` in place of its elements from `i` on. */
  function Over(was: seq<Cell>, i: nat, args: seq<Cell>): (r: seq<Cell>)
    requires i + |args| <= |was|
    ensures |r| == |was| && forall j :: 0 <= j < |r| ==> r[j] == if i <= j < i + |args| then args[j - i] else was[j]
  {
    was[..i] + args + was[i + |args|..]
  }

  lemma OverStep(was: seq<Cell>, i: nat, args: seq<Cell>)
    requires args != [] && i + |args| <= |was|
    ensures Over(was[i := args[0]], i + 1, args[1..]) == Over(was, i, args)
  {
  }

  lemma {:induction false} CellsRoundTrip(was: seq<Cell>, i: nat, n: nat, args: seq<Cell>, rest: string)
    requires i + |args| == n <= |was| && AllWellTyped(args)
    ensures var r := ReadCells(was, i, n, ShowCells(args) + rest);
            if CellsFit(args, |rest|) then r == (Over(was, i, args), Some(rest)) else r.1 == None
    decreases |args|
  {
    hide ReadCell, ShowCell, WellTyped, CellFits;
    if args == [] {
      Front("", rest);
      assert Over(was, i, args) == was;
    } else {
      var a, data, tail := args[0], ShowCells(args) + rest, ShowCells(args[1..]) + rest;
      Regroup(ShowCell(a), ShowCells(args[1..]), rest);
      CellRoundTrip(a, was[i], tail);
      CellsRoundTrip(was[i := a], i + 1, n, args[1..], rest);
      OverStep(was, i, args);
    }
  }

  /** `args`, followed by what `was` holds beyond their number, unless it was replaced. */
  function Merged(was: seq<Cell>, args: seq<Cell>): seq<Cell> {
    args + if |was| % TWO32 < |args| then [] else was[|args|..]
  }

  lemma OverAll(was: seq<Cell>, args: seq<Cell>)
    ensures |args| <= |Room(was, |args|)| && Over(Room(was, |args|), 0, args) == Merged(was, args)
  {
    if |was| % TWO32 < |args| {
      assert Fresh(|args|)[..0] == [] && Fresh(|args|)[|args|..] == [];
      assert [] + args + [] == args && args + [] == args;
    } else {
      assert was[..0] + args == args;
    }
  }

  lemma ShowForm(name: string, args: seq<Cell>, rest: string)
    requires |args| < TWO32
    ensures ShowScript(name, args) + rest == LE(|args|, 4) + (ESlice(name) + (ShowCells(args) + rest))
  {
    assert |args| % TWO32 == |args| && args[..|args|] == args;
    RegroupFour(LE(|args|, 4), ESlice(name), ShowCells(args), rest);
  }

  /**
   * Reading what was written gives back the name, the rest of the bytes, and the arguments,
   * followed by those the object already had beyond their number; or it fails, just if a text does not fit.
   */
  lemma ReadShow(oldName: string, oldArgs: seq<Cell>, name: string, args: seq<Cell>, rest: string)
    requires |name| < TWO32 && |args| < TWO32 && AllWellTyped(args)
    ensures var r := ReadScript(oldName, oldArgs, ShowScript(name, args) + rest);
            if ScriptFits(name, args, |rest|) then r == (name, Merged(oldArgs, args), Some(rest)) else r.2 == None
  {
    Pow256Of8();
    var n, tail := |args|, ShowCells(args) + rest;
    LERoundTrip(n, 4);
    hide LE, FromLE, ESlice, DSlice, ReadCells, CellsFit, SliceFits;
    ShowForm(name, args, rest);
    Front(LE(n, 4), ESlice(name) + tail);
    SliceRoundTrip(name, tail);
    OverAll(oldArgs, args);
    CellsRoundTrip(Room(oldArgs, n), 0, n, args, rest);
  }

  /**
   * So an object becomes what was written if and only if each text fits, and the object had no more arguments than
   * that, or so many that their number cut to 32 bits is smaller.
   */
  lemma RoundTripIff(oldName: string, oldArgs: seq<Cell>, name: string, args: seq<Cell>, rest: string)
    requires |name| < TWO32 && |args| < TWO32 && AllWellTyped(args)
    ensures ReadScript(oldName, oldArgs, ShowScript(name, args) + rest) == (name, args, Some(rest)) <==>
              ScriptFits(name, args, |rest|) && (|oldArgs| <= |args| || |oldArgs| % TWO32 < |args|)
  {
    hide *;
    ReadShow(oldName, oldArgs, name, args, rest);
    MergedIff(oldArgs, args);
  }

  lemma MergedIff(was: seq<Cell>, args: seq<Cell>)
    ensures Merged(was, args) == args <==> |was| <= |args| || |was| % TWO32 < |args|
  {
    if |was| % TWO32 < |args| {
      assert args + [] == args;
    } else if |was| >= |args| {
      assert |args + was[|args|..]| == |was|;
      assert |was| == |args| ==> args + was[|args|..] == args;
    }
  }

  /** Every text fits if all there is to read is shorter than 2^32 bytes. */
  lemma ShortFits(name: string, args: seq<Cell>, r: nat)
    requires |ShowScript(name, args)| + r < TWO32 && |args| < TWO32
    ensures ScriptFits(name, args, r)
  {
    ShowForm(name, args, "");
    ShortCellsFit(args, r);
  }

  lemma {:induction false} ShortCellsFit(args: seq<Cell>, r: nat)
    requires |ShowCells(args)| + r < TWO32
    ensures CellsFit(args, r)
  {
    if args != [] {
      assert |ShowCells(args)| == |ShowCell(args[0])| + |ShowCells(args[1..])|;
      ShortCellsFit(args[1..], r);
    }
  }

  // ---------------------------------------------------------------- prefix codes

  lemma SliceFirst(s: string, x: string, s': string, x': string)
    requires |s| < TWO32 && |s'| < TWO32 && ESlice(s) + x == ESlice(s') + x'
    ensures s == s' && x == x'
  {
    Pow256Of8();
    LERoundTrip(|s|, 4);
    LERoundTrip(|s'|, 4);
    hide LE, FromLE;
    var a, b := ESlice(s) + x, ESlice(s') + x';
    assert a[..4] == LE(|s|, 4) && b[..4] == LE(|s'|, 4);
    assert a[4..4 + |s|] == s && b[4..4 + |s'|] == s';
    assert a[4 + |s|..] == x && b[4 + |s'|..] == x';
  }

  function Body(v: Value): string {
    match v
    case Number(n) => LE(n, 8)
    case Text(s) => ESlice(s)
  }

  lemma BodyFirst(v: Value, x: string, v': Value, x': string)
    requires v.Number? == v'.Number? && Body(v) + x == Body(v') + x'
    requires (v.Text? ==> |v.s| < TWO32) && (v'.Text? ==> |v'.s| < TWO32)
    ensures v == v' && x == x'
  {
    match v
    case Number(n) =>
      Pow256Of8();
      LERoundTrip(n, 8);
      LERoundTrip(v'.n, 8);
      Front(Body(v), x);
      Front(Body(v'), x');
    case Text(s) => SliceFirst(s, x, v'.s, x');
  }

  lemma CellFirst(a: Cell, x: string, a': Cell, x': string)
    requires WellTyped(a) && WellTyped(a') && ShowCell(a) + x == ShowCell(a') + x'
    ensures a == a' && x == x'
  {
    Pow256Of8();
    LERoundTrip(a.typ, 4);
    LERoundTrip(a'.typ, 4);
    var v, v' := a.value.value, a'.value.value;
    assert ShowCell(a) == LE(a.typ, 4) + Body(v) && ShowCell(a') == LE(a'.typ, 4) + Body(v');
    hide LE, FromLE, ShowCell, Body, Pow256;
    Regroup(LE(a.typ, 4), Body(v), x);
    Regroup(LE(a'.typ, 4), Body(v'), x');
    Front(LE(a.typ, 4), Body(v) + x);
    Front(LE(a'.typ, 4), Body(v') + x');
    BodyFirst(v, x, v', x');
  }

  lemma {:induction false} CellsFirst(args: seq<Cell>, x: string, args': seq<Cell>, x': string)
    requires AllWellTyped(args) && AllWellTyped(args') && |args| == |args'|
    requires ShowCells(args) + x == ShowCells(args') + x'
    ensures args == args' && x == x'
    decreases |args|
  {
    hide ShowCell, WellTyped;
    if args == [] {
      Front("", x);
      Front("", x');
    } else {
      Regroup(ShowCell(args[0]), ShowCells(args[1..]), x);
      Regroup(ShowCell(args'[0]), ShowCells(args'[1..]), x');
      CellFirst(args[0], ShowCells(args[1..]) + x, args'[0], ShowCells(args'[1..]) + x');
      CellsFirst(args[1..], x, args'[1..], x');
      assert args == [args[0]] + args[1..] && args' == [args'[0]] + args'[1..];
    }
  }

  /** No written script is the beginning of another, whatever their lengths. */
  lemma ShowPrefixFree(name: string, args: seq<Cell>, rest: string, name': string, args': seq<Cell>, rest': string)
    requires |name| < TWO32 && |args| < TWO32 && AllWellTyped(args)
    requires |name'| < TWO32 && |args'| < TWO32 && AllWellTyped(args')
    requires ShowScript(name, args) + rest == ShowScript(name', args') + rest'
    ensures name == name' && args == args' && rest == rest'
  {
    Pow256Of8();
    LERoundTrip(|args|, 4);
    LERoundTrip(|args'|, 4);
    hide LE, FromLE, ESlice, ShowCells;
    ShowForm(name, args, rest);
    ShowForm(name', args', rest');
    var t, t' := ESlice(name) + (ShowCells(args) + rest), ESlice(name') + (ShowCells(args') + rest');
    Front(LE(|args|, 4), t);
    Front(LE(|args'|, 4), t');
    SliceFirst(name, ShowCells(args) + rest, name', ShowCells(args') + rest');
    CellsFirst(args, rest, args', rest');
  }

  // -------------------------------------------------------------- parsed scripts

  function CellsOf(args: seq<Argument>): (s: seq<Cell>)
    ensures |s| == |args| && forall i :: 0 <= i < |s| ==> s[i] == Cell(args[i].typ, Some(args[i].value))
  {
    seq(|args|, i requires 0 <= i < |args| => Cell(args[i].typ, Some(args[i].value)))
  }

  lemma {:induction false} TypedArguments(typs: seq<nat>, a: Option<Arguments>)
    requires Typed(typs, a).Some?
    ensures |Typed(typs, a).value| == |typs|
    ensures forall i :: 0 <= i < |typs| ==>
              Typed(typs, a).value[i].typ == typs[i] && Fits(typs[i], Typed(typs, a).value[i].value)
    decreases |typs|
  {
    if typs != [] {
      TypedArguments(typs[1..], Next(a.value));
    }
  }

  /** A script made of a parsed call survives being written and read if and only if its texts fit. */
  lemma ParsedSurvives(c: Call, rest: string)
    requires Operate(c).Some? && |c.name| < TWO32
    requires forall i :: 0 <= i < |Operate(c).value.args| && Operate(c).value.args[i].value.Text? ==>
                           |Operate(c).value.args[i].value.s| < TWO32
    ensures var sc := Operate(c).value;
            ReadScript("", [], ShowScript(sc.name, CellsOf(sc.args)) + rest) ==
                (sc.name, CellsOf(sc.args), Some(rest)) <==>
            ScriptFits(sc.name, CellsOf(sc.args), |rest|)
  {
    TypedArguments(Signature(c.name), c.right);
    RoundTripIff("", [], c.name, CellsOf(Operate(c).value.args), rest);
  }

  /** The bytes of a whole script, one by one: `mint "ab" 258`. */
  lemma MintBytes()
    ensures ShowScript("mint", [Cell(TOKENID, Some(Text("ab"))), Cell(AMOUNT, Some(Number(258)))])
         == [2 as char, 0 as char, 0 as char, 0 as char] + [4 as char, 0 as char, 0 as char, 0 as char] + "mint"
            + [3 as char, 0 as char, 0 as char, 0 as char] + [2 as char, 0 as char, 0 as char, 0 as char] + "ab"
            + [1 as char, 0 as char, 0 as char, 0 as char]
            + [2 as char, 1 as char, 0 as char, 0 as char, 0 as char, 0 as char, 0 as char, 0 as char]
  {
    hide LE, ShowCells;
    var symbol, amount := Cell(TOKENID, Some(Text("ab"))), Cell(AMOUNT, Some(Number(258)));
    TwoCells(symbol, amount);
    SmallLE(2);
    SmallLE(4);
    SmallLE(3);
    SmallLE(1);
    AmountLE();
    assert [symbol, amount][..2] == [symbol, amount];
    Regroup(LE(2, 4), ESlice("mint"), ShowCell(symbol) + ShowCell(amount));
  }

  lemma TwoCells(a: Cell, b: Cell)
    ensures ShowCells([a, b]) == ShowCell(a) + ShowCell(b)
  {
    assert [a, b][1..] == [b] && [b][1..] == [];
    assert ShowCells([b]) == ShowCell(b) + "";
  }

  lemma SmallLE(n: nat)
    requires n < 256
    ensures LE(n, 4) == [n as char, 0 as char, 0 as char, 0 as char]
  {
    assert LE(0, 1) == [0 as char];
    assert LE(0, 2) == [0 as char, 0 as char];
    assert LE(0, 3) == [0 as char, 0 as char, 0 as char];
  }

  lemma AmountLE()
    ensures LE(258, 8) == [2 as char, 1 as char, 0 as char, 0 as char, 0 as char, 0 as char, 0 as char, 0 as char]
  {
    SmallLE(0);
    assert LE(0, 5) == [0 as char, 0 as char, 0 as char, 0 as char, 0 as char];
    assert LE(0, 6) == [0 as char, 0 as char, 0 as char, 0 as char, 0 as char, 0 as char];
    assert LE(1, 7) == [1 as char] + LE(0, 6);
  }

  /** An argument of unknown type is not passed over: from there on each gets that type and keeps its value. */
  lemma {:induction false} UnknownStalls(args: seq<Cell>, i: nat, n: nat, data: string)
    requires i <= n <= |args| && |data| >= 4 && FromLE(data[..4]) > 4
    ensures ReadCells(args, i, n, data).1 == Some(data)
    ensures forall j :: 0 <= j < |args| ==>
              ReadCells(args, i, n, data).0[j] ==
              if i <= j < n then Cell(FromLE(data[..4]), args[j].value) else args[j]
    decreases n - i
  {
    hide FromLE, DSlice;
    if i < n {
      UnknownStalls(args[i := Cell(FromLE(data[..4]), args[i].value)], i + 1, n, data);
    }
  }

  /** Bytes that end within the count or the name leave the object as it was. */
  lemma CutOffChangesNothing(name: string, args: seq<Cell>, data: string)
    requires |data| < 8 || (|data| - 8) % TWO32 < FromLE(data[4..8])
    ensures ReadScript(name, args, data) == (name, args, None)
  {
    hide FromLE;
    if |data| >= 8 {
      assert data[4..][..4] == data[4..8];
    }
  }
}
