/** The parser and the argument walker as the source runs them. */
module Parser {
  import opened Wrappers
  import opened LexSpec
  import opened Lexer
  import opened TokenSpec
  import opened ParseSpec

  class ScriptParser {
    const wt: Lexer.Lex
    const buffer: array<Option<Token>>
    var cnt: nat
    var ns: seq<Call>

    ghost predicate Valid()
      reads this, buffer, wt, wt.buffer, wt.roll
    {
      && wt.Valid() && buffer.Length == ROLLSIZE && cnt <= 1
      && (cnt == 1 ==> buffer[0].Some?)
    }

    ghost function State(): Input
      requires Valid()
      reads this, buffer, wt, wt.buffer, wt.roll
    {
      Input(if cnt == 1 then buffer[0] else None, wt.Text())
    }

    constructor (data: string)
      ensures Valid() && State() == Input(None, data) && ns == []
      ensures fresh(wt) && fresh(wt.buffer) && fresh(wt.roll) && fresh(buffer)
    {
      wt := new Lexer.Lex(data);
      buffer := new Option<Token>[ROLLSIZE](_ => None);
      cnt, ns := 0, [];
    }

    method Getw() returns (w: Option<Token>)
      requires Valid()
      modifies this`cnt, buffer, wt, wt.buffer, wt.roll
      ensures Valid() && cnt == 0 && (w.Some? ==> buffer[0] == w)
      ensures (w, State()) == GetW(old(State()))
    {
      if cnt > 0 {
        cnt := cnt - 1;
        return buffer[cnt];
      }
      var o := wt.Symbol();
      if o == EOF || o == ERR {
        return None;
      }
      buffer[0] := Some(wt.curr);
      return buffer[0];
    }

    method Ungetw()
      requires Valid() && cnt == 0 && buffer[0].Some?
      modifies this`cnt
      ensures Valid() && State() == Input(buffer[0], old(State()).rest)
    {
      if cnt < ROLLSIZE {
        cnt := cnt + 1;
      }
    }

    method PeekWord() returns (w: Option<Token>)
      requires Valid()
      modifies this`cnt, buffer, wt, wt.buffer, wt.roll
      ensures Valid() && (w, State()) == Peek(old(State()))
    {
      w := Getw();
      if w.Some? {
        Ungetw();
      }
    }

    method Primary() returns (v: Option<Value>)
      requires Valid()
      modifies this`cnt, buffer, wt, wt.buffer, wt.roll
      ensures Valid() && Parser2(old(State())) == if v.Some? then Parsed(v.value, State()) else Failed
    {
      var w := PeekWord();
      if w.Some? && w.value.Int? {
        var number := Getw();
        return Some(Number(number.value.n));
      }
      w := PeekWord();
      if w.Some? && w.value.Str? {
        var text := Getw();
        return Some(Text(text.value.s));
      }
      return None;
    }

    method ArgumentList() returns (n: Option<Arguments>)
      requires Valid()
      modifies this`cnt, buffer, wt, wt.buffer, wt.roll
      ensures Valid() && Parser1(old(State())) == if n.Some? then Parsed(n.value, State()) else Failed
      decreases Size(State())
    {
      var n1 := Primary();
      if n1.None? {
        return None;
      }
      var w := PeekWord();
      if w.None? {
        var skipped := Getw();
        return Some(One(n1.value));
      }
      w := PeekWord();
      if w.value.Word? {
        return None;
      }
      var n2 := ArgumentList();
      if n2.None? {
        return None;
      }
      return Some(EList(n1.value, n2.value));
    }

    method FunctionCall() returns (n: Option<Call>)
      requires Valid()
      modifies this`cnt, buffer, wt, wt.buffer, wt.roll
      ensures Valid() && Parser0(old(State())) == if n.Some? then Parsed(n.value, State()) else Failed
    {
      var w := PeekWord();
      if w.None? || !w.value.Word? {
        return None;
      }
      var name := Getw();
      w := PeekWord();
      if w.None? {
        var skipped := Getw();
        return Some(Call(name.value.name, None));
      }
      var n2 := ArgumentList();
      if n2.None? {
        return None;
      }
      return Some(Call(name.value.name, Some(n2.value)));
    }

    /** Appends all calls of the text to `ns`; fails at the first word that starts none. */
    method Run() returns (ok: bool)
      requires Valid()
      modifies this, buffer, wt, wt.buffer, wt.roll
      ensures Valid() && Calls(old(State()), old(ns)) == if ok then Some(ns) else None
    {
      while true
        invariant Valid() && Calls(State(), ns) == Calls(old(State()), old(ns))
        decreases Size(State())
      {
        var w := PeekWord();
        if w.None? {
          return true;
        }
        if !w.value.Word? {
          return false;
        }
        var node := FunctionCall();
        if node.None? {
          return false;
        }
        ns := ns + [node.value];
      }
    }
  }

  // ---------------------------------------------------------------- arguments

  /** Appends one argument of a type, if it has that type. */
  method TakeArgument(typ: nat, np: Arguments, args: seq<Argument>) returns (ok: bool, r: seq<Argument>)
    ensures ok == Fits(typ, First(np))
    ensures r == if ok then args + [Argument(typ, First(np))] else args
  {
    var arg := First(np);
    if IsNumeric(typ) != arg.Number? {
      return false, args;
    }
    return true, args + [Argument(typ, arg)];
  }

  method Operate0(np: Option<Arguments>) returns (s: Option<Script>)
    ensures s == Operate(Call("new", np))
  {
    Typed3(TOKENID, AMOUNT, AMOUNT, np);
    if np.None? {
      return None;
    }
    var ok, args := TakeArgument(TOKENID, np.value, []);
    if !ok {
      return None;
    }
    var np1 := Next(np.value);
    if np1.None? {
      return None;
    }
    ok, args := TakeArgument(AMOUNT, np1.value, args);
    if !ok {
      return None;
    }
    var np2 := Next(np1.value);
    if np2.None? {
      return None;
    }
    ok, args := TakeArgument(AMOUNT, np2.value, args);
    if !ok {
      return None;
    }
    assert args == [Argument(TOKENID, First(np.value)), Argument(AMOUNT, First(np1.value)),
         Argument(AMOUNT, First(np2.value))];
    return Some(Script("new", args));
  }

  method Operate1(np: Option<Arguments>) returns (s: Option<Script>)
    ensures s == Operate(Call("mint", np))
  {
    Typed2(TOKENID, AMOUNT, np);
    if np.None? {
      return None;
    }
    var ok, args := TakeArgument(TOKENID, np.value, []);
    if !ok {
      return None;
    }
    var np1 := Next(np.value);
    if np1.None? {
      return None;
    }
    ok, args := TakeArgument(AMOUNT, np1.value, args);
    if !ok {
      return None;
    }
    assert args == [Argument(TOKENID, First(np.value)), Argument(AMOUNT, First(np1.value))];
    return Some(Script("mint", args));
  }

  method Operate2(np: Option<Arguments>) returns (s: Option<Script>)
    ensures s == Operate(Call("transfer", np))
  {
    Typed3(TOKENID, AMOUNT, ADDRESS, np);
    if np.None? {
      return None;
    }
    var ok, args := TakeArgument(TOKENID, np.value, []);
    if !ok {
      return None;
    }
    var np1 := Next(np.value);
    if np1.None? {
      return None;
    }
    ok, args := TakeArgument(AMOUNT, np1.value, args);
    if !ok {
      return None;
    }
    var np2 := Next(np1.value);
    if np2.None? {
      return None;
    }
    ok, args := TakeArgument(ADDRESS, np2.value, args);
    if !ok {
      return None;
    }
    assert args == [Argument(TOKENID, First(np.value)), Argument(AMOUNT, First(np1.value)),
         Argument(ADDRESS, First(np2.value))];
    return Some(Script("transfer", args));
  }

  /** The two marks differ in their name alone. */
  method OperateMark(name: string, np: Option<Arguments>) returns (s: Option<Script>)
    requires name == "freeze" || name == "unfreeze"
    ensures s == Operate(Call(name, np))
  {
    Typed2(TOKENID, ADDRESS, np);
    if np.None? {
      return None;
    }
    var ok, args := TakeArgument(TOKENID, np.value, []);
    if !ok {
      return None;
    }
    var np1 := Next(np.value);
    if np1.None? {
      return None;
    }
    ok, args := TakeArgument(ADDRESS, np1.value, args);
    if !ok {
      return None;
    }
    assert args == [Argument(TOKENID, First(np.value)), Argument(ADDRESS, First(np1.value))];
    return Some(Script(name, args));
  }

  lemma {:induction false} CopiesSnoc<T>(n: nat, x: T)
    ensures Copies(n, x) + [x] == Copies(n + 1, x)
  {
    if n > 0 {
      CopiesSnoc(n - 1, x);
    }
  }

  /** Parses a text. The loop runs over the calls found but looks at the first of them each time. */
  method ParseScripts(data: string) returns (xs: seq<Option<Script>>)
    ensures xs == Parse(data)
  {
    xs := [];
    var wp := new ScriptParser(data);
    var parsed := wp.Run();
    if !parsed {
      return;
    }
    var calls := wp.ns;
    var j := |calls|;
    for i := 0 to j
      invariant i > 0 ==> xs == Copies(i, Operate(calls[0]))
      invariant i == 0 ==> xs == []
      invariant i > 0 ==> Known(calls[0].name)
    {
      var name := calls[0].name;
      var s;
      if name == "new" {
        s := Operate0(calls[0].right);
      } else if name == "mint" {
        s := Operate1(calls[0].right);
      } else if name == "transfer" {
        s := Operate2(calls[0].right);
      } else if name == "freeze" || name == "unfreeze" {
        s := OperateMark(name, calls[0].right);
      } else {
        return [];
      }
      CopiesSnoc(i, s);
      xs := xs + [s];
    }
  }
}
