/** The script texts the node's API prints, and that parsing gives back exactly what was printed. */
module ScriptText {
  import opened U64
  import opened Wrappers
  import opened LexSpec
  import opened TokenSpec
  import opened ParseSpec

  /** `new "SYMBOL" TOTAL PRECISION` */
  function NewText(symbol: string, total: u64, precision: u64): string {
    "new \"" + symbol + "\" " + Dec(total) + " " + Dec(precision)
  }

  /** `mint "SYMBOL" TOTAL` */
  function MintText(symbol: string, total: u64): string {
    "mint \"" + symbol + "\" " + Dec(total)
  }

  /** `transfer "SYMBOL" AMOUNT "TO"` */
  function TransferText(symbol: string, amount: u64, to: string): string {
    "transfer \"" + symbol + "\" " + Dec(amount) + " \"" + to + "\""
  }

  function NewScript(symbol: string, total: u64, precision: u64): Script {
    Script("new", [Argument(TOKENID, Text(symbol)), Argument(AMOUNT, Number(total)),
        Argument(AMOUNT, Number(precision))])
  }

  function MintScript(symbol: string, total: u64): Script {
    Script("mint", [Argument(TOKENID, Text(symbol)), Argument(AMOUNT, Number(total))])
  }

  function TransferScript(symbol: string, amount: u64, to: string): Script {
    Script("transfer", [Argument(TOKENID, Text(symbol)), Argument(AMOUNT, Number(amount)), Argument(ADDRESS, Text(to))])
  }

  /** Text that can stand between double quotes. */
  predicate Plain(s: string) {
    forall i :: 0 <= i < |s| ==> s[i] != '"' && s[i] != '`' && !IsNewline(s[i])
  }

  // ------------------------------------------------------------------- numbers

  predicate AllDigits(s: string) {
    forall i :: 0 <= i < |s| ==> IsDigit(s[i])
  }

  lemma {:induction false} DecDigits(n: nat)
    ensures Dec(n) != "" && AllDigits(Dec(n)) && InBase(Dec(n), 10) == Some(n)
    ensures n > 0 ==> Dec(n)[0] != '0'
  {
    if n >= 10 {
      DecDigits(n / 10);
      assert Dec(n)[..|Dec(n)| - 1] == Dec(n / 10);
    } else {
      assert Dec(n)[..0] == "";
    }
  }

  /** A run of digits is read to its end. */
  lemma {:induction false} DigitsRun(word: string, ds: string, rest: string)
    requires Numeral(word) && AllDigits(ds) && !NextXDigit(rest)
    ensures Numeral(word + ds) && LexDigits(word, ds + rest) == LexNumber(word + ds, rest)
    decreases |ds|
  {
    if ds == "" {
      assert word + ds == word && ds + rest == rest;
    } else {
      assert (ds + rest)[1..] == ds[1..] + rest && word + [ds[0]] + ds[1..] == word + ds;
      DigitsRun(word + [ds[0]], ds[1..], rest);
    }
  }

  /** What may stand behind a printed number. */
  predicate Ends(rest: string) {
    rest == "" || rest[0] == ' '
  }

  lemma LexDec(n: u64, rest: string)
    requires Ends(rest)
    ensures Lex(Dec(n) + rest) == Tok(Int(n), rest)
  {
    var s := Dec(n);
    DecDigits(n);
    if n == 0 {
    } else {
      LexPositive(s, n, rest);
    }
  }

  lemma LexFromDigit(s: string)
    requires s != "" && IsDigit(s[0])
    ensures Lex(s) == LexDigit(s[0], s[1..])
  {
    hide LexDigit;
  }

  lemma LexPositive(s: string, n: u64, rest: string)
    requires s != "" && AllDigits(s) && s[0] != '0' && InBase(s, 10) == Some(n) && Ends(rest)
    ensures Lex(s + rest) == Tok(Int(n), rest)
  {
    hide Lex, LexDigits, InBase;
    assert (s + rest)[1..] == s[1..] + rest && [s[0]] + s[1..] == s;
    LexFromDigit(s + rest);
    DigitsRun([s[0]], s[1..], rest);
  }

  // --------------------------------------------------------------------- words

  lemma {:induction false} WordRun(word: string, w: string, rest: string)
    requires (forall i :: 0 <= i < |w| ==> IsAlnum(w[i])) && Ends(rest)
    ensures LexWord(word, w + rest) == Tok(Word(word + w), rest)
    decreases |w|
  {
    if w == "" {
      assert word + w == word && w + rest == rest;
    } else {
      assert (w + rest)[1..] == w[1..] + rest && word + [w[0]] + w[1..] == word + w;
      WordRun(word + [w[0]], w[1..], rest);
    }
  }

  predicate IsName(w: string) {
    w != "" && IsAlpha(w[0]) && forall i :: 0 <= i < |w| ==> IsAlnum(w[i])
  }

  lemma LexName(w: string, rest: string)
    requires IsName(w) && Ends(rest)
    ensures Lex(w + rest) == Tok(Word(w), rest)
  {
    assert (w + rest)[1..] == w[1..] + rest && [w[0]] + w[1..] == w;
    WordRun([w[0]], w[1..], rest);
  }

  // ------------------------------------------------------------------- strings

  lemma {:induction false} LiteralRun(read: string, s: string, rest: string)
    requires Plain(s) && '`' !in read
    ensures LexLiteral('"', read, s + "\"" + rest) == Tok(Str(read + s), rest)
    decreases |s|
  {
    var text := s + "\"" + rest;
    if s == "" {
      assert read + s == read && text[1..] == rest;
    } else {
      assert text[1..] == s[1..] + "\"" + rest && read + [s[0]] + s[1..] == read + s;
      LiteralRun(read + [s[0]], s[1..], rest);
    }
  }

  /** A string that was read holds no quote, no newline and no backquote. */
  lemma {:induction false} LiteralPlain(read: string, s: string)
    requires forall i :: 0 <= i < |read| ==> read[i] != '"' && !IsNewline(read[i])
    requires LexLiteral('"', read, s).Tok?
    ensures LexLiteral('"', read, s).t.Str? && Plain(LexLiteral('"', read, s).t.s)
    decreases |s|
  {
    if s[0] != '"' {
      LiteralPlain(read + [s[0]], s[1..]);
    }
  }

  lemma LexQuoted(s: string, rest: string)
    ensures Lex("\"" + s + "\"" + rest) == Tok(Str(s), rest) <==> Plain(s)
    ensures Lex("\"" + s + "\"" + rest).Tok? ==>
              Lex("\"" + s + "\"" + rest).t.Str? && Plain(Lex("\"" + s + "\"" + rest).t.s)
    ensures !Lex("\"" + s + "\"" + rest).End?
  {
    var text := "\"" + s + "\"" + rest;
    assert text[1..] == s + "\"" + rest;
    assert Lex(text) == LexLiteral('"', "", text[1..]);
    if Plain(s) {
      LiteralRun("", s, rest);
      assert "" + s == s;
    }
    if Lex(text).Tok? {
      LiteralPlain("", text[1..]);
    }
  }

  lemma LexSpace(s: string)
    ensures Lex(" " + s) == Lex(s)
  {
    assert (" " + s)[1..] == s;
  }

  // --------------------------------------------------------------------- calls

  function TokenOf(v: Value): Token {
    match v
    case Number(n) => Int(n)
    case Text(s) => Str(s)
  }

  lemma LastArgument(v: Value, rest: string)
    requires Lex(rest).End?
    ensures Parser1(Input(Some(TokenOf(v)), rest)) == Parsed(One(v), Input(None, ""))
  {
    assert Parser2(Input(Some(TokenOf(v)), rest)) == Parsed(v, Input(None, rest));
  }

  lemma MoreArguments(v: Value, rest: string, w: Value, rest': string, args: Arguments, p: Input)
    requires Lex(rest) == Tok(TokenOf(w), rest') && Parser1(Input(Some(TokenOf(w)), rest')) == Parsed(args, p)
    ensures Parser1(Input(Some(TokenOf(v)), rest)) == Parsed(EList(v, args), p)
  {
    assert Parser2(Input(Some(TokenOf(v)), rest)) == Parsed(v, Input(None, rest));
  }

  /** A text of one name and its arguments parses as one call. */
  lemma ParseCall(text: string, name: string, r1: string, v: Value, r2: string, args: Arguments)
    requires Known(name) && Lex(text) == Tok(Word(name), r1) && Lex(r1) == Tok(TokenOf(v), r2)
    requires Parser1(Input(Some(TokenOf(v)), r2)) == Parsed(args, Input(None, ""))
    ensures Parse(text) == [Operate(Call(name, Some(args)))]
  {
    var p1, call := Input(Some(Word(name)), r1), Call(name, Some(args));
    assert Peek(Input(None, r1)) == (Some(TokenOf(v)), Input(Some(TokenOf(v)), r2));
    assert Parser0(p1) == Parsed(call, Input(None, ""));
    assert Calls(Input(None, ""), [call]) == Some([call]);
    assert [] + [call] == [call];
    assert Calls(Input(None, text), []) == Some([call]);
  }

  // ------------------------------------------------------- what was parsed, backwards

  lemma {:induction false} CallsExtend(p: Input, ns: seq<Call>)
    requires Calls(p, ns).Some?
    ensures ns <= Calls(p, ns).value
    decreases Size(p)
  {
    var (t, p1) := Peek(p);
    if t.Some? {
      var r := Parser0(p1);
      CallsExtend(r.p, ns + [r.node]);
    }
  }

  /** The arguments of a script that was parsed are the tokens behind its name. */
  lemma ParsedCall(text: string, name: string, r1: string, sc: Script)
    requires Lex(text) == Tok(Word(name), r1) && Parse(text) == [Some(sc)]
    ensures Lex(r1).Tok?
    ensures Parser1(Input(Some(Lex(r1).t), Lex(r1).rest)).Parsed?
    ensures Typed(Signature(name), Some(Parser1(Input(Some(Lex(r1).t), Lex(r1).rest)).node)) == Some(sc.args)
  {
    var calls := Calls(Input(None, text), []).value;
    var p1 := Input(Some(Word(name)), r1);
    assert Peek(Input(None, text)) == (Some(Word(name)), p1);
    var r := Parser0(p1);
    CallsExtend(r.p, [] + [r.node]);
    assert calls[0] == r.node;
    assert Parse(text)[0] == Operate(r.node) == Some(sc);
  }

  /** One argument of a parsed list is one token, and the others are those behind it. */
  lemma ParsedArgument(t: Token, rest: string)
    requires Parser1(Input(Some(t), rest)).Parsed?
    ensures t == TokenOf(First(Parser1(Input(Some(t), rest)).node))
    ensures Next(Parser1(Input(Some(t), rest)).node).Some? ==>
              Lex(rest).Tok? && Parser1(Input(Some(Lex(rest).t), Lex(rest).rest)).Parsed?
              && Next(Parser1(Input(Some(t), rest)).node).value ==
                   Parser1(Input(Some(Lex(rest).t), Lex(rest).rest)).node
  {
    assert Peek(Input(Some(t), rest)) == (Some(t), Input(Some(t), rest));
    assert Parser2(Input(Some(t), rest)).p == Input(None, rest);
  }

  // ------------------------------------------------------------------ round trips

  /** How every printed text goes on after its name: with a quoted symbol. */
  function Quoted(symbol: string, rest: string): string {
    " \"" + symbol + "\"" + rest
  }

  lemma LexSymbol(symbol: string, rest: string)
    ensures Lex(Quoted(symbol, rest)) == Tok(Str(symbol), rest) <==> Plain(symbol)
    ensures Lex(Quoted(symbol, rest)).Tok? && Lex(Quoted(symbol, rest)).t == Str(symbol) ==> Plain(symbol)
  {
    assert Quoted(symbol, rest) == " " + ("\"" + symbol + "\"" + rest);
    LexSpace("\"" + symbol + "\"" + rest);
    LexQuoted(symbol, rest);
  }

  lemma LexAmount(n: u64, rest: string)
    requires Ends(rest)
    ensures Lex(" " + Dec(n) + rest) == Tok(Int(n), rest)
  {
    assert " " + Dec(n) + rest == " " + (Dec(n) + rest);
    LexSpace(Dec(n) + rest);
    LexDec(n, rest);
  }

  /** A symbol that came back is one that can be quoted. */
  lemma SymbolPlain(text: string, name: string, symbol: string, rest: string, sc: Script)
    requires Lex(text) == Tok(Word(name), Quoted(symbol, rest))
    requires Parse(text) == [Some(sc)] && sc.args != [] && sc.args[0].value == Text(symbol)
    ensures Plain(symbol)
  {
    var r1 := Quoted(symbol, rest);
    ParsedCall(text, name, r1, sc);
    ParsedArgument(Lex(r1).t, Lex(r1).rest);
    LexSymbol(symbol, rest);
  }

  /** `mint` comes back as exactly the script that was printed, if and only if its symbol can be quoted. */
  lemma MintRoundTrip(symbol: string, total: u64)
    ensures Parse(MintText(symbol, total)) == [Some(MintScript(symbol, total))] <==> Plain(symbol)
  {
    var r2 := " " + Dec(total) + "";
    var text := "mint" + Quoted(symbol, r2);
    assert MintText(symbol, total) == text;
    LexName("mint", Quoted(symbol, r2));
    LexSymbol(symbol, r2);
    LexAmount(total, "");
    if Plain(symbol) {
      var a1 := One(Number(total));
      LastArgument(Number(total), "");
      MoreArguments(Text(symbol), r2, Number(total), "", a1, Input(None, ""));
      ParseCall(text, "mint", Quoted(symbol, r2), Text(symbol), r2, EList(Text(symbol), a1));
      Typed2(TOKENID, AMOUNT, Some(EList(Text(symbol), a1)));
    } else if Parse(text) == [Some(MintScript(symbol, total))] {
      SymbolPlain(text, "mint", symbol, r2, MintScript(symbol, total));
    }
  }

  /** `new` comes back as exactly the script that was printed, if and only if its symbol can be quoted. */
  lemma NewRoundTrip(symbol: string, total: u64, precision: u64)
    ensures Parse(NewText(symbol, total, precision)) == [Some(NewScript(symbol, total, precision))] <==> Plain(symbol)
  {
    hide Lex, Parse, Parser1, Calls, Dec, Plain, Typed;
    var r3 := " " + Dec(precision) + "";
    var r2 := " " + Dec(total) + r3;
    var text := "new" + Quoted(symbol, r2);
    assert NewText(symbol, total, precision) == text;
    LexName("new", Quoted(symbol, r2));
    LexSymbol(symbol, r2);
    LexAmount(total, r3);
    LexAmount(precision, "");
    if Plain(symbol) {
      var a2 := One(Number(precision));
      var a1 := EList(Number(total), a2);
      LastArgument(Number(precision), "");
      MoreArguments(Number(total), r3, Number(precision), "", a2, Input(None, ""));
      MoreArguments(Text(symbol), r2, Number(total), r3, a1, Input(None, ""));
      ParseCall(text, "new", Quoted(symbol, r2), Text(symbol), r2, EList(Text(symbol), a1));
      Typed3(TOKENID, AMOUNT, AMOUNT, Some(EList(Text(symbol), a1)));
    } else if Parse(text) == [Some(NewScript(symbol, total, precision))] {
      SymbolPlain(text, "new", symbol, r2, NewScript(symbol, total, precision));
    }
  }

  /** A recipient that came back is one that can be quoted. */
  lemma RecipientPlain(text: string, symbol: string, amount: u64, to: string, r1: string, r2: string,
          r3: string, sc: Script)
    requires Lex(text) == Tok(Word("transfer"), r1) && Lex(r1) == Tok(Str(symbol), r2) &&
              Lex(r2) == Tok(Int(amount), r3)
    requires Lex(r3).Tok? && Lex(r3).t == Str(to) ==> Plain(to)
    requires Parse(text) == [Some(sc)] && |sc.args| == 3 && sc.args[2].value == Text(to)
    ensures Plain(to)
  {
    ParsedCall(text, "transfer", r1, sc);
    var a := Parser1(Input(Some(Str(symbol)), r2)).node;
    Typed3(TOKENID, AMOUNT, ADDRESS, Some(a));
    ParsedArgument(Str(symbol), r2);
    ParsedArgument(Int(amount), r3);
    ParsedArgument(Lex(r3).t, Lex(r3).rest);
  }

  /**
   * `transfer` comes back as exactly the script that was printed, if and only if symbol and recipient can be
   * quoted.
   */
  lemma TransferRoundTrip(symbol: string, amount: u64, to: string)
    ensures Parse(TransferText(symbol, amount, to)) == [Some(TransferScript(symbol, amount, to))] <==>
              Plain(symbol) && Plain(to)
  {
    hide Lex, Parse, Parser1, Calls, Dec, Plain, Typed;
    var r3 := Quoted(to, "");
    var r2 := " " + Dec(amount) + r3;
    var r1 := Quoted(symbol, r2);
    var text := "transfer" + r1;
    assert TransferText(symbol, amount, to) == text;
    LexName("transfer", r1);
    LexSymbol(symbol, r2);
    LexAmount(amount, r3);
    LexSymbol(to, "");
    if Plain(symbol) && Plain(to) {
      var a2 := One(Text(to));
      var a1 := EList(Number(amount), a2);
      LastArgument(Text(to), "");
      MoreArguments(Number(amount), r3, Text(to), "", a2, Input(None, ""));
      MoreArguments(Text(symbol), r2, Number(amount), r3, a1, Input(None, ""));
      ParseCall(text, "transfer", r1, Text(symbol), r2, EList(Text(symbol), a1));
      Typed3(TOKENID, AMOUNT, ADDRESS, Some(EList(Text(symbol), a1)));
    } else if Parse(text) == [Some(TransferScript(symbol, amount, to))] {
      SymbolPlain(text, "transfer", symbol, r2, TransferScript(symbol, amount, to));
      RecipientPlain(text, symbol, amount, to, r1, r2, r3, TransferScript(symbol, amount, to));
    }
  }

  // --------------------------------------------------------------- several calls

  /** The text has no lexical error. */
  predicate Clean(s: string)
    decreases |s|
  {
    match Lex(s)
    case End => true
    case Tok(_, rest) => Clean(rest)
    case Bad(_) => false
  }

  lemma {:induction false} ArgumentsEnd(p: Input)
    requires Clean(p.rest) && Parser1(p).Parsed?
    ensures Parser1(p).p == Input(None, "")
    decreases Size(p)
  {
    var p1 := Parser2(p).p;
    var (t, p2) := Peek(p1);
    if t.Some? {
      ArgumentsEnd(p2);
    }
  }

  /** The scripts of the calls themselves, or none if a name is unknown. */
  function PerCall(calls: seq<Call>): seq<Option<Script>> {
    if exists i :: 0 <= i < |calls| && !Known(calls[i].name) then []
    else seq(|calls|, i requires 0 <= i < |calls| => Operate(calls[i]))
  }

  /** What a text stands for: one script for each of its calls, made from that call. */
  function Intended(data: string): seq<Option<Script>> {
    var calls := Calls(Input(None, data), []);
    if calls.None? then [] else PerCall(calls.value)
  }

  function ListValues(a: Arguments): seq<Value> {
    match a
    case One(v) => [v]
    case EList(v, rest) => [v] + ListValues(rest)
  }

  /** The arguments of a call, in order. */
  function Values(a: Option<Arguments>): seq<Value> {
    if a.None? then [] else ListValues(a.value)
  }

  /** The leading arguments that a signature asks for are there, each of its type. */
  predicate TypesFit(typs: seq<nat>, vs: seq<Value>) {
    |typs| <= |vs| && forall i :: 0 <= i < |typs| ==> Fits(typs[i], vs[i])
  }

  lemma TypesFitStep(typs: seq<nat>, vs: seq<Value>)
    requires typs != []
    ensures TypesFit(typs, vs) <==> vs != [] && Fits(typs[0], vs[0]) && TypesFit(typs[1..], vs[1..])
  {
    hide Fits;
    if vs != [] && Fits(typs[0], vs[0]) && TypesFit(typs[1..], vs[1..]) {
      assert forall i :: 0 < i < |typs| ==> typs[i] == typs[1..][i - 1] && vs[i] == vs[1..][i - 1];
    }
  }

  lemma ValuesStep(a: Option<Arguments>)
    ensures if a.None? then Values(a) == []
            else Values(a) != [] && Values(a)[0] == First(a.value) && Values(a)[1..] == Values(Next(a.value))
  {
  }

  lemma {:induction false} TypedIff(typs: seq<nat>, a: Option<Arguments>)
    ensures Typed(typs, a).Some? <==> TypesFit(typs, Values(a))
    ensures Typed(typs, a).Some? ==>
              && |Typed(typs, a).value| == |typs|
              && forall i :: 0 <= i < |typs| ==> Typed(typs, a).value[i] == Argument(typs[i], Values(a)[i])
    decreases |typs|
  {
    hide Values, Fits;
    if typs != [] {
      ValuesStep(a);
      TypesFitStep(typs, Values(a));
      hide TypesFit;
      if a.Some? {
        TypedIff(typs[1..], Next(a.value));
      }
    }
  }

  predicate WellTyped(c: Call) {
    TypesFit(Signature(c.name), Values(c.right))
  }

  /** Both calls are ill-typed; or they are of one name, with the same arguments as far as its signature goes. */
  predicate AskTheSame(c: Call, d: Call) {
    if WellTyped(c) && WellTyped(d) then
      var n := |Signature(c.name)|;
      c.name == d.name && Values(c.right)[..n] == Values(d.right)[..n]
    else !WellTyped(c) && !WellTyped(d)
  }

  lemma OperateSameIff(c: Call, d: Call)
    ensures Operate(c) == Operate(d) <==> AskTheSame(c, d)
  {
    hide Typed, Values, Signature, Fits;
    TypedIff(Signature(c.name), c.right);
    TypedIff(Signature(d.name), d.right);
    if WellTyped(c) && WellTyped(d) && c.name == d.name {
      var n, vs, ws := |Signature(c.name)|, Values(c.right), Values(d.right);
      var xs, ys := Operate(c).value.args, Operate(d).value.args;
      assert vs[..n] == ws[..n] ==> xs == ys;
      if xs == ys {
        assert forall i :: 0 <= i < n ==> xs[i].value == ys[i].value;
        assert vs[..n] == ws[..n];
      }
    }
  }

  /**
   * Parsing makes the script of each call if and only if the text has at most one call, the first name is unknown,
   * or all names are known and all calls ask for the same as the first.
   */
  lemma ParsesAsIntendedIff(data: string)
    ensures var calls := Calls(Input(None, data), []);
            Parse(data) == Intended(data) <==>
              || calls.None? || |calls.value| <= 1 || !Known(calls.value[0].name)
              || forall i :: 0 <= i < |calls.value| ==>
                   Known(calls.value[i].name) && AskTheSame(calls.value[0], calls.value[i])
  {
    hide Calls, Operate, Known, AskTheSame;
    var calls := Calls(Input(None, data), []);
    if calls.Some? && calls.value != [] && Known(calls.value[0].name) {
      var cs := calls.value;
      forall i | 0 <= i < |cs| ensures Operate(cs[i]) == Operate(cs[0]) <==> AskTheSame(cs[0], cs[i]) {
        OperateSameIff(cs[0], cs[i]);
      }
      if Parse(data) == PerCall(cs) {
        assert Intended(data)[0] == Operate(cs[0]);
        forall i | 0 <= i < |cs| ensures Operate(cs[i]) == Operate(cs[0]) {
          assert Intended(data)[i] == Parse(data)[i];
        }
      }
    }
  }

  /** A text without lexical errors has at most one call, and parses to the script of that call. */
  lemma OneScript(data: string)
    requires Clean(data)
    ensures Parse(data) == Intended(data)
    ensures var calls := Calls(Input(None, data), []);
            calls.Some? ==> |calls.value| <= 1 && PerCall(calls.value) == Parse(data)
  {
    var p := Input(None, data);
    var (t, p1) := Peek(p);
    if t.Some? && t.value.Word? && Parser0(p1).Parsed? {
      var p2 := GetW(p1).1;
      var (u, p3) := Peek(p2);
      if u.Some? {
        ArgumentsEnd(p3);
      }
      var call := Parser0(p1).node;
      assert Parser0(p1).p == Input(None, "");
      assert [] + [call] == [call];
      assert Calls(Input(None, ""), [call]) == Some([call]);
      assert Calls(p, []) == Some([call]);
    }
    ParsesAsIntendedIff(data);
  }

  /** A second call can only follow an error, and is lost: the first script is there twice. */
  lemma SecondCallLost(a: string, n: u64, b: string, m: u64)
    requires Plain(a) && Plain(b)
    ensures Parse(MintText(a, n) + " $ $ " + MintText(b, m)) == [Some(MintScript(a, n)), Some(MintScript(a, n))]
    ensures Intended(MintText(a, n) + " $ $ " + MintText(b, m)) == [Some(MintScript(a, n)), Some(MintScript(b, m))]
  {
    hide Dec, Plain, Lex, Parser1, Calls, Typed;
    var second := MintText(b, m);
    var r4 := " " + second;
    var r3 := " $" + r4;
    var r2 := " $" + r3;
    var r1 := " " + Dec(n) + r2;
    var text := "mint" + Quoted(a, r1);
    assert MintText(a, n) + " $ $ " + second == text;
    LexName("mint", Quoted(a, r1));
    LexSymbol(a, r1);
    LexAmount(n, r2);
    LexDollar(r3);
    LexDollar(r4);
    var first := EList(Text(a), One(Number(n)));
    StopsAtError(Text(a), Number(n), r1, r2, r3, r4);
    var c1, p4 := Call("mint", Some(first)), Input(None, r4);
    CallBefore(text, Quoted(a, r1), Text(a), r1, first, p4);
    LastCall(b, m, c1);
    Typed2(TOKENID, AMOUNT, Some(first));
    var c2 := Call("mint", Some(EList(Text(b), One(Number(m)))));
    Typed2(TOKENID, AMOUNT, c2.right);
    assert Copies(2, Operate(c1)) == [Operate(c1), Operate(c1)];
  }

  lemma LexDollar(rest: string)
    ensures Lex(" $" + rest) == Bad(rest)
  {
    assert " $" + rest == " " + ("$" + rest);
    LexSpace("$" + rest);
    assert ("$" + rest)[1..] == rest;
  }

  /** An argument list stops at an error, and the parser skips one more word. */
  lemma StopsAtError(v: Value, w: Value, r1: string, r2: string, r3: string, r4: string)
    requires Lex(r1) == Tok(TokenOf(w), r2) && Lex(r2) == Bad(r3) && Lex(r3) == Bad(r4)
    ensures Parser1(Input(Some(TokenOf(v)), r1)) == Parsed(EList(v, One(w)), Input(None, r4))
  {
    assert Parser2(Input(Some(TokenOf(w)), r2)) == Parsed(w, Input(None, r2));
    assert Parser1(Input(Some(TokenOf(w)), r2)) == Parsed(One(w), Input(None, r4));
    MoreArguments(v, r1, w, r2, One(w), Input(None, r4));
  }

  lemma CallBefore(text: string, r0: string, v: Value, r1: string, args: Arguments, p: Input)
    requires Lex(text) == Tok(Word("mint"), r0) && Lex(r0) == Tok(TokenOf(v), r1)
    requires Parser1(Input(Some(TokenOf(v)), r1)) == Parsed(args, p)
    ensures Calls(Input(None, text), []) == Calls(p, [Call("mint", Some(args))])
  {
    var p1, call := Input(Some(Word("mint")), r0), Call("mint", Some(args));
    assert Peek(Input(None, r0)) == (Some(TokenOf(v)), Input(Some(TokenOf(v)), r1));
    assert Parser0(p1) == Parsed(call, p);
    assert [] + [call] == [call];
  }

  lemma LastCall(b: string, m: u64, before: Call)
    requires Plain(b)
    ensures Calls(Input(None, " " + MintText(b, m)), [before]) ==
              Some([before, Call("mint", Some(EList(Text(b), One(Number(m)))))])
  {
    hide Dec, Plain;
    var r2 := " " + Dec(m) + "";
    var r1 := Quoted(b, r2);
    var text := "mint" + r1;
    assert MintText(b, m) == text;
    LexSpace(text);
    LexName("mint", r1);
    LexSymbol(b, r2);
    LexAmount(m, "");
    LastArgument(Number(m), "");
    MoreArguments(Text(b), r2, Number(m), "", One(Number(m)), Input(None, ""));
    var args := EList(Text(b), One(Number(m)));
    var p1, call := Input(Some(Word("mint")), r1), Call("mint", Some(args));
    assert Peek(Input(None, r1)) == (Some(Str(b)), Input(Some(Str(b)), r2));
    assert Parser0(p1) == Parsed(call, Input(None, ""));
    assert Calls(Input(None, ""), [before, call]) == Some([before, call]);
    assert [before] + [call] == [before, call];
  }
}
