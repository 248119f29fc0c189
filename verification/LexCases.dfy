/** What lexer and parser make of texts that are not printed: other numbers, words, quotes, blanks, and bare names. */
module LexCases {
  import opened U64
  import opened Wrappers
  import opened LexSpec
  import TokenSpec
  import opened ParseSpec
  import opened ScriptText

  // -------------------------------------------------------------------- numbers

  /** The octal digits of a number. */
  function Oct(n: nat): string {
    if n < 8 then [Digit(n)] else Oct(n / 8) + [Digit(n % 8)]
  }

  lemma {:induction false} OctDigits(n: nat)
    ensures Oct(n) != "" && AllDigits(Oct(n)) && InBase(Oct(n), 8) == Some(n)
  {
    if n >= 8 {
      OctDigits(n / 8);
      assert Oct(n)[..|Oct(n)| - 1] == Oct(n / 8);
    } else {
      assert Oct(n)[..0] == "";
    }
  }

  /** Digits behind a leading zero are read to their end, as octal ones. */
  lemma ZeroFirst(ds: string, rest: string)
    requires ds != "" && AllDigits(ds) && Ends(rest)
    ensures Lex("0" + ds + rest) ==
            if InBase(ds, 8).Some? && InBase(ds, 8).value < TWO64
            then Tok(Int(InBase(ds, 8).value), rest) else Bad(rest)
  {
    hide Lex, LexDigits, InBase;
    var text := "0" + ds + rest;
    assert text[1..] == ds + rest && (ds + rest)[0] == ds[0] && ("0" + ds)[1..] == ds;
    LexFromDigit(text);
    DigitsRun("0", ds, rest);
  }

  /** A number with a leading zero is octal. */
  lemma LexOct(n: u64, rest: string)
    requires Ends(rest)
    ensures Lex("0" + Oct(n) + rest) == Tok(Int(n), rest)
  {
    OctDigits(n);
    ZeroFirst(Oct(n), rest);
  }

  lemma {:induction false} NotOctal(ds: string, i: nat)
    requires i < |ds| && (ds[i] == '8' || ds[i] == '9')
    ensures InBase(ds, 8).None?
    decreases |ds|
  {
    if i < |ds| - 1 {
      NotOctal(ds[..|ds| - 1], i);
    }
  }

  /** With an eight or a nine behind a leading zero it is an error. */
  lemma LexNotOct(ds: string, i: nat, rest: string)
    requires AllDigits(ds) && Ends(rest) && i < |ds| && (ds[i] == '8' || ds[i] == '9')
    ensures Lex("0" + ds + rest) == Bad(rest)
  {
    NotOctal(ds, i);
    ZeroFirst(ds, rest);
  }

  /** Digits and the letters a to f, in either case. */
  predicate AllXDigits(s: string) {
    forall i :: 0 <= i < |s| ==> '0' <= s[i] <= '9' || 'a' <= s[i] <= 'f' || 'A' <= s[i] <= 'F'
  }

  lemma {:induction false} XDigitsRun(word: string, ds: string, rest: string)
    requires Numeral(word) && (word == "0" ==> ds != "" && IsDigit(ds[0])) && AllXDigits(ds) && !NextXDigit(rest)
    ensures Numeral(word + ds) && LexDigits(word, ds + rest) == LexNumber(word + ds, rest)
    decreases |ds|
  {
    if ds == "" {
      assert word + ds == word && ds + rest == rest;
    } else {
      assert (ds + rest)[1..] == ds[1..] + rest && word + [ds[0]] + ds[1..] == word + ds;
      XDigitsRun(word + [ds[0]], ds[1..], rest);
    }
  }

  lemma {:induction false} NotDecimal(ds: string, i: nat)
    requires i < |ds| && AllXDigits(ds) && !IsDigit(ds[i])
    ensures InBase(ds, 10).None?
    decreases |ds|
  {
    if i < |ds| - 1 {
      NotDecimal(ds[..|ds| - 1], i);
    }
  }

  /** A number goes on with hexadecimal letters, which make it an error. */
  lemma LexNotHex(ds: string, i: nat, rest: string)
    requires i < |ds| && AllXDigits(ds) && '1' <= ds[0] <= '9' && !IsDigit(ds[i]) && Ends(rest)
    ensures Lex(ds + rest) == Bad(rest)
  {
    hide Lex, LexDigits, InBase;
    assert (ds + rest)[1..] == ds[1..] + rest && [ds[0]] + ds[1..] == ds;
    LexFromDigit(ds + rest);
    XDigitsRun([ds[0]], ds[1..], rest);
    NotDecimal(ds, i);
  }

  /** A zero is a number of its own unless a digit follows: there are no hexadecimal numbers. */
  lemma LexZero(s: string)
    requires s != "" ==> !IsDigit(s[0])
    ensures Lex("0" + s) == Tok(Int(0), s)
  {
    assert ("0" + s)[1..] == s;
    assert InBase("0"[1..], 8) == Some(0);
  }

  // ---------------------------------------------------------------------- words

  predicate IsWordChar(c: char) {
    'a' <= c <= 'z' || 'A' <= c <= 'Z' || c == '_' || '0' <= c <= '9'
  }

  lemma {:induction false} LongestRun(word: string, w: string, rest: string)
    requires (forall i :: 0 <= i < |w| ==> IsWordChar(w[i])) && (rest != "" ==> !IsWordChar(rest[0]))
    ensures LexWord(word, w + rest) == Tok(Word(word + w), rest)
    decreases |w|
  {
    if w == "" {
      assert word + w == word && w + rest == rest;
    } else {
      assert (w + rest)[1..] == w[1..] + rest && word + [w[0]] + w[1..] == word + w;
      LongestRun(word + [w[0]], w[1..], rest);
    }
  }

  /** Letters, underscores and digits that begin with no digit are one word, up to any other character. */
  lemma LexLongest(w: string, rest: string)
    requires w != "" && !('0' <= w[0] <= '9') && forall i :: 0 <= i < |w| ==> IsWordChar(w[i])
    requires rest != "" ==> !IsWordChar(rest[0])
    ensures Lex(w + rest) == Tok(Word(w), rest)
  {
    assert (w + rest)[1..] == w[1..] + rest && [w[0]] + w[1..] == w;
    LongestRun([w[0]], w[1..], rest);
  }

  // -------------------------------------------------------------------- strings

  /** Text that can stand between single quotes. */
  predicate SinglePlain(s: string) {
    forall i :: 0 <= i < |s| ==> s[i] != '\'' && s[i] != '`' && !IsNewline(s[i])
  }

  lemma {:induction false} SingleRun(read: string, s: string, rest: string)
    requires SinglePlain(s) && '`' !in read
    ensures LexLiteral('\'', read, s + "'" + rest) == Tok(Str(read + s), rest)
    decreases |s|
  {
    var text := s + "'" + rest;
    if s == "" {
      assert read + s == read && text[1..] == rest;
    } else {
      assert text[1..] == s[1..] + "'" + rest && read + [s[0]] + s[1..] == read + s;
      SingleRun(read + [s[0]], s[1..], rest);
    }
  }

  lemma {:induction false} SingleRead(read: string, s: string)
    requires forall i :: 0 <= i < |read| ==> read[i] != '\'' && !IsNewline(read[i])
    requires LexLiteral('\'', read, s).Tok?
    ensures LexLiteral('\'', read, s).t.Str? && SinglePlain(LexLiteral('\'', read, s).t.s)
    decreases |s|
  {
    if s[0] != '\'' {
      SingleRead(read + [s[0]], s[1..]);
    }
  }

  /** A text in single quotes lexes back to itself if and only if it holds no single quote, backquote or newline. */
  lemma LexSingle(s: string, rest: string)
    ensures Lex("'" + s + "'" + rest) == Tok(Str(s), rest) <==> SinglePlain(s)
  {
    var text := "'" + s + "'" + rest;
    assert text[1..] == s + "'" + rest && "" + s == s;
    assert Lex(text) == LexLiteral('\'', "", text[1..]);
    if SinglePlain(s) {
      SingleRun("", s, rest);
    } else if Lex(text).Tok? {
      SingleRead("", text[1..]);
    }
  }

  lemma {:induction false} BrokenRun(read: string, s: string, nl: char, rest: string)
    requires IsNewline(nl) && forall i :: 0 <= i < |s| ==> s[i] != '"' && !IsNewline(s[i])
    ensures LexLiteral('"', read, s + [nl] + rest) == Bad(rest)
    decreases |s|
  {
    var text := s + [nl] + rest;
    if s == "" {
      assert text[1..] == rest;
    } else {
      assert text[1..] == s[1..] + [nl] + rest;
      BrokenRun(read + [s[0]], s[1..], nl, rest);
    }
  }

  /** A newline inside a string is an error, which consumes it. */
  lemma LexBroken(s: string, nl: char, rest: string)
    requires (nl as int == 10 || nl as int == 13) && forall i :: 0 <= i < |s| ==> s[i] != '"' && !IsNewline(s[i])
    ensures Lex("\"" + s + [nl] + rest) == Bad(rest)
  {
    assert ("\"" + s + [nl] + rest)[1..] == s + [nl] + rest;
    BrokenRun("", s, nl, rest);
  }

  // --------------------------------------------------------------------- blanks

  /** Spaces, tabs and newlines in front of a token do not matter. */
  lemma BlankSkipped(c: char, s: string)
    requires c == ' ' || c as int == 9 || c as int == 10 || c as int == 11 || c as int == 12 || c as int == 13
    ensures Lex([c] + s) == Lex(s)
  {
    assert ([c] + s)[1..] == s;
    if IsNewline(c) {
      NewlinesSkipped(s);
    }
  }

  lemma NewlinesSkipped(s: string)
    ensures Lex(AfterNewlines(s)) == Lex(s)
  {
    if s != "" && IsNewline(s[0]) {
      assert Lex(s) == Lex(AfterNewlines(s[1..]));
    }
  }

  /** Any other character that begins no token is an error, and is passed over. */
  lemma StrayIsBad(c: char, s: string)
    requires !('0' <= c <= '9' || 'a' <= c <= 'z' || 'A' <= c <= 'Z' || c in "_'\" ") && !(9 <= c as int <= 13)
    ensures Lex([c] + s) == Bad(s)
  {
    assert ([c] + s)[1..] == s;
  }

  // ---------------------------------------------------------------------- calls

  /** A name alone is a call without arguments: no script if it is known, and no call at all otherwise. */
  lemma NameAlone(name: string)
    requires IsName(name)
    ensures Parse(name) == if TokenSpec.Known(name) then [None] else []
  {
    hide Lex;
    LexName(name, "");
    assert name + "" == name;
    LexNothing();
    var p, p1, call := Input(None, name), Input(Some(Word(name)), ""), Call(name, None);
    assert Peek(p) == (Some(Word(name)), p1);
    assert Parser0(p1) == Parsed(call, Input(None, ""));
    assert [] + [call] == [call];
    assert Calls(Input(None, ""), [call]) == Some([call]);
    assert Calls(p, []) == Some([call]);
    assert Copies(1, Operate(call)) == [Operate(call)];
  }

  lemma LexNothing()
    ensures Lex("") == End
  {
  }
}
