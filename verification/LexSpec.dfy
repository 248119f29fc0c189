/** The words of a script: identifiers, unsigned integers and quoted strings. */
module LexSpec {
  import opened U64
  import opened Wrappers

  // Character classes, as in the source's table; bytes from 128 on belong to none.

  predicate IsSpace(c: char) {
    c == ' ' || c as int == 9 || c as int == 11 || c as int == 12
  }

  predicate IsNewline(c: char) {
    c as int == 10 || c as int == 13
  }

  predicate IsDigit(c: char) {
    '0' <= c <= '9'
  }

  predicate IsXDigit(c: char) {
    IsDigit(c) || 'A' <= c <= 'F' || 'a' <= c <= 'f'
  }

  predicate IsAlpha(c: char) {
    'A' <= c <= 'Z' || 'a' <= c <= 'z' || c == '_'
  }

  predicate IsAlnum(c: char) {
    IsAlpha(c) || IsDigit(c)
  }

  predicate IsQuote(c: char) {
    c == '\'' || c == '"'
  }

  datatype Token = Word(name: string) | Int(n: u64) | Str(s: string)

  /** One token and what follows it; the end of the text; or an error and where lexing goes on. */
  datatype Lexed = Tok(t: Token, rest: string) | End | Bad(rest: string)

  // ------------------------------------------------------------------- numbers

  function DigitValue(c: char): nat {
    if IsDigit(c) then c as int - '0' as int
    else if 'a' <= c <= 'z' then c as int - 'a' as int + 10
    else if 'A' <= c <= 'Z' then c as int - 'A' as int + 10
    else 255
  }

  /** The value of `s` in a base, unless some character is no digit of it. */
  function InBase(s: string, base: nat): Option<nat> {
    if s == "" then Some(0)
    else
      var d, high := DigitValue(s[|s| - 1]), InBase(s[..|s| - 1], base);
      if high.None? || d >= base then None else Some(high.value * base + d)
  }

  /** The text of a number as the lexer collects it; a second character after a zero is a digit. */
  predicate Numeral(word: string) {
    word != "" && IsDigit(word[0]) && (|word| >= 2 && word[0] == '0' ==> IsDigit(word[1]))
  }

  /** Parses digits as an integer: octal after a leading zero, decimal otherwise, within 64 bits. */
  function ParseUint(s: string): Option<u64>
    requires Numeral(s)
  {
    var v := if s[0] == '0' then InBase(s[1..], 8) else InBase(s, 10);
    if v.None? || v.value >= TWO64 then None else Some(v.value)
  }

  function Digit(d: nat): char
    requires d < 10
  {
    ('0' as int + d) as char
  }

  /** The decimal text of a number. */
  function Dec(n: nat): string {
    if n < 10 then [Digit(n)] else Dec(n / 10) + [Digit(n % 10)]
  }

  // -------------------------------------------------------------------- words

  function AfterNewlines(s: string): (rest: string)
    ensures |rest| <= |s|
  {
    if s == "" || !IsNewline(s[0]) then s else AfterNewlines(s[1..])
  }

  /** An identifier of which `word` has been read: it goes on while there are letters, digits or underscores. */
  function LexWord(word: string, s: string): (r: Lexed)
    ensures r.Tok? && |r.rest| <= |s|
    decreases |s|
  {
    if s == "" || !IsAlnum(s[0]) then Tok(Word(word), s) else LexWord(word + [s[0]], s[1..])
  }

  /** A number, whose digits `word` are followed by `rest`. */
  function LexNumber(word: string, rest: string): Lexed
    requires Numeral(word)
  {
    var v := ParseUint(word);
    if v.None? then Bad(rest) else Tok(Int(v.value), rest)
  }

  predicate NextXDigit(s: string) {
    s != "" && IsXDigit(s[0])
  }

  /** A number of which `word` has been read: it goes on while there are hexadecimal digits. */
  function LexDigits(word: string, s: string): (r: Lexed)
    requires Numeral(word) && (word == "0" && NextXDigit(s) ==> IsDigit(s[0]))
    ensures !r.End? && |r.rest| <= |s|
    decreases |s|
  {
    if !NextXDigit(s) then LexNumber(word, s) else LexDigits(word + [s[0]], s[1..])
  }

  /** A number that starts with the digit `a`; after a zero it goes on only if the next character is a digit or an x. */
  function LexDigit(a: char, s: string): (r: Lexed)
    requires IsDigit(a)
    ensures !r.End? && |r.rest| <= |s|
  {
    if a == '0' && (s == "" || (s[0] != 'x' && s[0] != 'X' && !IsDigit(s[0]))) then LexNumber([a], s)
    else LexDigits([a], s)
  }

  /**
   * A string closed by the quote `a`, `read` being what has been read of it. It may hold no
   * newline, and no backquote, because it is unquoted as a raw string.
   */
  function LexLiteral(a: char, read: string, s: string): (r: Lexed)
    ensures !r.End? && |r.rest| <= |s|
    decreases |s|
  {
    if s == "" then Bad("")
    else if IsNewline(s[0]) then Bad(s[1..])
    else if s[0] == a then if '`' in read then Bad(s[1..]) else Tok(Str(read), s[1..])
    else LexLiteral(a, read + [s[0]], s[1..])
  }

  /** The first token of `s`, spaces and newlines skipped. */
  function Lex(s: string): (r: Lexed)
    ensures r.Tok? ==> |r.rest| < |s|
    ensures r.Bad? ==> |r.rest| < |s|
    decreases |s|
  {
    if s == "" then End
    else
      var c, s' := s[0], s[1..];
      if IsSpace(c) then Lex(s')
      else if IsNewline(c) then Lex(AfterNewlines(s'))
      else if IsAlpha(c) then LexWord([c], s')
      else if IsDigit(c) then LexDigit(c, s')
      else if IsQuote(c) then LexLiteral(c, "", s')
      else Bad(s')
  }
}
