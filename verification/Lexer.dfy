/** The lexer as the source runs it: a refilled read buffer and one pushed-back character. */
module Lexer {
  import opened Wrappers
  import opened LexSpec

  const EOF := -1
  const RET := -2
  const ERR := -3
  const ROLLSIZE: nat := 2
  const BUFFSIZE: nat := 1024

  const IDENTIFIER := 0
  const INT_CONSTANT := 1
  const STRING_CONSTANT := 2

  function TypeOf(t: Token): int {
    match t
    case Word(_) => IDENTIFIER
    case Int(_) => INT_CONSTANT
    case Str(_) => STRING_CONSTANT
  }

  /** What a scanning method reports, given what the specification says of the text. */
  ghost predicate Reports(l: Lexed, typ: int, curr: Token, text: string) {
    match l
    case Tok(t, rest) => typ == TypeOf(t) && curr == t && text == rest
    case End => typ == EOF && text == ""
    case Bad(rest) => typ == ERR && text == rest
  }

  class Lex {
    var fd: string
    const buffer: array<char>
    var pos: nat
    var lim: nat
    const roll: array<int>
    var cnt: nat
    var curr: Token

    /** What the roll buffer holds is the last character read, or the end of the text. */
    ghost predicate Rolled()
      reads `fd, `pos, `lim, buffer, roll
    {
      roll.Length == ROLLSIZE &&
      (if roll[0] == EOF then pos == lim && fd == "" else 0 < pos <= buffer.Length && roll[0] == buffer[pos - 1] as int)
    }

    ghost predicate Valid()
      reads `fd, `pos, `lim, `cnt, buffer, roll
    {
      && buffer.Length == BUFFSIZE && roll.Length == ROLLSIZE
      && pos <= lim <= BUFFSIZE
      && cnt <= 1
      && (cnt == 1 ==> Rolled())
    }

    /** The buffer from index `i` on, and the text that was never read into it. */
    ghost function Unread(i: nat): string
      requires i <= lim <= buffer.Length
      reads `fd, `lim, buffer
    {
      buffer[i..lim] + fd
    }

    /** The text that is still to be read. */
    ghost function Text(): string
      requires Valid()
      reads `fd, `pos, `lim, `cnt, buffer, roll
    {
      Unread(if cnt == 1 && roll[0] != EOF then pos - 1 else pos)
    }

    lemma Uncons(i: nat)
      requires i < lim <= buffer.Length
      ensures Unread(i) != "" && Unread(i)[0] == buffer[i] && Unread(i)[1..] == Unread(i + 1)
    {
      assert buffer[i..lim] == [buffer[i]] + buffer[i + 1..lim];
    }

    constructor (data: string)
      ensures Valid() && Text() == data && fresh(buffer) && fresh(roll)
    {
      fd, pos, lim, cnt, curr := data, 0, 0, 0, Word("");
      buffer := new char[BUFFSIZE];
      roll := new int[ROLLSIZE];
    }

    method Getc() returns (c: int)
      requires Valid()
      modifies this, buffer, roll
      ensures Valid() && cnt == 0 && Rolled() && roll[0] == c && curr == old(curr)
      ensures if old(Text()) == "" then c == EOF && Text() == ""
              else c == old(Text())[0] as int && Text() == old(Text())[1..]
    {
      if cnt > 0 {
        cnt := cnt - 1;
        if roll[0] != EOF {
          Uncons(pos - 1);
        }
        return roll[cnt];
      }
      if pos == lim {
        var n := Fill();
        if n == 0 {
          roll[0] := EOF;
          return EOF;
        }
      }
      Uncons(pos);
      c := buffer[pos] as int;
      roll[0] := c;
      pos := pos + 1;
    }

    /** Reads the next stretch of the text into the empty buffer. */
    method Fill() returns (n: nat)
      requires Valid() && cnt == 0 && pos == lim
      modifies this`fd, this`pos, this`lim, buffer
      ensures Valid() && Text() == old(Text()) && lim - pos == n &&
                n == if |old(fd)| < BUFFSIZE then |old(fd)| else BUFFSIZE
    {
      n := if |fd| < BUFFSIZE then |fd| else BUFFSIZE;
      forall i | 0 <= i < n {
        buffer[i] := fd[i];
      }
      assert buffer[0..n] == fd[..n];
      assert fd[..n] + fd[n..] == fd;
      fd, pos, lim := fd[n..], 0, n;
    }

    /** Gives the character just read back to the text, which is then again what it was before that. */
    method Ungetc(ghost before: string)
      requires Valid() && cnt == 0 && Rolled()
      requires if roll[0] == EOF then before == ""
               else before != "" && before[0] as int == roll[0] && Text() == before[1..]
      modifies this`cnt
      ensures Valid() && Text() == before
    {
      if cnt < ROLLSIZE {
        cnt := cnt + 1;
      }
      if roll[0] != EOF {
        Uncons(pos - 1);
        assert before == [before[0]] + before[1..];
      }
    }

    method SkipNewline()
      requires Valid()
      modifies this, buffer, roll
      ensures Valid() && Text() == AfterNewlines(old(Text()))
    {
      while true
        invariant Valid() && AfterNewlines(Text()) == AfterNewlines(old(Text()))
        decreases |Text()|
      {
        ghost var t := Text();
        var c := Getc();
        if c == EOF || !IsNewline(c as char) {
          Ungetc(t);
          return;
        }
      }
    }

    method TakeWord(word: string) returns (typ: int)
      requires Valid()
      modifies this`curr
      ensures Valid() && Text() == old(Text()) && typ == IDENTIFIER && curr == Word(word)
    {
      curr := Word(word);
      typ := IDENTIFIER;
    }

    method GetWord(a: char) returns (typ: int)
      requires Valid()
      modifies this, buffer, roll
      ensures Valid() && Reports(LexWord([a], old(Text())), typ, curr, Text())
    {
      var word := [a];
      while true
        invariant Valid() && LexWord(word, Text()) == LexWord([a], old(Text()))
        decreases |Text()|
      {
        ghost var t := Text();
        var c := Getc();
        if c == EOF || !IsAlnum(c as char) {
          Ungetc(t);
          typ := TakeWord(word);
          return;
        }
        word := word + [c as char];
      }
    }

    /** Turns the digits of a number into its value. */
    method TakeNumber(word: string) returns (typ: int)
      requires Valid() && Numeral(word)
      modifies this`curr
      ensures Valid() && Text() == old(Text()) && Reports(LexNumber(word, Text()), typ, curr, Text())
    {
      var v := ParseUint(word);
      if v.None? {
        return ERR;
      }
      curr := Int(v.value);
      return INT_CONSTANT;
    }

    method GetDigit(a: char) returns (typ: int)
      requires Valid() && IsDigit(a)
      modifies this, buffer, roll
      ensures Valid() && Reports(LexDigit(a, old(Text())), typ, curr, Text())
    {
      var word := [a];
      if a == '0' {
        ghost var t := Text();
        var c := Getc();
        if c == EOF || (c as char != 'x' && c as char != 'X' && !IsDigit(c as char)) {
          Ungetc(t);
          typ := TakeNumber(word);
          return;
        }
        Ungetc(t);
      }
      while true
        invariant Valid() && Numeral(word) && (word == "0" && NextXDigit(Text()) ==> IsDigit(Text()[0]))
        invariant LexDigits(word, Text()) == LexDigit(a, old(Text()))
        decreases |Text()|
      {
        ghost var t := Text();
        var c := Getc();
        if c == EOF || !IsXDigit(c as char) {
          Ungetc(t);
          typ := TakeNumber(word);
          return;
        }
        word := word + [c as char];
      }
    }

    method GetLiteral(a: char) returns (typ: int)
      requires Valid()
      modifies this, buffer, roll
      ensures Valid() && Reports(LexLiteral(a, "", old(Text())), typ, curr, Text())
    {
      var s := "";
      ghost var all := Text();
      while true
        invariant Valid() && LexLiteral(a, "", all) == LexLiteral(a, s, Text())
        decreases |Text()|
      {
        var c := Getc();
        if c == EOF || IsNewline(c as char) {
          return ERR;
        } else if a == c as char {
          if '`' in s {
            return ERR;
          }
          curr := Str(s);
          return STRING_CONSTANT;
        }
        s := s + [c as char];
      }
    }

    /** The next token: its type, its value being left in `curr`. */
    method Symbol() returns (typ: int)
      requires Valid()
      modifies this, buffer, roll
      ensures Valid() && Reports(LexSpec.Lex(old(Text())), typ, curr, Text())
    {
      ghost var all := Text();
      while true
        invariant Valid() && LexSpec.Lex(all) == LexSpec.Lex(Text())
        decreases |Text()|
      {
        var c := Getc();
        if c == EOF {
          return EOF;
        }
        var ch := c as char;
        if IsSpace(ch) {
        } else if IsNewline(ch) {
          SkipNewline();
        } else if IsAlpha(ch) {
          typ := GetWord(ch);
          return;
        } else if IsDigit(ch) {
          typ := GetDigit(ch);
          return;
        } else if IsQuote(ch) {
          typ := GetLiteral(ch);
          return;
        } else {
          return ERR;
        }
      }
    }
  }
}
