/** Printed `freeze` and `unfreeze` scripts, and the mark they leave in the token store. */
module MarkedScripts {
  import opened U64
  import opened Wrappers
  import opened Bytes
  import opened Tokens
  import opened TokenSpec
  import opened TokenProofs
  import opened TokenRuns
  import opened ScriptText
  import opened PrintedScripts
  import opened ParseSpec
  import LexSpec

  /** The name of the operation that freezes an address, or takes that back. */
  function MarkName(frozen: bool): string {
    if frozen then "freeze" else "unfreeze"
  }

  /** `freeze "SYMBOL" "ADDRESS"` or `unfreeze "SYMBOL" "ADDRESS"` */
  function MarkText(frozen: bool, symbol: string, addr: string): string {
    MarkName(frozen) + " \"" + symbol + "\" \"" + addr + "\""
  }

  function MarkScript(frozen: bool, symbol: string, addr: string): Script {
    Script(MarkName(frozen), [Argument(TOKENID, Text(symbol)), Argument(ADDRESS, Text(addr))])
  }

  lemma MarkLexes(frozen: bool, symbol: string, addr: string) returns (r1: string, r2: string)
    ensures r2 == Quoted(addr, "") && r1 == Quoted(symbol, r2)
    ensures LexSpec.Lex(MarkText(frozen, symbol, addr)) == LexSpec.Tok(LexSpec.Word(MarkName(frozen)), r1)
  {
    r2 := Quoted(addr, "");
    r1 := Quoted(symbol, r2);
    assert MarkText(frozen, symbol, addr) == MarkName(frozen) + r1;
    LexName(MarkName(frozen), r1);
  }

  /** A mark script comes back as exactly the script that was printed, if and only if both its texts can be quoted. */
  lemma MarkRoundTrip(frozen: bool, symbol: string, addr: string)
    ensures Parse(MarkText(frozen, symbol, addr)) == [Some(MarkScript(frozen, symbol, addr))] <==>
              Plain(symbol) && Plain(addr)
  {
    hide LexSpec.Lex, Parse, Parser1, Calls, Plain, Typed;
    var text, name, sc := MarkText(frozen, symbol, addr), MarkName(frozen), MarkScript(frozen, symbol, addr);
    var r1, r2 := MarkLexes(frozen, symbol, addr);
    LexSymbol(symbol, r2);
    LexSymbol(addr, "");
    if Plain(symbol) && Plain(addr) {
      var a1 := One(Text(addr));
      LastArgument(Text(addr), "");
      MoreArguments(Text(symbol), r2, Text(addr), "", a1, Input(None, ""));
      ParseCall(text, name, r1, Text(symbol), r2, EList(Text(symbol), a1));
      Typed2(TOKENID, ADDRESS, Some(EList(Text(symbol), a1)));
    } else if Parse(text) == [Some(sc)] {
      SymbolPlain(text, name, symbol, r2, sc);
      ParsedCall(text, name, r1, sc);
      var a := Parser1(Input(Some(LexSpec.Str(symbol)), r2)).node;
      Typed2(TOKENID, ADDRESS, Some(a));
      ParsedArgument(LexSpec.Str(symbol), r2);
      ParsedArgument(LexSpec.Lex(r2).t, LexSpec.Lex(r2).rest);
    }
  }

  /**
   * A printed mark is rejected exactly when the owner did not issue the token; otherwise the one byte 1 (frozen)
   * or 0 (not frozen) stands under token and address, every other entry is as it was, and no supply changes.
   */
  lemma PrintedMark(db: Store, frozen: bool, symbol: string, addr: string, owner: string)
    requires TokensOk(db) && Plain(symbol) && Plain(addr)
    ensures var r, kf := RunScript(db, MarkText(frozen, symbol, addr), owner), "f/" + symbol + addr;
            && (r.None? <==> symbol !in db || db[symbol] != owner)
            && (r.Some? ==>
                  && TokensOk(r.value)
                  && kf in r.value && r.value[kf] == [if frozen then 1 as char else 0 as char]
                  && forall k :: k != kf ==> (k in r.value <==> k in db) && (k in db ==> r.value[k] == db[k]))
  {
    hide Parse, Execute, DealAll, NumbersFormed, SuppliesRight;
    MarkRoundTrip(frozen, symbol, addr);
    ExecuteOne(db, MarkScript(frozen, symbol, addr), owner);
    EmptyOverlay(db);
    MarkByte(frozen);
    MarkState(db, owner, map[], symbol, addr, LE(if frozen then 1 else 0, 1));
  }

  lemma MarkByte(frozen: bool)
    ensures LE(if frozen then 1 else 0, 1) == [if frozen then 1 as char else 0 as char]
  {
  }
}
