/** What the script of a token transaction does to the token store. */
module Tokens {
  import opened Wrappers
  import ParseSpec
  import TokenSpec

  /** Parses and runs a script for its owner; nothing if an operation of it fails. */
  function RunScript(db: TokenSpec.Store, script: string, owner: string): Option<TokenSpec.Store> {
    TokenSpec.Execute(db, ParseSpec.Parse(script), owner)
  }
}
