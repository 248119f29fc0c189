# Kortho node: verification model

A Dafny model of a blockchain node: its ledger, transaction pool, log application, token
scripts, storage containers, Merkle trees, addresses and sorting, with proofs of what each
keeps over every input and every run. `dafny verify dfyconfig.toml` checks the whole project.

## What is modelled

- **Ledger.** The same block is read by three pieces of code: the selection from the pool
  (`PendingSpec`), the dry run that leader and followers compare, and the commit
  (`LedgerSpec`, and as classes with updated fields `Blockchain` and `TxPool`). `LedgerProofs`
  and `PendingProofs` are the simulations between them, `LedgerRuns` and `ChainRuns` the
  theorems about every run of blocks, `NonceRuns` those about the nonces that commit,
  `PendingKeeps` and `PoolRuns` what the pool keeps, admits and drops, `Emission` the
  coinbases and the bound on all coins. Every 64-bit operation wraps; that nothing does wrap
  is proved. What runs a token script is a parameter of these theorems; `Blockchain` runs the
  real one (`Tokens`).
- **Log application.** `AgreementNode` is a node that skips, commits or catches up;
  `Agreement` is about all runs of a cluster, with block validity any function of the chain,
  and `AgreementProgress` about how far catching up gets.
- **Token scripts.** A buffered lexer with pushback (`Lexer`), a recursive-descent parser
  (`Parser`), their specifications (`LexSpec`, `ParseSpec`), the texts the API prints
  (`ScriptText`), the binary form (`ScriptCodec`), and the interpreter over an overlay map
  (`TokenSpec`, `TokenExec`) with its supply invariant (`TokenProofs`, `TokenRuns`).
  `LexCases` is about texts that no call prints. `PrintedScripts` and `MarkedScripts` join
  all this, from text to stored balance, and `TokenLedger` joins it with the runs of blocks.
- **Containers.** Lists (`ListSpec`, `ListStore`, `ListProofs`, `ListReads`, `ListRuns`) and
  sorted sets (`ZsetSpec`, `ZsetStore`, `ZsetProofs`, `ZsetRuns`) over byte keys in one
  ordered map (`KeyValue`).
- **Merkle trees, Base58 and sorting.** `Merkle`; `Positional`, `Base58`, `Base58Codec` and
  `Addresses`; `Slices`.

A byte is a character below 256, and byte strings are strings. Errors of the source are
`Result` or `Option` values; a crash of the source is a `Panic` or an absent result, and a
loop that never ends the error `NeverEnds`.

## Where code and intention differ

The model follows the code. Lemmas say exactly when it does what it is for:

- a transfer to its own sender keeps only the credit and so creates coins (`ConservationIff`);
- a second freeze or unfreeze of an address in one block starts from the committed amount
  again (`FrozenAgrees`), which may leave more frozen than there is (`CoveredAtIff`,
  `SecondFreezeUncovers`);
- the pool charges a fee for freezes that neither dry run nor commit charges
  (`AdmissibleIsReady`), computes conversions to pck from a missing entry and does not look at
  the dKto of conversions back (`ConvertPckLowerIff`, `ConvertKtoAcceptedIff`), so that
  blocks are accepted exactly as long as conversions meet their guards (`AcceptedIff`);
- the pool filter passes over the transaction behind each one it deletes (`FilteredCleanIff`);
- minting compares signed numbers (`MintStateIff`), a token transfer to oneself creates
  tokens, one to a text that is no address loses them (`TransferStateIff`), and an id may be
  a balance of another token (`NewStateIff`);
- a script text with several calls yields copies of the first one (`ParsesAsIntendedIff`);
- reading a script into a used object keeps surplus arguments, and counts what is left in 32
  bits (`RoundTripIff`);
- sorting loses elements whose comparisons are no opposites (`SortsAllIff`);
- a range that ends behind a list shows a popped cell, and its bounds wrap around
  (`RangeIsSliceIff`); writing at an index adds the start of the list twice
  (`SetWritesIff`); and a list may share a key with one whose name is eight bytes longer
  (`RunsAreIdealIff`);
- a second score of a member stays in the index and shows (`AddKeepsIff`,
  `SecondScoreShows`), and negative scores sort behind all others (`RangeRightIff`); a plain
  set's element may have the key of a sorted set (`SetClashIff`);
- an item that occurs twice in a Merkle tree is not found (`VerifyIff`);
- an address whose number needs more than 32 bytes makes its check panic (`VerifyPanicsIff`).

## Model

| member | source | states |
|---|---|---|
| `U64.AddSubWrap` | util/util.go:3-6 | 64-bit addition and subtraction are arithmetic modulo 2^64, and each undoes the other |
| `U64.Uint64AddOverflow` | util/util.go:9-17 | true exactly when the unbounded sum of all operands leaves 64 bits |
| `U64.Uint64SubOverflow` | util/util.go:20-28 | true exactly when the first operand is less than the sum of the others |
| `Transactions.KindMatchesClassifiers` | transaction/transaction.go:213-247 | the tag classifiers never overlap in a way that changes a branch: each transaction has one kind, and every classifier agrees with it |
| `Transactions.CoinbaseIff` | types/address.go:40-47 | an address with any zero byte makes a coinbase, not only the zero address |
| `LedgerProofs.Step` | blockchain/blockchain.go:199-337 | one transaction that the dry run accepts commits (or its script fails), keeps the simulation between result maps and store, and moves every balance by its unbounded delta |
| `LedgerProofs.RunFollows` | blockchain/blockchain.go:199-337 | the same over any sequence of transactions, from any simulated state |
| `LedgerProofs.ScriptRunsIff` | blockchain/blockchain.go:288-302 | the script of a committed transfer runs exactly if it has both a script and a fee, for its sender; a script that is rejected fails the commit |
| `LedgerProofs.ConvertPckStep` | blockchain/blockchain.go:1542-1608 | an accepted kto-to-pck conversion never takes an error branch of the commit, and leaves pck and dKto as the dry run computed |
| `LedgerProofs.ConvertKtoStep` | blockchain/blockchain.go:1610-1675 | the same for a conversion back |
| `LedgerProofs.TransferSim` | blockchain/blockchain.go:811-842 | a committed transfer, fee and miner included, keeps stored balance at least available plus frozen everywhere |
| `LedgerProofs.FreezeStep` | blockchain/blockchain.go:212-245 | freezes and unfreezes touch no balance, and the dry run only moves amounts between available and frozen |
| `LedgerRuns.CommitFollowsDryRun` | blockchain/blockchain.go:887-1008 | if the dry run accepts a block, then at every prefix of the commit each address with a running available amount holds at least that plus its running frozen amount, pck and dKto match exactly, and no balance has wrapped |
| `LedgerRuns.Conservation` | blockchain/blockchain.go:187-354 | coins plus dKto grow by exactly what the block mints, whatever miner, fees and conversions; the dKto total is the sum over addresses and the pck total is that sum modulo 2^64 |
| `LedgerRuns.MintedIsCoinbase` | blockchain/blockchain.go:811-842 | a block mints at least its coinbase amounts, and exactly those if and only if no transfer goes to its own sender with something to move or pay |
| `LedgerRuns.ConservationIff` | blockchain/blockchain.go:811-842 | the supply grows by the coinbase amounts alone if and only if no transfer goes to its own sender |
| `LedgerRuns.FrozenAgrees` | blockchain/blockchain.go:212-245 | frozen amounts are read from committed state, so what is stored equals the dry run's result if and only if the block's freezes and unfreezes of the address before its last one cancel out |
| `LedgerRuns.OneFreezeCancels` | blockchain/blockchain.go:226-245 | that condition holds whenever no address is the target of two of them |
| `LedgerRuns.CoveredAtIff` | blockchain/blockchain.go:226-245 | after a committed block an address holds what it has frozen if and only if its last freeze or unfreeze, added to the stored frozen amount, is within its balance plus the block's changes |
| `LedgerRuns.CancelledIsCovered` | blockchain/blockchain.go:226-245 | an accepted block on a sound ledger whose freezes cancel out is covered |
| `LedgerRuns.BlockKeepsSound` | blockchain/blockchain.go:148-357 | an accepted and committed block adds what it mints, keeps totals matching, leaves frozen amounts covered if and only if the block is covered, and stores the dry run's frozen amounts if and only if its freezes cancel out |
| `LedgerRuns.RunKeepsSound` | blockchain/blockchain.go:891-906 | over every run of accepted blocks the totals match and the supply is what was minted; the frozen-exceeds-balance check never refuses an address if and only if each block is covered on the ledger it is built on |
| `LedgerRuns.SecondFreezeUncovers` | blockchain/blockchain.go:226-245 | a concrete block with an unfreeze and a freeze of one address that is accepted and commits, and leaves more frozen than stored |
| `Blockchain.StoreTxn.SetMinerFee` | blockchain/blockchain.go:689-701 | credits the fee, wrapping, and changes nothing else |
| `Blockchain.StoreTxn.SetToAccount` | blockchain/blockchain.go:791-809 | credits a coinbase, wrapping, and changes nothing else |
| `Blockchain.StoreTxn.SetAccount` | blockchain/blockchain.go:811-842 | reads both balances before writing either, so a transfer to oneself keeps only the credit |
| `Blockchain.StoreTxn.SetConvertPck` | blockchain/blockchain.go:1542-1608 | new balance, pck and dKto, or failure without a change |
| `Blockchain.StoreTxn.SetConvertKto` | blockchain/blockchain.go:1610-1675 | new balance, pck and dKto, or failure without a change |
| `Blockchain.Blockchain.StoredAvailable` | blockchain/blockchain.go:891-906 | stored balance minus stored frozen amount, refused when that is negative |
| `Blockchain.Blockchain.DebitSender` | blockchain/blockchain.go:889-954 | the sender half of one dry-run step, for all three kinds that debit |
| `Blockchain.Blockchain.CreditReceiver` | blockchain/blockchain.go:957-1006 | the receiver half of one dry-run step: available plus frozen coins of the receiver grow by what a coinbase or transfer brings, modulo 2^64, freezes only move them, and no other address changes |
| `Blockchain.Blockchain.CalculationResults` | blockchain/blockchain.go:871-1008 | the loop over the block computes the dry run of the ledger specification, or refuses |
| `Blockchain.Blockchain.CheckResults` | blockchain/blockchain.go:1061-1113 | accepts exactly when the last transaction is a coinbase and recomputing gives the claimed results |
| `Blockchain.Blockchain.NewBlock` | blockchain/blockchain.go:92-145 | the next height, the given transactions as a prefix, and coinbases that pay exactly the reward of that height |
| `Blockchain.Blockchain.CommitTx` | blockchain/blockchain.go:199-337 | one committed transaction is one step of the ledger specification, error cases included |
| `Blockchain.Blockchain.CommitTransferTx` | blockchain/blockchain.go:288-337 | the transfer branch: script first, then fee, nonce and amounts |
| `Blockchain.Blockchain.CommitConversion` | blockchain/blockchain.go:246-287 | the conversion branches with the running totals |
| `Blockchain.Blockchain.CommitTxs` | blockchain/blockchain.go:199-354 | the loop over a block is the specification's run, and stops at the first failure with the token store as the scripts up to there left it |
| `Blockchain.Blockchain.AddBlock` | blockchain/blockchain.go:148-357 | a block at the next height commits as specified; a failed one changes nothing but the token store, which holds what the scripts that ran have made of it |
| `Emission.PayOrders` | blockchain/blockchain.go:720-732 | order payees share a tenth equally, the remainder going to the e-commerce address with its own tenth |
| `Emission.CurrentReward` | blockchain/blockchain.go:707-712 | the loop computes the reward that decays by a fifth every 31536000 blocks |
| `Emission.PayCoinbases` | blockchain/blockchain.go:720-741 | all coinbases of a block, in order, with amounts that sum to the reward |
| `Emission.Distr` | blockchain/blockchain.go:704-742 | keeps its input as a prefix and appends coinbases that sum exactly to the reward, for any number of payees |
| `Emission.EmissionBounded` | blockchain/blockchain.go:707-712 | for every height, all rewards so far plus the genesis credit stay below 2^63 |
| `Emission.PotentialBounded` | blockchain/blockchain.go:707-712 | the geometric decay: coins issued plus five periods' worth of future ones never exceed five first periods |
| `Emission.RewardDecays` | blockchain/blockchain.go:707-712 | 49460000000 in the first period, the same within a period, and four fifths of it from one period to the next, rounded down |
| `Emission.PayeesIff` | blockchain/blockchain.go:714-719 | the payees are exactly the addresses of the orders that are signed and verify |
| `Emission.CoinbasesPay` | blockchain/blockchain.go:714-742 | what each address gets of a reward: a payee an equal share of a tenth for each of its orders, the e-commerce address a tenth and what that leaves, the miner four tenths and the remainder, the community four tenths, anyone else nothing |
| `ChainRuns.GenesisOnSchedule` | init.go:94-141 | the initial ledger has height zero and exactly the genesis credit, and is sound |
| `ChainRuns.BuiltMints` | blockchain/blockchain.go:92-145 | a block of selected transactions, conversions included, none of them a transfer to its own sender, and coinbases mints exactly the reward of its height |
| `ChainRuns.ChainOnSchedule` | txpool/txpool.go:115-262 | over every run of leader turns from genesis whose conversions meet their guards, whose selected transfers do not go to their own senders, and whose blocks are covered: each block built from the pool is accepted by the dry run, can only fail to commit on a script, and the supply is exactly the genesis credit plus the rewards up to the height, below 2^63 |
| `ChainRuns.RunFromGenesis` | blockchain/blockchain.go:148-357 | every run from genesis of accepted blocks whose coinbases pay the rewards: the totals match, the supply is exactly the genesis credit plus the rewards if and only if no transfer goes to its own sender, and no address is refused if and only if each block is covered |
| `TokenLedger.BlocksKeepSupplies` | blockchain/blockchain.go:290-302 | over every run of accepted blocks the token store is what the scripts of their token transfers make of it, and every token's supply is right at every moment if and only if each operation meets its guard |
| `TokenLedger.NodeFromGenesis` | blockchain/blockchain.go:148-357 | coins and tokens together, from genesis: the coins are on schedule without transfers to oneself, and the supply of every token is right as long as the guards hold |
| `NonceRuns.BuiltStoresNonces` | blockchain/blockchain.go:324-326 | a built block that commits moves the next nonce of each sender on by the number of its ready transactions |
| `NonceRuns.RunStoresNonce` | blockchain/blockchain.go:212-337 | after transactions without coinbases, each sender's stored nonce is the one behind its last, and no other changed |
| `NonceRuns.CommittedConsecutive` | blockchain/blockchain.go:148-357 | over every run of turns, scripts that fail included, the nonces each sender commits count up by one from its first, and the stored one follows them |
| `NonceRuns.NoNonceTwice` | blockchain/blockchain.go:212-337 | no two committed transactions have one sender and nonce, up to 2^64 of them |
| `NonceRuns.CommittedIsNotReady` | txpool/txpool.go:184-262 | nothing with the sender and nonce of a committed transaction is made ready at a later turn, whatever the pool and the order of popping |
| `NonceRuns.FromOneOn` | blockchain/blockchain.go:212-337 | from genesis the nonces a sender commits are one, two, three, and so on |
| `PendingSpec.SelectProgress` | txpool/txpool.go:127-262 | each popped transaction is dropped, kept waiting, or made ready with its sender's next nonce |
| `PendingProofs.ConvertPckLowerIff` | txpool/txpool.go:223-233 | a conversion to pck that is made ready is accepted by the dry run, and the running balance stays below the dry run's if and only if the address was met before or nothing is converted |
| `PendingProofs.ConvertKtoAcceptedIff` | txpool/txpool.go:234-245 | a conversion back that is made ready is accepted by the dry run if and only if the address has that much dKto, which the selection does not look at |
| `PendingProofs.SelectLowerIff` | txpool/txpool.go:140-262 | one popped transaction of any kind is accepted, and the pool's running balance stays below the dry run's, if and only if it meets its guard |
| `PendingProofs.SelectionAccepted` | txpool/txpool.go:127-262 | what is selected passes the dry run on the same ledger, for any pool and any order of popping in which each conversion meets its guard |
| `PendingProofs.PendingBlockAccepted` | txpool/txpool.go:115-268 | for such an order the selection is never abandoned, and followed by any coinbases it is a block the dry run accepts |
| `PendingProofs.GuardNeeded` | txpool/txpool.go:223-245 | after a conversion that does not meet its guard some transfer is selected such that the dry run refuses the block |
| `PendingProofs.AcceptedIff` | txpool/txpool.go:115-268 | every beginning of an order of popping, followed by any one transfer, gives a selection that is accepted if and only if each conversion meets its guard when it is popped |
| `PendingProofs.ConversionOversells` | txpool/txpool.go:223-245 | a concrete pool with one conversion whose selection the dry run refuses, because a missing map entry counts as zero |
| `PoolProofs.ReadyNoncesConsecutive` | txpool/txpool.go:184-262 | whatever the order of popping, each sender's ready nonces run from its chain nonce without a gap |
| `PoolProofs.SelectAllContents` | txpool/txpool.go:115-268 | ready and waiting transactions together are occurrences of popped ones |
| `PoolProofs.LimitsMonotone` | txpool/txheap.go:58-75 | any part of a pool within the limits is within the limits |
| `PoolProofs.FilteredCleanIff` | txpool/txpool.go:429-444 | deleting in place skips the element behind each deletion: the result is free of unwanted transactions if and only if no two neighbours were unwanted |
| `PoolProofs.FilteredKeeps` | txpool/txpool.go:429-444 | the filter keeps every wanted transaction and invents none |
| `PoolProofs.WantedIff` | txpool/txpool.go:429-444 | the filter's test passes exactly what is at most ten seconds old and clashes with nothing of the block, or anything if the block is empty |
| `TxPool.VerifiedIff` | txpool/txpool.go:273-400 | the checks pass exactly for what is admissible: a coinbase to a well-formed address, or something signed, from a well-formed address, with a nonce not passed, and covered by the stored amounts with the minimum amounts |
| `TxPool.AdmissibleIsReady` | txpool/txpool.go:273-400 | an admissible transaction with the next nonce is selected at once if it is a transfer or an unfreeze, a freeze exactly if its fee is covered too, a conversion exactly if the selection sees no overflow in it |
| `TxPool.TxPool.Check` | txpool/txheap.go:58-75 | true exactly when no pooled transaction has this sender and nonce and the sender has fewer than 1000 |
| `TxPool.TxPool.Add` | txpool/txpool.go:79-99 | adds exactly the admissible transactions, while the list holds at most 3000 and the sender fewer than 1000 and no pooled one has its sender and nonce; keeps the limits |
| `TxPool.TxPool.Pop` | txpool/txheap.go:42-48 | removes one element, whichever the heap yields |
| `TxPool.TxPool.Pending` | txpool/txpool.go:115-268 | returns the selection of some order of popping, at most 500, and keeps a sub-multiset of the pool within its limits; unless some address is overdrawn, the new pool is the old one without the popped transactions, and with exactly those of them that were ahead of their sender's running nonce, by less than 200, or for an unfreeze by more |
| `TxPool.TxPool.Filter` | txpool/txpool.go:429-444 | the loop with its skip computes the filter specification and keeps the limits; whatever is young enough and clashes with nothing of the block stays, and without unwanted neighbours nothing else does |
| `PendingKeeps.SelectDecides` | txpool/txpool.go:196-262 | exactly which popped transactions are made ready, and exactly which wait; all others are dropped |
| `PendingKeeps.PopKeepsBack` | txpool/txpool.go:129-268 | after each pop the waiting transactions are exactly the popped ones whose nonces were ahead of their senders' running nonces |
| `PendingKeeps.MissingNonceArrives` | txpool/txpool.go:189-262 | while the first of a covered chain of transfers is missing the others wait, in any order of popping; popped in order once it is there, all are made ready |
| `PendingKeeps.ChainProgress` | txpool/txpool.go:189-262 | of a covered chain of transfers popped in any order a beginning that is not empty is made ready in order, and exactly the others wait |
| `PoolRuns.PooledCameIn` | txpool/txpool.go:79-99 | over every run of adds, selections and filters from the empty pool, whatever is pooled was added at an earlier step: as a coinbase, or signed, from a well-formed address, with a nonce not below the chain's at that moment, and covered then |
| `PoolRuns.ReadyCameIn` | txpool/txpool.go:115-268 | the same of whatever is made ready |
| `PoolRuns.RunKeepsLimits` | txpool/txheap.go:58-75 | at every moment of a run no two pooled transactions have one sender and nonce, and the limits hold |
| `PoolRuns.GoodTransferComesIn` | txpool/txpool.go:273-400 | a signed transfer between well-formed addresses, covered with its fee, with a nonce not passed and at least the minimum amounts, is added while there is room |
| `AgreementNode.Node.constructor` | bftconsensus/bftnode/bftnode.go:49-54 | both cached heights start at the stored height |
| `AgreementNode.Node.AddBlock` | blockchain/blockchain.go:160-167 | a block is stored exactly at the next height and when it is valid on the chain |
| `AgreementNode.Node.Commit` | bftconsensus/bftnode/bftnode.go:232-255 | a stored block advances the last height, a refused one changes nothing |
| `AgreementNode.Node.RecoverBackwardBlocks` | bftconsensus/node/node.go:258-311 | the catch-up loop commits replies in order, skipping empty ones and stopping at the first failure |
| `AgreementNode.Node.Apply` | bftconsensus/node/node.go:69-163 | one log entry is skipped, delivered and committed, or filled from the leader, exactly as specified |
| `Agreement.RunAgrees` | bftconsensus/node/node.go:69-163 | in every run over a fork-free log, at every moment, every node holds a prefix of the canonical chain and both cached heights equal its length |
| `Agreement.CatchUpAgrees` | bftconsensus/node/node.go:258-311 | filling a gap from any agreeing node keeps agreement |
| `Agreement.ForkRun` | bftconsensus/node/node.go:69-163 | if an entry could extend a canonical prefix differently, some run of any cluster leaves it |
| `Agreement.AgreementIff` | bftconsensus/node/node.go:69-163 | all runs agree at every moment if and only if the log is fork-free |
| `Agreement.InOrderIsForkFree` | bftconsensus/node/node.go:69-163 | a log whose entries are neither above the next canonical height nor repeated is fork-free |
| `AgreementProgress.CatchUpReaches` | bftconsensus/node/node.go:258-311 | catching up ends with exactly the blocks before the first reply that is missing, empty, or does not commit |
| `AgreementProgress.ApplyReaches` | bftconsensus/node/node.go:118-160 | a node behind the entry it applies, whatever its caches say, reads its height back and gets that far |
| `AgreementProgress.ApplyCatchesUp` | bftconsensus/node/node.go:69-163 | if the leader sends all its blocks and each commits on those before it, the node holds the leader's chain afterwards, with both caches at its height |
| `AgreementProgress.RunCatchesUp` | bftconsensus/node/node.go:69-163 | in every run over a fork-free log, a node behind an entry that gets all blocks of a node that has it holds exactly that node's chain afterwards |
| `AgreementProgress.NextCommitsIff` | bftconsensus/node/node.go:92-113 | the entry after the cached height is committed exactly if both caches are the chain's height and both rules accept it; otherwise nothing changes |
| `Lexer.Lex.Getc` | contract/parser/word.go:34-49 | returns the next character of the unread text across refills of 1024 bytes and one pushed-back character, or the end |
| `Lexer.Lex.Fill` | contract/parser/word.go:38-45 | a refill moves the next stretch of the text into the buffer and leaves the unread text as it was |
| `Lexer.Lex.Ungetc` | contract/parser/word.go:28-53 | restores the text from before the last read |
| `Lexer.Lex.SkipNewline` | contract/parser/word.go:56-63 | skips exactly the leading newlines |
| `Lexer.Lex.GetWord` | contract/parser/word.go:65-77 | an identifier is the longest run of letters, digits and underscores |
| `Lexer.Lex.GetDigit` | contract/parser/word.go:108-147 | a number as specified, octal after a leading zero, an error outside 64 bits |
| `Lexer.Lex.GetLiteral` | contract/parser/word.go:80-105 | a string ends at its quote; the end of the text, a newline or a backquote is an error |
| `Lexer.Lex.Symbol` | contract/parser/word.go:149-171 | each call yields the first token of the unread text, and leaves the rest |
| `LexSpec.Lex` | contract/parser/word.go:149-171 | every token and every error consumes text, so lexing ends |
| `LexCases.LexOct` | contract/parser/word.go:108-147 | a zero and octal digits lex to their octal value |
| `LexCases.LexNotOct` | contract/parser/word.go:108-147 | with an eight or a nine behind a leading zero a number is an error that consumes all its digits |
| `LexCases.LexNotHex` | contract/parser/word.go:108-147 | a number goes on with hexadecimal letters, which make it an error that consumes them all |
| `LexCases.LexZero` | contract/parser/word.go:108-147 | a zero not followed by a digit is a number of its own, so there are no hexadecimal numbers |
| `LexCases.LexLongest` | contract/parser/word.go:65-77 | letters, underscores and digits that begin with no digit are one word, up to any other character |
| `LexCases.LexBroken` | contract/parser/word.go:80-105 | a newline inside a string is an error that consumes it |
| `LexCases.NameAlone` | contract/parser/parser.go:86-115 | a bare name is one call without arguments: no script if it is known, no call otherwise |
| `LexCases.LexSingle` | contract/parser/word.go:80-105 | a text in single quotes lexes back to itself if and only if it holds no single quote, backquote or newline |
| `LexCases.BlankSkipped` | contract/parser/word.go:149-171 | blanks and newlines in front of a token do not matter |
| `LexCases.StrayIsBad` | contract/parser/word.go:149-171 | any other character that begins no token is an error and is passed over alone |
| `Parser.ScriptParser.Getw` | contract/parser/parser.go:43-58 | the pushed-back word if there is one, else the next; an error yields none but consumes its text |
| `Parser.ScriptParser.PeekWord` | contract/parser/parser.go:60-66 | the next word, which stays next |
| `Parser.ScriptParser.Primary` | contract/parser/parser.go:144-159 | an argument is a number or a string |
| `Parser.ScriptParser.ArgumentList` | contract/parser/parser.go:118-141 | an argument list runs to the end of the text or an error, and fails at an identifier |
| `Parser.ScriptParser.FunctionCall` | contract/parser/parser.go:86-115 | a name and its arguments, if any |
| `Parser.ScriptParser.Run` | contract/parser/parser.go:176-194 | appends all calls of the text or fails as specified |
| `Parser.TakeArgument` | contract/parser/operate.go:209-216 | appends an argument exactly if its type fits |
| `Parser.Operate0` | contract/parser/operate.go:44-69 | `new` takes an id and two amounts, by the one table of signatures |
| `Parser.Operate1` | contract/parser/operate.go:72-91 | `mint` takes an id and an amount |
| `Parser.Operate2` | contract/parser/operate.go:94-119 | `transfer` takes an id, an amount and an address |
| `Parser.OperateMark` | contract/parser/operate.go:122-163 | `freeze` and `unfreeze` take an id and an address |
| `Parser.ParseScripts` | contract/parser/operate.go:25-41 | one script per call of the text, but every one made from the first call; nothing for an unknown name |
| `ScriptText.NewRoundTrip` | api/grpcserver.go:634 | the printed `new` text parses to exactly that one script if and only if the symbol holds no quote, backquote or newline |
| `ScriptText.MintRoundTrip` | api/grpcserver.go:697 | the same for `mint` |
| `MarkedScripts.MarkRoundTrip` | contract/parser/operate.go:122-163 | `freeze` and `unfreeze` scripts come back from their texts if and only if both arguments can be quoted |
| `ScriptText.TransferRoundTrip` | api/grpcserver.go:757 | the same for `transfer`, for symbol and recipient |
| `ScriptText.OneScript` | contract/parser/parser.go:118-194 | a text without lexical errors has at most one call, and yields the script of that call |
| `ScriptText.ParsesAsIntendedIff` | contract/parser/operate.go:25-41 | parsing yields the script of each call if and only if the text has at most one call, the first name is unknown, or all names are known and all calls have the name and leading arguments of the first, or are ill-typed like it |
| `ScriptText.OperateSameIff` | contract/parser/operate.go:44-163 | two calls make the same script if and only if both are ill-typed, or have one name and the same arguments as far as its signature goes |
| `ScriptText.SecondCallLost` | contract/parser/operate.go:25-41 | two printed mints with two bad characters between them stand for two scripts but yield the first one twice |
| `ScriptText.LexDec` | contract/parser/word.go:108-147 | every printed 64-bit number lexes back to itself |
| `ScriptText.LexQuoted` | contract/parser/word.go:80-105 | a quoted text lexes back to itself if and only if it can be quoted, and whatever string is read can be |
| `PrintedScripts.PrintedTransfer` | api/grpcserver.go:757 | from API call to store: rejected exactly for an unknown token or too small a balance, else exactly the amount moves and nothing else changes |
| `PrintedScripts.PrintedMint` | api/grpcserver.go:697 | from API call to store: rejected exactly for a foreign token or an exceeded total, else balance and counter grow by the amount and nothing else changes |
| `PrintedScripts.PrintedNew` | api/grpcserver.go:634 | from API call to store: rejected exactly for an existing token, else the five entries and nothing else, every supply being right exactly under the guard |
| `MarkedScripts.PrintedMark` | contract/exec/exec.go:286-318 | from text to store: rejected exactly if the executor did not issue the token, else the one byte 1 or 0 under token and address, and nothing else changes |
| `ScriptCodec.ScriptObject.ShowBytes` | contract/parser/otypes.go:81-90 | writes the specified bytes, the count cut to 32 bits |
| `ScriptCodec.ScriptObject.ReadBytes` | contract/parser/otypes.go:92-117 | reads into the object as specified, partly filled on failure |
| `ScriptCodec.ReadArgument` | contract/parser/otypes.go:55-78 | reads back whatever argument was written, over any old one, and leaves the rest, if and only if its text fits what is left, cut to 32 bits |
| `ScriptCodec.CellRoundTrip` | contract/parser/otypes.go:43-78 | an argument of any type comes back from its bytes, or reading fails, just if its text does not fit what is left, cut to 32 bits |
| `ScriptCodec.ReadShow` | contract/parser/otypes.go:81-117 | reading what was written returns the name, the rest of the bytes, and the arguments followed by old ones beyond their number, or fails just if a text does not fit |
| `ScriptCodec.RoundTripIff` | contract/parser/otypes.go:81-117 | the object becomes what was written if and only if each text fits what is left, cut to 32 bits, and the object held no more arguments than that, counted in 32 bits |
| `ScriptCodec.ShortFits` | contract/parser/operate.go:278-287 | every text fits when all there is to read is shorter than 2^32 bytes |
| `ScriptCodec.ShowPrefixFree` | contract/parser/otypes.go:81-90 | equal bytes mean equal scripts, of whatever length: no written script is the beginning of another |
| `ScriptCodec.ParsedSurvives` | contract/parser/otypes.go:43-117 | a script the argument walker makes survives writing and reading if and only if its texts fit |
| `ScriptCodec.MintBytes` | contract/parser/otypes.go:43-91 | the bytes of one whole script, lengths and numbers least significant byte first |
| `ScriptCodec.UnknownStalls` | contract/parser/otypes.go:55-78 | an argument of unknown type is not passed over: every later argument gets that type too, and keeps its value |
| `ScriptCodec.CutOffChangesNothing` | contract/parser/otypes.go:92-104 | bytes that end within count or name leave the object as it was |
| `ScriptCodec.SliceRoundTrip` | contract/parser/operate.go:271-287 | a length-prefixed text shorter than 2^32 comes back with the rest if and only if both lengths together, modulo 2^32, are at least its own |
| `TokenExec.Exec.New` | contract/exec/exec.go:91-122 | `new`: refused for an existing id, else the five entries of a token; every supply stays right if and only if the total fits int64 and the owner's entry is no balance or counter of another token |
| `TokenExec.Exec.Mint` | contract/exec/exec.go:125-202 | `mint`: does not crash, and keeps every supply right if and only if the amount fits int64 or takes back no more than the issuer holds |
| `TokenExec.Exec.Transfer` | contract/exec/exec.go:205-283 | `transfer`: both balances read before either is written; does not crash, and keeps every supply right exactly under the guard on recipient, id and amount |
| `TokenExec.Exec.Mark` | contract/exec/exec.go:286-318 | `freeze` and `unfreeze` write one mark and keep every supply right |
| `TokenExec.Exec.Run` | contract/exec/exec.go:54-62 | a well-formed script operation does not crash; if it is done, numbers can still be read, and every supply is right after it if and only if its guard holds |
| `TokenExec.Exec.Flush` | contract/exec/exec.go:79-88 | the overlay written over the store |
| `TokenExec.RunAndFlush` | blockchain/blockchain.go:290-302 | running and flushing a script is the specification's execution |
| `TokenRuns.NewStateIff` | contract/exec/exec.go:91-122 | declaring a token keeps every supply right if and only if, for a plain id, its total fits int64, and the owner's entry is not read as a balance or counter that another token's supply depends on |
| `TokenProofs.NewEntryIff` | contract/exec/exec.go:91-122 | the entry under a new id changes the supply of another token if and only if it reads as a number other than zero and is a balance of that token, or the counter of its owner |
| `TokenRuns.MintStateIff` | contract/exec/exec.go:125-202 | a mint that is not refused keeps every supply right if and only if its amount is below 2^63 or only takes back what the issuer holds |
| `TokenRuns.TransferStateIff` | contract/exec/exec.go:205-283 | a transfer that is not refused keeps every supply right if and only if nothing moves, or it goes to another address, or neither id nor recipient key belong to a plain token |
| `TokenRuns.DealStateIff` | contract/exec/exec.go:54-318 | any known operation does not crash; if it is done, numbers can still be read, and every supply is right after it if and only if its guard holds |
| `TokenRuns.DealAllStateIff` | contract/exec/exec.go:54-62 | over all operations of a script: every supply is right at every moment if and only if each that is done meets its guard |
| `TokenRuns.RefusedIff` | contract/exec/exec.go:87-318 | which operation is refused, and with which error; below 2^63 a mint overflows exactly if the counter would exceed the total |
| `TokenRuns.SameScript` | contract/exec/exec.go:87-240 | to the script that makes it, a token can be transferred but not minted |
| `TokenRuns.RunKeepsSupply` | contract/exec/exec.go:54-62 | over every run of requests, at every moment, the balances of each token sum to its minted counter, which stays within the declared total, if and only if each operation that is done meets its guard |
| `TokenRuns.EmptyStoreOk` | contract/exec/exec.go:54-62 | the empty store satisfies the supply invariant |
| `TokenProofs.TransferFits` | contract/exec/exec.go:205-283 | no credit of a recipient overflows while the supply invariant holds |
| `TokenProofs.WriteBalanceIff` | contract/exec/exec.go:205-283 | writing a balance keeps its token's supply right if and only if the balance stays the same |
| `TokenProofs.Families` | contract/exec/exec.go:333-381 | balance, counter and total keys of different tokens never meet for addresses of fixed length |
| `KeyValue.BelowBE` | util/store/bg/bg.go:882-890 | big-endian numbers are ordered as byte strings the way they are as numbers |
| `KeyValue.AscendingElements` | util/store/bg/bg.go:769-789 | an iterator's keys: exactly those in the set, in increasing order |
| `ListStore.ListTxn.ListStartEnd` | util/store/bg/bg.go:791-798 | returns the window that was written; otherwise the error, a panic for a value of at most eight bytes |
| `ListStore.ListTxn.Llpush` | util/store/bg/bg.go:521-538 | puts the element in front of the list, making one if there is none, and returns the new length |
| `ListStore.ListTxn.Lrpush` | util/store/bg/bg.go:558-575 | puts the element behind the list, making one if there is none, and returns the new length |
| `ListStore.ListTxn.Llpop` | util/store/bg/bg.go:540-556 | takes the first element off the list, or fails without a change just if the list is empty |
| `ListStore.ListTxn.Lrpop` | util/store/bg/bg.go:577-593 | takes the last element off the list, or fails without a change just if the list is empty |
| `ListStore.ListTxn.Llclear` | util/store/bg/bg.go:508-519 | deletes the cells of the window and the window |
| `ListStore.ListTxn.Llen` | util/store/bg/bg.go:500-506 | the number of elements, zero for a list that does not exist |
| `ListStore.ListTxn.Lindex` | util/store/bg/bg.go:612-627 | the element at a signed index, or the empty text outside the list |
| `ListStore.ListTxn.Lset` | util/store/bg/bg.go:595-610 | writes the element at a signed index of a list that starts at zero; elsewhere the cell its start adds to twice |
| `ListStore.ListTxn.Lrange` | util/store/bg/bg.go:629-660 | the range loop as specified, missing cells passed over; one that ends at the largest index never ends |
| `ListProofs.LeftPushed` | util/store/bg/bg.go:521-538 | a left push puts the element in front and returns the new length |
| `ListProofs.RightPushed` | util/store/bg/bg.go:558-575 | a right push puts the element behind and returns the new length |
| `ListProofs.LeftPopped` | util/store/bg/bg.go:540-556 | a left pop returns and removes the first element, with the right error otherwise |
| `ListProofs.RightPopped` | util/store/bg/bg.go:577-593 | a right pop returns and removes the last element, with the right error otherwise |
| `ListProofs.CellCell` | util/store/bg/bg.go:821-826 | cell keys are equal exactly for the same list and index |
| `ListProofs.WriteFrame` | util/store/bg/bg.go:801-826 | writes to one list change no key, within reach, of a list whose name does not clash within that reach |
| `ListRuns.RunRefines` | util/store/bg/bg.go:496-593 | any run of pushes, pops and clears on several lists replies as the same run on double-ended sequences and keeps refining them, for names of which none is another followed by an index within reach |
| `ListRuns.RunsAreIdealIff` | util/store/bg/bg.go:496-593 | all runs of at most n operations from an empty store are those of double-ended sequences if and only if no name is another followed by the eight bytes of an index from -n to n-1 |
| `ListRuns.SharedKey` | util/store/bg/bg.go:801-826 | pushes of a short element up to any cell of a list leave the list named like that cell's key unusable: every operation on it panics |
| `ListRuns.ReadsAfterRun` | util/store/bg/bg.go:500-660 | after any such run the length, every index and every range are those of the ideal sequence, ranges exactly when they are slices |
| `ListRuns.RunElsewhere` | util/store/bg/bg.go:496-593 | no run of list operations changes a key that belongs to no list |
| `ListReads.LenReads` | util/store/bg/bg.go:500-506 | the length is the number of elements |
| `ListReads.WindowReadable` | util/store/bg/bg.go:791-818 | a stored window can be read if and only if it has more than eight bytes, and is then filled up with zeros, or cut off, to sixteen |
| `ListReads.IndexReads` | util/store/bg/bg.go:612-627 | an index counts from the front, or from the back if negative, and never wraps around |
| `ListReads.RangeReads` | util/store/bg/bg.go:629-660 | for all bounds: the elements between the indices they denote after wrapping, followed by the cell behind the list if the range reaches that, or a loop that never ends |
| `ListReads.RangeIsSliceIff` | util/store/bg/bg.go:629-660 | for all bounds: a range is the slice it asks for if and only if it ends, reaches no existing cell behind the list, and no bound wraps around, unless nothing lies between the bounds before and after wrapping |
| `ListReads.PoppedStaysVisible` | util/store/bg/bg.go:577-660 | an element popped on the right is still returned by a range that asks for its old index |
| `ListReads.WrapMisses` | util/store/bg/bg.go:634-643 | if a bound wraps around, nothing was asked for or nothing is returned |
| `ListReads.LargestIndexWraps` | util/store/bg/bg.go:634-643 | after left pops, a range to an index whose sum with the front wraps returns nothing, and one from it to the last element returns the whole list |
| `ListReads.SetWritesIff` | util/store/bg/bg.go:595-610 | writing at an index changes that element and no other if and only if the list starts at zero, or it and the element written instead hold the value already |
| `ListReads.ClearDeletes` | util/store/bg/bg.go:508-519 | clearing a list deletes its window and every cell in it, and nothing else |
| `ListReads.FailureKeeps` | util/store/bg/bg.go:508-610 | whatever the store holds, a push, pop, write or clear that fails changes nothing |
| `ZsetStore.ZsetTxn.Zadd` | util/store/bg/bg.go:759-767 | makes that member and no other one with the score; index and scores stay in agreement if and only if it is new or has the same score |
| `ZsetStore.ZsetTxn.Zscore` | util/store/bg/bg.go:750-757 | the score of a member, or the error for anything else |
| `ZsetStore.ZsetTxn.Zdel` | util/store/bg/bg.go:734-748 | removes that member alone and keeps index and scores in agreement, or the error if it is no member |
| `ZsetStore.ZsetTxn.Zclear` | util/store/bg/bg.go:712-732 | removes what each index key stands for |
| `ZsetStore.ZsetTxn.Zrange` | util/store/bg/bg.go:769-789 | the scan from the start score up to the first score above the end |
| `ZsetProofs.ScoreKeyDecodes` | util/store/bg/bg.go:882-897 | index keys decode to their score and member |
| `ZsetProofs.ScoreKeyDecodesIff` | util/store/bg/bg.go:893-898 | they do if and only if the name is shorter than 2^32 - 9, where the decoder's sums start to wrap around |
| `ZsetProofs.KeyOrder` | util/store/bg/bg.go:882-890 | index keys are ordered by score as an unsigned number and then by member |
| `ZsetProofs.AddStays` | util/store/bg/bg.go:759-767 | any add makes that member and no other one with the new score, and puts it into the index beside what is there |
| `ZsetProofs.AddKeepsIff` | util/store/bg/bg.go:759-767 | an add keeps index and scores in agreement if and only if the member is absent or has the same score |
| `ZsetProofs.SecondScoreShows` | util/store/bg/bg.go:759-789 | after a second score, a range that asks for the first one alone still returns the member |
| `ZsetProofs.RemoveStays` | util/store/bg/bg.go:734-748 | a deletion removes that member alone, and its score alone from the index, whatever else the index holds |
| `ZsetProofs.RemoveKeeps` | util/store/bg/bg.go:734-748 | a deletion keeps index and scores in agreement |
| `ZsetProofs.ClearEmpties` | util/store/bg/bg.go:712-732 | a clear leaves neither members nor index entries, even of members with several scores |
| `ZsetProofs.RangeFinds` | util/store/bg/bg.go:769-789 | for all bounds and whatever the index holds: a range returns, in order and each once, the entries from its start on up to the first with a score above its end |
| `ZsetProofs.RangeRightIff` | util/store/bg/bg.go:769-789 | a range is exactly the members it asks for if and only if it starts below zero and asks for no member that is not negative, or starts at zero or above and a member beyond its end stops it or no negative one is left |
| `ZsetRuns.FamiliesApart` | util/store/bg/bg.go:866-890 | no key belongs to two sorted sets |
| `ZsetRuns.OthersOutside` | util/store/bg/bg.go:801-857 | keys of maps, lists and plain sets with names not of length 122 modulo 256 belong to no sorted set |
| `ZsetRuns.SetClashIff` | util/store/bg/bg.go:850-890 | an element of a plain set has a key in the family of a sorted set if and only if the set's length is 122 modulo 256 and the rest of its key reads as the length and name of that sorted set |
| `ZsetRuns.RunRefines` | util/store/bg/bg.go:712-789 | any run on several sorted sets replies as the same run on ideal sets of scores and index entries, keeps refining them, and leaves every other key of the store alone |
| `ZsetRuns.AlwaysIndexedIff` | util/store/bg/bg.go:712-767 | index and scores agree at every moment of a run if and only if the run gives no member a second score |
| `ZsetRuns.RangeAfterRun` | util/store/bg/bg.go:769-789 | after any run from an empty store, for all bounds, a range returns, in order and each once, exactly the index entries from its start on up to the first with a score above its end |
| `ZsetRuns.RangeRightAfterRun` | util/store/bg/bg.go:769-789 | after a run that gives no member a second score, a range is the ideal one exactly under the condition of `RangeRightIff` |
| `Merkle.PowerOfTwo0IsHighBit` | util/merkle/merkle.go:30-36 | clearing lowest bits ends at the largest power of two up to n |
| `Merkle.SplitStrict` | util/merkle/merkle.go:39-44 | for n of at least two, 1 <= p < n <= 2p for the split p, which is a power of two, so construction ends |
| `Merkle.TreeHoldsData` | util/merkle/types.go:146-154 | there is a tree if and only if no item is empty, its leaves in order are the items, and every node carries the hash of what is below |
| `Merkle.TreeIff` | util/merkle/types.go:146-154 | the tree of a list is the one tree with these leaves in which every node carries its hash and every left side holds a power of two of leaves, less than all and at least half of them |
| `Merkle.RootBinds` | util/merkle/types.go:146-154 | two lists of one length with equal roots are equal, or two distinct hashed inputs collide |
| `Merkle.PathsFlatten` | util/merkle/merkle.go:64-86 | the proof of a datum is the ways to all leaves with its hash, strung together |
| `Merkle.ValidatePaths` | util/merkle/merkle.go:94-114 | that proof validates only for a single leaf, or if the hash is the root's |
| `Merkle.VerifyIff` | util/merkle/merkle.go:122-126 | a datum is accepted if and only if exactly one item has its hash or its hash is the root's |
| `Merkle.SoleHolderAccepted` | util/merkle/merkle.go:122-126 | an item held by one leaf is accepted if no other item has its hash |
| `Merkle.RepeatedItemRejected` | util/merkle/merkle.go:122-126 | an item that occurs twice is rejected unless its hash is the root's |
| `Merkle.AcceptedHash` | util/merkle/merkle.go:122-126 | whatever is accepted has the hash of an item or of the root |
| `Base58.LetterIndex` | util/base58.go:17-56 | alphabet and index table are inverse to each other |
| `Base58.Alphabet` | util/base58.go:17-56 | the letters are the digits and letters in the order of their codes, without 0, I, O and l |
| `Base58.EncodeDecode` | util/base58.go:62-146 | every byte string comes back from its text, leading zeros included |
| `Base58.DecodeEncodeIff` | util/base58.go:62-146 | a text comes back from its bytes if and only if it is over the alphabet |
| `Base58.KeysFit` | util/base58.go:148-179 | 2^256 <= 58^44 |
| `Base58.KeyRoundTrip` | util/base58.go:93-179 | a 32-byte key has a text of exactly 44 characters, from which it comes back |
| `Base58.KeyTextIff` | util/base58.go:93-117 | decoding 44 characters panics exactly for valid texts of 2^256 and more; all other valid ones are the text of their key |
| `Positional.ConvertBack` | util/base58.go:62-146 | changing the base and back is the identity, leading zeros kept |
| `Base58Codec.EncodeBytes` | util/base58.go:120-146 | repeated division, leading zeros and the reversal compute the text |
| `Base58Codec.EncodeKeyBytes` | util/base58.go:148-179 | the same with padding to the width of the key |
| `Base58Codec.DecodeText` | util/base58.go:62-91 | accumulation from the last character computes the bytes |
| `Base58Codec.DecodeKeyText` | util/base58.go:93-117 | the same with 32 bytes, or a panic |
| `Base58Codec.Turn` | util/base58.go:139-143 | the swaps reverse the buffer in place |
| `Addresses.AddressRoundTrip` | types/address.go:31-38 | a 32-byte key gives a 47-byte address, `Kto` and 44 letters, that verifies and decodes back to the key |
| `Addresses.CopiedAt` | types/address.go:22-28 | copying bytes into an address cuts them off, or fills up with zero bytes |
| `Addresses.VerifiesIff` | types/address.go:62-69 | an address verifies if and only if it is that of a 32-byte key |
| `Addresses.VerifyPanicsIff` | types/address.go:62-69 | checking an address panics exactly if its text is valid but denotes 2^256 or more |
| `Slices.Filter` | util/slice/slice.go:23-35 | keeps exactly the elements that pass, in order |
| `Slices.PartitionPermutes` | util/slice/slice.go:104-117 | where `ge` is the opposite of `lt` on the elements, the two filters and the pivot share out the stretch |
| `Slices.PartitionRange` | util/slice/slice.go:104-117 | one round writes the lower part, the pivot and as much of the upper part as fits, keeps what was behind, and queues the parts, whatever the two comparisons |
| `Slices.StepOrders` | util/slice/slice.go:102-119 | positions that share no queued range stay in order |
| `Slices.Round` | util/slice/slice.go:102-119 | with opposite comparisons a round keeps the multiset, the disjoint queue and the order |
| `Slices.Qsort` | util/slice/slice.go:96-121 | the loop computes the rounds of the specification; the result is a sorted permutation of the input if `lt` is a strict order of its elements and `ge` the opposite |
| `Slices.SortsAllIff` | util/slice/slice.go:96-121 | for a strict order `lt`, every list of some elements is sorted to a permutation if and only if `ge` is the opposite of `lt` on them, or nothing is below anything and each pivot has all or none of them not below it |
| `Slices.RoundLighter` | util/slice/slice.go:102-119 | each round makes the queue lighter, so the sort ends whatever the comparisons |
| `Slices.Bsearch` | util/slice/slice.go:123-137 | what is found is equal; under a total order, in a sorted list, -1 if and only if there is none |

## Left out

- Blockchain.Blockchain.CheckResults: leader and followers compare the result maps themselves, not their hash.
- Blockchain.Blockchain.NewBlock: the previous hash, the Merkle root, the block hash and the timestamp are not part of a block.
- TokenExec.RunAndFlush: a script that makes the executor panic counts as one that is rejected.
- TokenRuns.RunKeepsSupply: says nothing of the supply of a token whose id is shaped like a derived key; executors are addresses of 47 bytes, as the type of addresses makes them.
- Agreement.AgreementIff: the leader of a catch-up answers with blocks of some node's chain at the requested heights.
- ListRuns.RunRefines: for fewer than 2^63 operations, after which the window could leave the range of int64.
- ZsetRuns.RunRefines: for names shorter than 2^32 - 9 bytes; `ScoreKeyDecodesIff` shows that longer ones do not decode.
- Lexer.Lex.Symbol: the type of the last token and its value are one field instead of three, so stale ones are not modelled.
- gRPC, HTTP, gossip, logging, configuration, JSON, raft and Badger internals: I/O or unseen libraries. A store transaction is an update of a map, an iterator the sorted keys at its creation.
- Ed25519, SHA and order signatures: parameters (`TxPool.Crypto`, the `vertify` parameter of `Emission.Distr`, the hash of `Merkle`).
- `DeleteBlock` and `RecoverBlock`: their branches do not mirror the commit, so nothing is undone; `vote.go`, `handleBlockData` and `delAccount` have no caller.
- The ledger's byte keys: balances, frozen amounts, pck, dKto and nonces are separate maps by address, so a collision between those key families is not modelled. The transaction index and the per-address history are not modelled either.
- `GetNonce` storing its default for an address without a nonce: the default is read, not written.
- The heap order of the pool: a pop yields any element, so every theorem about a selection holds for every order of popping.
- Wall-clock time is a parameter; locks and the interleaving of API calls with a selection are not modelled.
- Atomicity across the two databases: scripts that ran before a failed transaction keep their effect on the token store, as in the code.
- Fee recipients that differ between nodes: in the agreement model block validity depends on the chain alone, and heights do not wrap.
- Plain sets and maps: their operations are single reads and writes. Only their keys matter here, for the sorted sets.
- The aliasing of appended slices in `constructPath` and of iterator keys in `zclear`: paths and keys are values.
- The fold and map wrappers, `Nub`, `Delete` and `Push` of the slice package: easy members.
- `rate` and `post` scripts, which are not registered, and the token queries of the API.
