# Verified model of the dbx database agents

dbx reaches databases through small agent processes (Go drivers for Oracle, Xugu and Kingbase) and, where there is no
direct route, through a PHP script that tunnels a TCP stream over HTTP. This project models the hand-written state
machines, scanners and printers of those agents and proves what they promise.

| files | what they model |
|---|---|
| `Text.dfy`, `QuotedIdentifiers.dfy` | string helpers of the Go and PHP libraries, and delimited identifiers, shared by the rest |
| `SqlLexer.dfy`, `SqlGrammar.dfy` | the four scanning loops of the Oracle driver, against one character-level lexer, and what they make of literals, comments and nested parentheses |
| `OracleTokens.dfy`, `OracleSelect.dfy`, `OracleSplice.dfy`, `OracleListBounds.dfy` | the XMLTYPE query rewriter: reading a SELECT over one table, rewriting its items, splicing nested SELECTs, and where the select lists are |
| `OracleTable.dfy`, `OracleItemText.dfy`, `OracleStatement.dfy`, `OracleLead.dfy` | the forms of tables, aliases, columns, stars and whole statements, in literal text, and what is read and written for each |
| `OracleItems.dfy`, `OracleReparse.dfy`, `OracleRoundTrip.dfy`, `OracleRewritten.dfy`, `OracleIdempotence.dfy` | a rewritten statement reads back as what it should be, and is not rewritten again |
| `OracleMeaning.dfy`, `OracleNested.dfy` | what a select list yields for a row before and after, for one statement and for those in parentheses |
| `OracleGlued.dfy`, `OracleShifted.dfy`, `OracleComments.dfy` | three statements that go wrong, and the exact condition for reading back |
| `OracleBinds.dfy` | the bind-variable scanner |
| `XuguRuntime.dfy`, `XuguHistory.dfy`, `SessionRegistry.dfy`, `ActiveOperation.dfy` | sessions, shared control connections, timeout timers and cancel requests, one step for each lock region |
| `Paging.dfy`, `CursorAccounting.dfy` | paged cursors with one row of lookahead, and who holds which cursor |
| `XuguSplit.dfy`, `XuguGrammar.dfy`, `XuguCatalogText.dfy`, `XuguCatalogForms.dfy`, `XuguForeignKeyText.dfy`, `XuguDsn.dfy` | Xugu catalog text, a reader of the statements printed from it, and data source names |
| `KingbaseUrl.dfy`, `KingbaseUrlText.dfy`, `KingbaseDsn.dfy`, `KingbaseMode.dfy`, `KingbaseBuild.dfy`, `KingbaseFields.dfy` | Kingbase connection strings in URL and keyword form, the TLS mode in them, and a reader of the fields printed |
| `Tns.dfy`, `TnsLayout.dfy`, `TnsText.dfy` | the `tnsnames.ora` reader with included files |
| `Base64.dfy`, `TunnelQueue.dfy`, `Tunnel.dfy`, `TunnelHistory.dfy` | the PHP tunnel's queue files and the interleaving of its processes |

Loops and methods of the source are methods here, each proved against a recursive specification function; the laws are
lemmas about those functions, and the functions that read or print text are pinned by statements in literal words and
characters. Concurrent code is a state machine whose steps are the lock regions, and its laws hold for
every sequence of steps.

## What the code does not keep

Where a promise fails, the model keeps the code as it is, shows a case, and proves when the promise holds.

- A select list that directly follows its keyword (`select* from docs d`) is rewritten to text that is glued to the
  keyword: `OracleGlued.GluedIsNotPreserved`.
- The rewrite trims the items of the list, so the line end that ends a comment after an item is lost and the rest of the
  statement becomes part of the comment: `OracleComments.CommentSwallowsTheRest`. With the point before,
  `OracleComments.ReadAsMeantExactly` is the exact condition on the statement.
- White space at the end of an inner SELECT moves the position of its select list by as many characters, so that
  `(select ax from t  )` is cut inside `ax`: `OracleShifted.NestedEditInsideIdentifier`. `OracleListBounds.ReadListIsTrue`
  is the exact condition. Top-level statements are trimmed before.
- Closing a Xugu session leaves its control key set, so a validate request that fetched the session earlier can release
  the control of other sessions: `XuguRuntime.DoubleRelease`; `XuguRuntime.EveryRunKeepsInv` says exactly in
  which runs.
- Kingbase does not look at the cap of 256 sessions again when it registers one: `SessionRegistry.KingbaseUnbounded`;
  `SessionRegistry.KingbaseExceedsExactly` says from which states the cap can be exceeded.
- A Kingbase keyword string with a field that is not well formed (no value, an open quote, a dangling backslash, also one
  that trimming a field uncovers) swallows what follows it: `KingbaseMode.RewriteSplits`,
  `KingbaseMode.UnclosedQuoteHidesMode`.
- The Kingbase mode is written without quotes, so one that is not a single value becomes several fields:
  `KingbaseBuild.ModeBringsHost`, `KingbaseBuild.QuotesAreLost`; the exact conditions are in `KingbaseBuild.AskedIsRead`
  and `KingbaseBuild.AskedIsReadNative`.
- The tunnel answers 410 while bytes are queued when the worker appends and closes between the drain and the look at the
  flag of one read request: `Tunnel.GoneTooEarly`, `Tunnel.GoneWithBytesQueued`.
- Read requests of one session that overlap, which the script accepts, can bring the bytes in the wrong order:
  `Tunnel.Overtaken`. The client sends one at a time, and then the order holds: `Tunnel.ReceivedIsPrefix`.

## Model

| member | source | states |
|---|---|---|
| `SqlLexer.SkipQuotedSQL` | agents/drivers/oracle-go/main.go:3556-3608 | both quote skippers end exactly where the character lexer is back in code, also for doubled quotes and an unterminated literal |
| `SqlLexer.SkipLineCommentSQL` | agents/drivers/oracle-go/main.go:3610-3618 | the line-comment skipper ends where the lexer is back in code |
| `SqlLexer.SkipBlockCommentSQL` | agents/drivers/oracle-go/main.go:3620-3626 | the block-comment skipper ends where the lexer is back in code, at the end of the text if the comment is not closed |
| `SqlLexer.FindTopLevelSQLKeyword` | agents/drivers/oracle-go/main.go:3415-3444 | for every text and start the loop returns the first position that the lexer, started there, finds in code at depth zero and that holds the keyword, or -1 |
| `SqlLexer.FindMatchingSQLParen` | agents/drivers/oracle-go/main.go:3446-3472 | the loop returns the position where the lexer, started at the parenthesis, closes it, or -1 |
| `SqlLexer.SplitTopLevelSQLList` | agents/drivers/oracle-go/main.go:3377-3413 | the loop's result is the text cut at the commas the lexer finds in code at depth zero, trimmed, without an empty last piece |
| `SqlLexer.PiecesJoin` | agents/drivers/oracle-go/main.go:3377-3413 | joining the cut pieces with commas restores the text |
| `SqlLexer.Restart` | agents/drivers/oracle-go/main.go:3415-3472 | a scan restarted at a code position of depth zero sees every later position in the same mode and at the same depth |
| `SqlLexer.RestartMode` | agents/drivers/oracle-go/main.go:3415-3472 | a scan restarted at any code position sees every later position in the same mode |
| `SqlLexer.Shift` | agents/drivers/oracle-go/main.go:3077-3079 | a scan of a suffix sees what the scan of the whole text sees from there on |
| `SqlLexer.Cut` | agents/drivers/oracle-go/main.go:3077-3079 | a scan of a text cut at a code position sees what the scan of the whole text sees |
| `SqlLexer.NestedDepth` | agents/drivers/oracle-go/main.go:3446-3472 | between a parenthesis and its match every scan begun before it is deeper by the same amount as the scan begun at it, so the loops agree on nesting |
| `SqlLexer.MatchRestoresDepth` | agents/drivers/oracle-go/main.go:3072-3092 | after the matching parenthesis the outer scan is in the state it had before the opening one, which is why the nested rewriter may jump there |
| `SqlLexer.KeywordInAnyCase` | agents/drivers/oracle-go/main.go:3415-3444 | the position found does not depend on the letter case of the text |
| `SqlGrammar.ShapedBalanced` | agents/drivers/oracle-go/main.go:3377-3472 | a text of characters, literals with doubled quotes, delimited names, comments and nested parentheses leaves the scan in code at the depth it began at, whatever the literals and comments hold |
| `SqlGrammar.MatchIs` | agents/drivers/oracle-go/main.go:3446-3472 | for every such text in parentheses, with anything before and after, the match found is the parenthesis that ends the group |
| `SqlGrammar.ShapedPieces` | agents/drivers/oracle-go/main.go:3377-3413 | such texts joined with commas are cut at just those commas, if none has one outside parentheses, literals, names and comments |
| `SqlGrammar.KeywordAfter` | agents/drivers/oracle-go/main.go:3415-3444 | a keyword in any letter case is found behind such a text, if nothing outside its parentheses, literals, names and comments begins with the keyword's first letter |
| `QuotedIdentifiers.ReadQuotedIdentifier` | agents/drivers/xugu/main.go:4116-4134 | the loop reads what the recursive reader reads: the unescaped name and the position after the closing quote, or nothing |
| `QuotedIdentifiers.QuoteThenRead` | agents/drivers/xugu/main.go:4594-4596 | a printed identifier reads back as its name, whatever characters it has, and reading stops right after it |
| `QuotedIdentifiers.ReadQuotedText` | agents/drivers/xugu/main.go:4116-4134 | conversely the text that was read is the printed form of the name found |
| `OracleTokens.ReadOracleIdentifierToken` | agents/drivers/oracle-go/main.go:3474-3505 | the loops read the token that the recursive reader reads |
| `OracleTokens.TokenReread` | agents/drivers/oracle-go/main.go:3474-3505 | a token's text placed anywhere it ends properly is read back as that token |
| `OracleTokens.UnquoteToken` | agents/drivers/oracle-go/main.go:3507-3513 | unquoting a token's text gives the token's name |
| `OracleSelect.TrimLeadingComments` | agents/drivers/oracle-go/main.go:3829-3849 | the loop strips exactly the leading white space and comments that the recursive definition strips |
| `OracleSelect.RewriteSelectItemsForXMLType` | agents/drivers/oracle-go/main.go:3231-3263 | the loop rewrites every item on its own: a matching star into the columns, a bare XMLTYPE column into its serialization, anything else into itself; changed is set exactly if one of the first two occurs |
| `OracleTable.TableThenClause` | agents/drivers/oracle-go/main.go:3150-3202 | a table's name, with or without schema, bare or delimited, with any blanks, and then one of the twelve clause words in any letter case: that table, without alias |
| `OracleTable.TableThenAlias` | agents/drivers/oracle-go/main.go:3150-3202 | then a token that is neither a clause word nor the start of a join: it is the alias, unless a comma or a join follows it, and then no single table is read |
| `OracleTable.TableThenMore` | agents/drivers/oracle-go/main.go:3150-3202 | then a comma or a join: no single table is read |
| `OracleTable.TableThenOther` | agents/drivers/oracle-go/main.go:3150-3202 | then anything that starts no token: that table, without alias |
| `OracleTable.TableAlone` | agents/drivers/oracle-go/main.go:3150-3202 | then nothing: that table, without alias |
| `OracleTable.ParenIsNoTable` | agents/drivers/oracle-go/main.go:3150-3202 | a parenthesis, or nothing, behind FROM is no table |
| `OracleItemText.StarRead` | agents/drivers/oracle-go/main.go:3289-3307 | a star, alone or behind a qualifier and a dot with any blanks between |
| `OracleItemText.ColumnAlone` | agents/drivers/oracle-go/main.go:3309-3341 | a column's name with or without qualifier is read as that column without alias |
| `OracleItemText.ColumnThenAlias` | agents/drivers/oracle-go/main.go:3309-3341 | with a token behind it: that alias |
| `OracleItemText.ColumnThenAs` | agents/drivers/oracle-go/main.go:3309-3341 | with AS in any letter case and a token: that alias |
| `OracleItemText.ColumnForm` | agents/drivers/oracle-go/main.go:3309-3341 | conversely every item that is read as a column has one of these forms |
| `OracleItemText.QualifierIs` | agents/drivers/oracle-go/main.go:3343-3352 | a qualifier matches if and only if it names the alias or the table, ignoring letter case, or is empty |
| `OracleItemText.XmlTypeIs` | agents/drivers/oracle-go/main.go:3362-3366 | the type XMLTYPE, or SYS.XMLTYPE, in any letter case and with outer white space |
| `OracleItemText.StarBecomes` | agents/drivers/oracle-go/main.go:3231-3287 | a star that means the table becomes its columns in order, qualified as the item was, the XMLTYPE ones written as XMLSERIALIZE under their own names |
| `OracleItemText.ColumnBecomes` | agents/drivers/oracle-go/main.go:3231-3287 | a column of type XMLTYPE becomes XMLSERIALIZE of it, under its alias or its own name; any other column stays as it is |
| `OracleItemText.OtherStays` | agents/drivers/oracle-go/main.go:3231-3263 | an item that is neither a star nor a column stays as it is |
| `OracleStatement.StatementIsRead` | agents/drivers/oracle-go/main.go:3099-3135 | SELECT, a self-contained list, FROM and a table, the two words in any letter case, are read as the SELECT of that list over that table |
| `OracleLead.ListStartAfterLead` | agents/drivers/oracle-go/main.go:3829-3849 | behind white space and comments, whatever those hold, a text that begins with SELECT in any letter case has its list right behind that word, any other text has none |
| `OracleStatement.ModifierIsRead` | agents/drivers/oracle-go/main.go:3099-3135 | DISTINCT or ALL in any letter case and the white space behind it are kept before the list |
| `OracleStatement.StarStatement` | agents/drivers/oracle-go/main.go:3099-3135 | for a star over one table the rewritten text in full: the columns in order, written after the alias if there is one, the XMLTYPE ones serialized, everything else kept |
| `OracleStatement.StarBeforeClause` | agents/drivers/oracle-go/main.go:3099-3135 | the same written out for a table without alias before any of the twelve clauses: no column gets a qualifier |
| `OracleStatement.DirectCases` | agents/drivers/oracle-go/main.go:3099-3135 | for every statement read: the columns are asked for only if an item is a star or a column, and an error in that is returned; the statement is rewritten if and only if the table has an XMLTYPE column and some item is a star, or a column of that type, that means the table; otherwise it is returned as it is |
| `OracleReparse.ListStartIs` | agents/drivers/oracle-go/main.go:3368-3375 | without trailing white space the select list is found right after the SELECT keyword that follows leading white space and comments |
| `OracleReparse.ListStartError` | agents/drivers/oracle-go/main.go:3368-3375 | the position is too large by exactly the number of trailing white space characters: it is right if and only if there are none (or the text is no SELECT) |
| `OracleReparse.LeadEndStable` | agents/drivers/oracle-go/main.go:3829-3849 | what follows the SELECT keyword cannot move it |
| `OracleItems.ListItemsOk` | agents/drivers/oracle-go/main.go:3377-3413 | every item of a self-contained list is itself self-contained, without a top-level comma or FROM, unless one ends with a line comment |
| `OracleItems.ListTextSplits` | agents/drivers/oracle-go/main.go:3131 | items joined with comma and space split into exactly those items again |
| `OracleSplice.EditsReplaceLists` | agents/drivers/oracle-go/main.go:3042-3097 | for every text and loader the replaced stretches lie in order and do not overlap; each lies in the whole text or in a parenthesis that the lexer meets in code, matched by its end, so never in a literal or comment, and is what rewriting the statement there on its own replaces |
| `OracleListBounds.ReadListIsTrue` | agents/drivers/oracle-go/main.go:3099-3135 | for every text read as a SELECT: the list found is the select list (after SELECT and its modifier, up to the first top-level FROM) if and only if the offset, too large by the trailing white space, still falls into the white space around the modifier |
| `OracleListBounds.EditsAreSelectLists` | agents/drivers/oracle-go/main.go:3037-3135 | every replaced stretch is exactly the select list of the statement in its place if and only if the offset falls right in that statement |
| `OracleListBounds.NoTrailingSpaceFallsRight` | agents/drivers/oracle-go/main.go:3368-3375 | without white space at the end the offset falls right |
| `OracleShifted.EditInsideIdentifier` | agents/drivers/oracle-go/main.go:3368-3375 | the concrete statement `select ax from t` with two blanks at its end: the stretch replaced starts inside `ax` |
| `OracleShifted.NestedEditInsideIdentifier` | agents/drivers/oracle-go/main.go:3053-3097 | the same statement in parentheses, with the text that comes out |
| `OracleSplice.RewriteSelectDepth` | agents/drivers/oracle-go/main.go:3042-3051 | the rewriter's output is its input with exactly those stretches replaced and every other byte kept; changed is set exactly if there is one; the recursion ends because the inner text is shorter, not because of the depth cap |
| `OracleSplice.RewriteNestedSelects` | agents/drivers/oracle-go/main.go:3053-3097 | the same for the loop over parentheses; one unmatched parenthesis leaves the text as it is, an error of the loader is returned |
| `OracleSplice.UnchangedIsIdentical` | agents/drivers/oracle-go/main.go:3093-3095 | changed == false means the identical text |
| `OracleRoundTrip.ReadsBack` | agents/drivers/oracle-go/main.go:3099-3135 | for any new list of whole items: the result is read as the same SELECT over the same table with exactly these items, if and only if the list is not glued to the keyword before it |
| `OracleRoundTrip.GluedToSelect` | agents/drivers/oracle-go/main.go:3128-3133 | when it is glued to SELECT, no SELECT is left to read |
| `OracleIdempotence.RewriteReadsBack` | agents/drivers/oracle-go/main.go:3099-3135 | for the items that the rewrite makes and a list none of whose items ends with a line comment the condition is one on the input: no white space before the list and a first item that is a bare XMLTYPE column, or a star whose first column is one or follows an alias that starts like a word |
| `OracleIdempotence.GluedIsTouching` | agents/drivers/oracle-go/main.go:3128-3133 | the list that is spliced in is glued to its keyword exactly in those statements |
| `OracleComments.ReadAsMeantExactly` | agents/drivers/oracle-go/main.go:3099-3135 | both conditions together are exact: the rewritten statement is read as the same SELECT over the same table, and its list splits into exactly the new items, if and only if the list does not touch its keyword and no item ends with a line comment |
| `OracleComments.SplitBackEnds` | agents/drivers/oracle-go/main.go:3377-3413 | a self-contained joined list that splits back into its items has none that ends with a line comment |
| `OracleComments.CommentSwallowsTheRest` | agents/drivers/oracle-go/main.go:3128-3133 | the concrete statement `select a -- c`, line end, `, x from t`, whose rewrite puts the rest of the statement into the comment |
| `OracleIdempotence.RewriteTwice` | agents/drivers/oracle-go/main.go:3037-3135 | rewriting a rewritten single-table SELECT changes nothing, if its list does not touch the keyword before it and no item ends with a line comment |
| `OracleMeaning.RewriteMeaning` | agents/drivers/oracle-go/main.go:3231-3352 | with column names distinct ignoring case, the new items yield for every row the cells of the old ones with the XMLTYPE columns serialized: same count, order and output names |
| `OracleMeaning.ExpectedDiffersInValues` | agents/drivers/oracle-go/main.go:3276-3280 | serializing changes values only: the reference has the same number of cells under the same names |
| `OracleMeaning.StatementMeaning` | agents/drivers/oracle-go/main.go:3099-3135 | the same for statement texts: read again by the same reader, the rewritten statement yields the expected cells for every row |
| `OracleMeaning.NestedMeaning` | agents/drivers/oracle-go/main.go:3053-3135 | for every statement that the nested rewrite edits, at any depth: edited on its own it yields the expected cells, and rewriting it again leaves it as it is |
| `OracleNested.SelectKeeps` | agents/drivers/oracle-go/main.go:3053-3097 | in the output of the nested rewrite every edited statement is again what a parenthesis in code encloses, or the whole text, and balanced text stays balanced |
| `OracleNested.OutputMeaning` | agents/drivers/oracle-go/main.go:3042-3135 | so in the output, read again by the same reader, there is for every edited statement a place that yields its expected cells and is not edited again |
| `OracleNested.ParenIsEdited` | agents/drivers/oracle-go/main.go:3053-3097 | completeness: a SELECT that an outermost parenthesis in code encloses and that can be rewritten on its own is edited, with the text of its own rewrite |
| `OracleNested.ParenEditsInside` | agents/drivers/oracle-go/main.go:3053-3097 | and so is everything that is edited inside such a SELECT |
| `OracleNested.DepthCap` | agents/drivers/oracle-go/main.go:3042-3051 | nothing is edited more than eight levels deep; down to there every statement that can be rewritten directly is, as one edit |
| `OracleMeaning.ReadAliasNamesTable` | agents/drivers/oracle-go/main.go:3150-3202 | the alias that is read with the table names the table, unless it is an empty delimited identifier |
| `OracleGlued.GluedIsNotPreserved` | agents/drivers/oracle-go/main.go:3128-3133 | the concrete statement `select* from t d` that is rewritten to a text without SELECT |
| `OracleBinds.ReadBindParam` | agents/drivers/oracle-go/main.go:2586-2609 | a bind is a colon neither preceded nor followed by another, then digits or an identifier; the loop takes all of it |
| `OracleBinds.SkipAlternativeQuoted` | agents/drivers/oracle-go/main.go:3571-3593 | an alternative quotation ends after its closing pair, or at the end of the text |
| `OracleBinds.ScanToken` | agents/drivers/oracle-go/main.go:2552-2581 | one turn of the switch consumes exactly one token of the token specification |
| `OracleBinds.AltQuotedIs` | agents/drivers/oracle-go/main.go:3571-3593 | a quotation that `q'` opens ends behind the first closing character with a quote after it, or at the end of the text; the four brackets are closed by their partners, every other character by itself |
| `OracleBinds.BindIs` | agents/drivers/oracle-go/main.go:2586-2609 | a colon not next to another one, then digits or an identifier: a bind of just that name |
| `OracleBinds.PlainIs` | agents/drivers/oracle-go/main.go:2552-2581 | every other character outside literals and comments is passed over alone |
| `OracleBinds.ExplainPlanBindParams` | agents/drivers/oracle-go/main.go:2548-2584 | the loop reports the binds of the token list, without repeated names |
| `OracleBinds.TokensPartition` | agents/drivers/oracle-go/main.go:2548-2584 | the tokens cover the text without overlap, so no bind comes from a literal, identifier, comment or q-quoted literal |
| `OracleBinds.TokensStartInCode` | agents/drivers/oracle-go/main.go:2548-2584 | with the lexer of the other four scanners begun anew behind the last q-quoted literal, every token starts in code and every character of a bind is code |
| `OracleBinds.DistinctSound` | agents/drivers/oracle-go/main.go:2570-2579 | nothing is reported that is not a bind of the text |
| `OracleBinds.DistinctNames` | agents/drivers/oracle-go/main.go:2574-2577 | named binds appear once per name, ignoring case |
| `OracleBinds.DistinctPositionals` | agents/drivers/oracle-go/main.go:2572-2573 | positional binds appear once per occurrence, in order |
| `OracleBinds.DistinctPrefix` | agents/drivers/oracle-go/main.go:2548-2584 | what is reported for a prefix is a prefix of what is reported for all |
| `OracleBinds.FirstOccurrenceReported` | agents/drivers/oracle-go/main.go:2574-2577 | the first occurrence of a name is the one reported, in its place |
| `XuguRuntime.StepKeepsInv` | agents/drivers/xugu/main.go:663-809 | every lock region of open, close, validate and release, but for such a drop, keeps: refs equals the number of sessions holding the key, the entry exists exactly while there are some, no handle in use is closed, at most 256 sessions under their own ids |
| `XuguRuntime.EveryRunKeepsInv` | agents/drivers/xugu/main.go:663-809 | over every run these facts hold all along if and only if no reconnect drops the stale key of a closed session while a live control has that key |
| `XuguRuntime.StepExactly` | agents/drivers/xugu/main.go:663-809 | of all lock regions exactly those drops break them |
| `XuguRuntime.NeverClosed` | agents/drivers/xugu/main.go:720-732 | a session's cancel handle is never a closed control connection |
| `XuguRuntime.StaleCounts` | agents/drivers/xugu/main.go:720-732 | releasing the stale key of a closed session keeps the counts if and only if no live control has that key |
| `XuguRuntime.StaleDropPossible` | agents/drivers/xugu/main.go:720-732 | any session fetched by a validate request can be reconnected after its close, and then drops its key |
| `XuguRuntime.DoubleRelease` | agents/drivers/xugu/main.go:749-762 | a concrete run of the code as it is after which a registered session holds a closed control |
| `XuguRuntime.OnlyCloseRemoves` | agents/drivers/xugu/main.go:702-713 | no step but a close of its id removes or replaces a registered session |
| `XuguRuntime.ReadyIsRegistered` | agents/drivers/xugu/main.go:702-713 | a ready session is registered if and only if its id is free and fewer than 256 are registered; otherwise it is refused and the registry stays |
| `XuguRuntime.ReleaseUndoesAcquire` | agents/drivers/xugu/main.go:768-809 | releasing a key right after acquiring it gives the control map back, and closes a control that was opened for it |
| `XuguHistory.RegisteredWasOpened` | agents/drivers/xugu/main.go:663-747 | over every run: a registered session was opened under its id, connected and inserted; it has a cancel handle if and only if it connected with the control and no reconnect lost it, and holds the key it acquired if and only if that was not dropped |
| `XuguHistory.FailedIsNotRegistered` | agents/drivers/xugu/main.go:697-699 | a session that could not connect is never registered |
| `XuguHistory.OpenShares` | agents/drivers/xugu/main.go:663-714 | a whole open with the control attached: registered, with its key and the control's handle, the control shared by one more or new |
| `XuguHistory.OpenWithout` | agents/drivers/xugu/main.go:679-699 | a whole open that does not get the control: registered without key and handle if it connected, and the controls are as before |
| `XuguHistory.CloseReleases` | agents/drivers/xugu/main.go:749-762 | a whole close: out of the registry, its reference given back, the control closed by the last one |
| `XuguRuntime.RuntimeServer.AcquireControlWith` | agents/drivers/xugu/main.go:768-792 | the method's new control map and handle |
| `XuguRuntime.RuntimeServer.ReleaseControl` | agents/drivers/xugu/main.go:794-809 | the method's new control map and the handles it closed |
| `XuguRuntime.RuntimeServer.Register` | agents/drivers/xugu/main.go:702-713 | the second look at id and cap, and the registration |
| `XuguRuntime.RuntimeServer.Unregister` | agents/drivers/xugu/main.go:749-753 | a close takes out exactly its id |
| `SessionRegistry.SessionStays` | agents/drivers/oracle-go/main.go:567-595 | over every run a registered session stays registered under its id until that id is closed or, for Oracle, its own open fails |
| `SessionRegistry.OpenRegisters` | agents/drivers/oracle-go/main.go:567-595 | for every agent an open that connects, of a free id below 256 sessions, leaves the session registered |
| `SessionRegistry.FailedOpenLeavesNothing` | agents/drivers/oracle-go/main.go:567-595 | one that does not connect leaves the registry as it was, and none starts at 256 sessions |
| `SessionRegistry.CloseRemoves` | agents/drivers/oracle-go/main.go:615-627 | a close takes out its id and no other |
| `SessionRegistry.CapOverRuns` | agents/drivers/xugu/main.go:663-714 | Oracle and Xugu keep the cap of 256 over every interleaving of opens and closes |
| `SessionRegistry.KingbaseUnbounded` | agents/drivers/kingbase-go/main.go:273-297 | Kingbase can reach any number of registered sessions |
| `SessionRegistry.KingbaseStepExact` | agents/drivers/kingbase-go/main.go:273-297 | the step that takes Kingbase over 256 sessions: an open that connected, of an id not registered, when 256 are |
| `SessionRegistry.KingbaseExceedsExactly` | agents/drivers/kingbase-go/main.go:273-297 | the opens in flight can take it over 256, in whatever order they end and sessions close, if and only if more than 256 ids are registered or in flight |
| `SessionRegistry.CountedKeepsCap` | agents/drivers/kingbase-go/main.go:273-297 | no run exceeds 256 in which each open starts with fewer than 256 ids registered or in flight |
| `SessionRegistry.CapExactly` | agents/drivers/kingbase-go/main.go:289-295 | the cap holds over every run exactly for the agents that look at it in the lock region that registers |
| `ActiveOperation.StepKeepsInv` | agents/drivers/xugu/main.go:3063-3131 | every lock region of begin, timeout, end, cancel and close keeps the timer invariant |
| `ActiveOperation.EveryRunKeepsInv` | agents/drivers/xugu/main.go:3063-3131 | the same over every interleaving, also of callbacks that were already waiting when their timer was stopped |
| `ActiveOperation.FireHitsOwnOperation` | agents/drivers/xugu/main.go:3101-3112 | a callback cancels the operation that armed it while that is active, and otherwise changes nothing |
| `ActiveOperation.TimerIsolation` | agents/drivers/oracle-go/main.go:3641-3686 | a query that returned a cursor was not hit by its timer, and that timer can never cancel the cursor later |
| `ActiveOperation.QueryEndsExactly` | agents/drivers/xugu/main.go:3069-3089 | over every run: a query fails if and only if the driver's call failed, times out if and only if it did not and the query's own timer took effect, and is opened, live and not cancelled if and only if neither holds |
| `ActiveOperation.ExecEnds` | agents/drivers/xugu/main.go:3091-3131 | a statement without rows can always end, leaves nothing active and its context cancelled |
| `ActiveOperation.CancelledExactly` | agents/drivers/xugu/main.go:3063-3142 | over every run: a context is cancelled if and only if its timer took effect, a cancel request reached it, or its operation has ended and its cursor is not live |
| `ActiveOperation.CancelReachesAll` | agents/drivers/oracle-go/main.go:3688-3701 | a cancel request reaches the operation active and every cursor live at that moment, whatever happens before it cancels them, and they stay cancelled |
| `ActiveOperation.CancelSparesLater` | agents/drivers/oracle-go/main.go:3688-3701 | an operation that starts after the request is not reached by it |
| `ActiveOperation.CollectedWasUsed` | agents/drivers/oracle-go/main.go:3688-3701 | whatever a request is about to cancel was started before |
| `ActiveOperation.Server.TimerCallback` | agents/drivers/xugu/main.go:3101-3112 | the callback's effect on the guarded fields |
| `ActiveOperation.Server.QueryReturned` | agents/drivers/xugu/main.go:3069-3089 | the lock region after the driver's call: fields and outcome |
| `ActiveOperation.Server.CollectCancels` | agents/drivers/xugu/main.go:3133-3142 | what a cancel request collects |
| `Paging.QuerySession.ReadQuerySessionPage` | agents/drivers/oracle-go/main.go:2836-2872 | for every cursor, budget and page size the loop returns the specified page or error and leaves the cursor advanced by it; the same loop as agents/drivers/xugu/main.go:2924-2960 and agents/drivers/kingbase-go/main.go:712-748 |
| `Paging.ReadAll` | agents/drivers/oracle-go/main.go:2945-2953 | the unpaged loop returns the first rows up to the budget, or the first error met, and is truncated exactly if there is one more row |
| `Paging.PagesRefine` | agents/drivers/oracle-go/main.go:2836-2872 | for every sequence of page sizes the pages are full while there is more and concatenate to the first min(budget, n) rows; the last one is truncated exactly if n >= budget |
| `Paging.PagedEqualsUnpaged` | agents/drivers/oracle-go/main.go:2836-2954 | paged and unpaged read give the same rows, and their truncated flags differ exactly when n equals the budget |
| `Paging.MoreMeansMore` | agents/drivers/oracle-go/main.go:2863-2870 | a page that has more is full and is followed by a non-empty one |
| `Paging.PagesBeforeError` | agents/drivers/oracle-go/main.go:2836-2872 | pages delivered before a row that cannot be read are rows of the cursor, in order |
| `Paging.PageIsBounded` | agents/drivers/oracle-go/main.go:2836-2872 | a page has at most as many rows as were asked for, or as is standard, never more than the budget, and exactly that many if there is more |
| `Paging.PageFails` | agents/drivers/oracle-go/main.go:2836-2872 | the first row that cannot be read fails exactly the page that needs it, as a row or as lookahead, with its message |
| `Paging.EndFails` | agents/drivers/oracle-go/main.go:2836-2872 | a cursor that ends with an error fails the page that reaches the end |
| `Paging.UnpagedFails` | agents/drivers/oracle-go/main.go:2930-2954 | so does the unpaged read, which does not read the row behind the budget |
| `CursorAccounting.Defaults` | agents/drivers/oracle-go/main.go:2665-2714 | page size and budget are those asked for, and 1000 where the number is not positive |
| `CursorAccounting.Server.QueryRowsWithTimeout` | agents/drivers/oracle-go/main.go:3641-3686 | a cursor is live exactly after success; a failed or timed-out query leaves no live cursor and no context that was not cancelled |
| `CursorAccounting.Server.CloseRows` | agents/drivers/oracle-go/main.go:3703-3715 | the cursor is closed, forgotten and its context cancelled |
| `CursorAccounting.Server.QueryRowsWithXMLTypeRewriteIfNeeded` | agents/drivers/oracle-go/main.go:2990-3010 | at most one of the two cursors stays live, on every path |
| `CursorAccounting.Server.OpenPage` | agents/drivers/oracle-go/main.go:2679-2713 | the first page of the new cursor; the cursor stays live exactly if the page has more |
| `CursorAccounting.Server.ExecuteQueryPage` | agents/drivers/oracle-go/main.go:2665-2714 | the live cursors are those of the two session maps again; a new handle is one never issued before and maps to a fresh cursor |
| `CursorAccounting.Server.StartTableRead` | agents/drivers/oracle-go/main.go:2741-2780 | the same for table reads |
| `CursorAccounting.Server.StoreQuerySession` | agents/drivers/oracle-go/main.go:2734-2739 | the handle is new; the live-cursor map and the session maps agree again |
| `CursorAccounting.Server.FetchQueryPage` | agents/drivers/oracle-go/main.go:2716-2732 | an unknown handle gives an empty page and changes nothing; otherwise the specified page, and the cursor is kept exactly if there is more |
| `CursorAccounting.Server.FetchTableReadPage` | agents/drivers/oracle-go/main.go:2782-2798 | the same for table reads |
| `CursorAccounting.Server.CloseQuerySession` | agents/drivers/oracle-go/main.go:2807-2815 | exactly the cursor of the handle is closed and forgotten |
| `CursorAccounting.Server.CloseTableReadSession` | agents/drivers/oracle-go/main.go:2817-2825 | the same for table reads |
| `CursorAccounting.Server.ExecuteSelect` | agents/drivers/oracle-go/main.go:2930-2954 | every path closes and forgets the cursor; when reading began the result is the whole answer for what the cursor held |
| `CursorAccounting.Server.CancelActiveQuery` | agents/drivers/oracle-go/main.go:3688-3701 | between requests every context is cancelled afterwards |
| `CursorAccounting.Server.CloseAllQuerySessions` | agents/drivers/oracle-go/main.go:2827-2834 | both loops empty their maps |
| `CursorAccounting.Server.Disconnect` | agents/drivers/oracle-go/main.go:923-931 | all maps are empty, every cursor ever opened is closed, every context cancelled |
| `CursorAccounting.NextIsNew` | agents/drivers/oracle-go/main.go:2734-2739 | handles are never reused: the next one differs from all issued under its prefix |
| `CursorAccounting.KindsApart` | agents/drivers/oracle-go/main.go:2734-2805 | a handle of a query is never one of a table read |
| `Text.DecimalInjective` | agents/drivers/oracle-go/main.go:2736 | different counters print differently, which is what makes handles differ |
| `Text.LetterCases` | agents/drivers/oracle-go/main.go:3507-3513 | the letters and their cases, on which every comparison without case rests |
| `XuguSplit.SplitTopLevel` | agents/drivers/xugu/main.go:4299-4332 | the loop returns the pieces of the recursive split |
| `XuguSplit.SplitJoin` | agents/drivers/xugu/main.go:4299-4332 | joining the pieces with the separator restores the text |
| `XuguSplit.PiecesAreWhole` | agents/drivers/xugu/main.go:4299-4332 | every piece re-splits to itself |
| `XuguSplit.JoinThenSplit` | agents/drivers/xugu/main.go:4299-4332 | pieces that are whole and, but for the last, closed split back out of their join |
| `XuguSplit.ParenthesizedGroups` | agents/drivers/xugu/main.go:4262-4297 | the loop returns the top-level groups of the recursive definition |
| `XuguSplit.GroupsOne` | agents/drivers/xugu/main.go:4262-4297 | a group between texts whose parentheses are all quoted is found whole, whatever follows |
| `XuguGrammar.ShapedSplit` | agents/drivers/xugu/main.go:4299-4332 | texts of characters, delimited names and nested parentheses joined with commas are split at just those commas |
| `XuguGrammar.GroupsAre` | agents/drivers/xugu/main.go:4262-4297 | of every such text the groups are what its outer parentheses hold, in order, however deep they nest |
| `XuguCatalogText.PrintIdentifiers` | agents/drivers/xugu/main.go:3749-3755 | the loop prints the quoted names joined with comma and space |
| `XuguCatalogText.ParseQuotedIdentifiers` | agents/drivers/xugu/main.go:4090-4105 | the loop returns the delimited identifiers in order, up to an unterminated one |
| `XuguCatalogText.QuotedListReadsBack` | agents/drivers/xugu/main.go:4090-4105 | parsing a printed identifier list gives the names back, for all names |
| `XuguCatalogText.ParseIdentifierList` | agents/drivers/xugu/main.go:4245-4260 | the loop reads a name from every piece that is not blank |
| `XuguCatalogText.IdentifierListReadsBack` | agents/drivers/xugu/main.go:4245-4260 | this parser too gives a printed list back, even with commas, quotes, parentheses or outer spaces in the names |
| `XuguCatalogText.ParseForeignKeyColumns` | agents/drivers/xugu/main.go:4232-4243 | both branches: two groups, or an even number of quoted names halved |
| `XuguCatalogText.ForeignKeyRoundTrip` | agents/drivers/xugu/main.go:3606-3657 | the printed ALTER TABLE statement has exactly the two column lists as groups and parses to the columns the definition parses to, whatever the other names are |
| `XuguForeignKeyText.StatementReadsBack` | agents/drivers/xugu/main.go:3606-3657 | a reader of the SQL words gives back from the printed statement schema, table, constraint, both column lists, the referenced table and its schema, the letters for match, update and delete action, and both deferral flags |
| `XuguForeignKeyText.TailBack` | agents/drivers/xugu/main.go:3757-3787 | the words for the letters a and p of match and n, r, c, u and d of the actions, in any letter case, each read back as its letter |
| `XuguForeignKeyText.PrintedWhen` | agents/drivers/xugu/main.go:3606-3636 | a statement is printed if and only if the constraint has a name, a definition, columns on both sides and a referenced table |
| `XuguCatalogForms.GroupedDefinition` | agents/drivers/xugu/main.go:4232-4243 | a definition with two parenthesized lists gives the names of both |
| `XuguCatalogForms.FlatDefinition` | agents/drivers/xugu/main.go:4232-4243 | one without parentheses gives the first half and the second half of its names |
| `XuguCatalogForms.OddDefinition` | agents/drivers/xugu/main.go:4232-4243 | an odd number of names gives no referenced columns |
| `XuguCatalogForms.BareListRead` | agents/drivers/xugu/main.go:4245-4260 | names without quotes between commas are read as they are |
| `XuguCatalogText.ParseIndexKeys` | agents/drivers/xugu/main.go:4140-4149 | the loop reads a key from every piece that is not blank |
| `XuguCatalogText.KeyReadsBack` | agents/drivers/xugu/main.go:4151-4172 | parsing a printed key gives its column, direction and plainness, and the text of an expression key |
| `XuguCatalogText.IndexKeysRoundTrip` | agents/drivers/xugu/main.go:3886-3891 | the same for the whole printed key list, for every catalog text, also one whose last key is unterminated |
| `XuguCatalogForms.PlainKey` | agents/drivers/xugu/main.go:4151-4172 | a delimited column alone, with any white space around, is a plain key |
| `XuguCatalogForms.DirectedKey` | agents/drivers/xugu/main.go:4151-4172 | ASC or DESC behind it in any letter case is its direction, printed in upper case |
| `XuguCatalogForms.ExpressionKey` | agents/drivers/xugu/main.go:4151-4172 | any other text is an expression, kept and printed as it is |
| `XuguDsn.OverrideDSNDatabase` | agents/drivers/xugu/main.go:1273-1297 | the loop overrides every segment of the quote-aware split on its own |
| `XuguDsn.EncodeDecodes` | agents/drivers/xugu/main.go:1309-1314 | an encoded value stands for the value and is one closed piece of a segment |
| `XuguDsn.SegmentIsOverridden` | agents/drivers/xugu/main.go:1299-1307 | a segment is overridden if and only if it is white space, DB in one of its four spellings, white space, and an equals sign followed by anything; then only its value changes |
| `XuguDsn.OverrideKeepsSegments` | agents/drivers/xugu/main.go:1273-1307 | the result has the segments of the original, overridden, and no others |
| `XuguDsn.OverrideReadsBack` | agents/drivers/xugu/main.go:1273-1307 | a segment whose key is DB, in any letter case and with white space around, keeps its key and its value stands for exactly the new name; every other segment is unchanged |
| `XuguDsn.OverrideTwice` | agents/drivers/xugu/main.go:1273-1307 | of two overrides only the last one counts |
| `XuguDsn.OverrideNothing` | agents/drivers/xugu/main.go:1299-1303 | without such a segment the name is returned unchanged |
| `KingbaseUrl.EscapeUnescapes` | agents/drivers/kingbase-go/main.go:1010 | query escaping is undone by unescaping for every byte string |
| `KingbaseUrlText.EscapeIs` | agents/drivers/kingbase-go/main.go:1010 | which bytes stand for themselves, the blank as a plus sign, and all others as a percent sign and two capital digits |
| `KingbaseUrlText.PercentReads` | agents/drivers/kingbase-go/main.go:1000-1004 | a percent sign and two digits, in either letter case, are read as their byte |
| `KingbaseUrlText.PlainReads` | agents/drivers/kingbase-go/main.go:1000-1004 | every other character is read as itself, a plus sign as a blank |
| `KingbaseUrlText.DigitsAre` | agents/drivers/kingbase-go/main.go:1000-1004 | no other digits are read |
| `KingbaseUrlText.BrokenIsRefused` | agents/drivers/kingbase-go/main.go:1000-1004 | a percent sign without two digits behind it makes the text unreadable |
| `KingbaseUrl.RewriteUrl` | agents/drivers/kingbase-go/main.go:994-1016 | the method prints the URL with the kept pairs and the new mode |
| `KingbaseUrl.ReadUrlMode` | agents/drivers/kingbase-go/main.go:951-978 | the loop returns the last pair that names the mode |
| `KingbaseUrl.RewriteKeepsTheRest` | agents/drivers/kingbase-go/main.go:994-1016 | base, fragment and all other pairs are kept in order, and the reader, which cuts the URL in another order, sees the same pairs |
| `KingbaseUrlText.KeptOne` | agents/drivers/kingbase-go/main.go:999-1009 | of the pairs exactly the empty ones go and those whose unescaped key is sslmode in any letter case |
| `KingbaseUrlText.KeptConcat` | agents/drivers/kingbase-go/main.go:999-1009 | each pair on its own, and in order |
| `KingbaseUrl.RewriteReadsBack` | agents/drivers/kingbase-go/main.go:950-1016 | for every URL reading the mode after a rewrite gives the mode written, lower-cased and trimmed |
| `KingbaseUrl.RewriteTwice` | agents/drivers/kingbase-go/main.go:994-1016 | of two rewrites only the last one counts |
| `KingbaseUrl.RewriteIsUrl` | agents/drivers/kingbase-go/main.go:994-1016 | a rewritten URL is still in URL form |
| `KingbaseDsn.SplitFields` | agents/drivers/kingbase-go/main.go:1031-1077 | the nested loops return the fields of the automaton specification |
| `KingbaseDsn.SkipValue` | agents/drivers/kingbase-go/main.go:1048-1073 | the loops after the equals sign stop where the automaton ends the field, also at a dangling backslash or an open quote |
| `KingbaseFields.WhiteSeparates` | agents/drivers/kingbase-go/main.go:1031-1077 | a well-formed field ends at any white space, and white space before a field is skipped |
| `KingbaseFields.EscapedField` | agents/drivers/kingbase-go/main.go:1031-1077 | a backslash keeps the character behind it in its value, also a blank or a quote |
| `KingbaseDsn.RewriteSSLMode` | agents/drivers/kingbase-go/main.go:993-1029 | both forms of the rewrite |
| `KingbaseDsn.ReadSSLMode` | agents/drivers/kingbase-go/main.go:950-991 | both forms of the reader; the last mode counts |
| `KingbaseMode.RewriteSplits` | agents/drivers/kingbase-go/main.go:1018-1028 | for every keyword string and every mode: the rewritten string splits into the kept fields, unchanged and in order, and the new mode, if and only if every kept field is well formed and the mode, which is written unquoted, is one value without white space at its end |
| `KingbaseMode.RewriteReadsBack` | agents/drivers/kingbase-go/main.go:950-1029 | with well-formed kept fields, for every mode: reading gives the mode written if and only if it is one value that equals its unquoted lower-case text; one value reads as that text |
| `KingbaseMode.RewriteTwice` | agents/drivers/kingbase-go/main.go:1018-1028 | of two rewrites only the last one counts, if and only if every field that the first mode splits into names the mode |
| `KingbaseMode.RewriteStaysKeyword` | agents/drivers/kingbase-go/main.go:993-1029 | the result is again in keyword form if and only if the first kept field does not start as a URL |
| `KingbaseMode.UnclosedQuoteHidesMode` | agents/drivers/kingbase-go/main.go:1018-1028 | an unclosed quote swallows the mode: the result is one field and no mode is found |
| `KingbaseBuild.BuildDSN` | agents/drivers/kingbase-go/main.go:884-925 | the mode asked for, prefer written as require, in the string given by the user or in the parts joined with the optional ones and the safe URL parameters |
| `KingbaseBuild.EffectiveSSLMode` | agents/drivers/kingbase-go/main.go:927-948 | the loop takes the last sslmode of the URL parameters; a connection string takes precedence; the defaults |
| `KingbaseBuild.BuiltReadsBack` | agents/drivers/kingbase-go/main.go:892-925 | for every mode and whatever the other values hold: the printed string splits into exactly its parts if and only if the mode is one finished value without white space at its end; then its unquoted lower-case text is read |
| `KingbaseFields.EntriesReadBack` | agents/drivers/kingbase-go/main.go:884-925 | for every mode that fits, the printed string splits into fields that stand, unescaped, for host, port (54321 by default), user, password and database, the optional ones given, the mode, and the URL parameters that are safe, in this order |
| `KingbaseFields.ModeByDefault` | agents/drivers/kingbase-go/main.go:927-948 | without a connection string and an sslmode parameter the mode of the result is verify-full if TLS was asked for and require if not |
| `KingbaseFields.ModeByParameter` | agents/drivers/kingbase-go/main.go:927-948 | without a connection string the last sslmode parameter counts, prefer written as require |
| `KingbaseFields.ModeByString` | agents/drivers/kingbase-go/main.go:884-991 | with one, its own mode counts, require written for prefer and for none |
| `KingbaseFields.NativeIs` | agents/drivers/kingbase-go/main.go:884-890 | the trimmed connection string counts, unless it is empty or a JDBC URL |
| `KingbaseFields.PairsCut` | agents/drivers/kingbase-go/main.go:1095-1110 | URL parameters are cut at ampersands and semicolons, empty ones are passed over |
| `KingbaseBuild.AskedIsRead` | agents/drivers/kingbase-go/main.go:892-948 | for all parameters without a connection string: the mode asked for is one part of the result if and only if it is one finished value, and then it is read back without its quotes |
| `KingbaseBuild.AskedIsReadNative` | agents/drivers/kingbase-go/main.go:892-991 | for a keyword connection string with well-formed kept fields: the mode asked for is read back if and only if it is one value and not in quotes |
| `KingbaseBuild.AskedIsReadUrl` | agents/drivers/kingbase-go/main.go:892-978 | for a URL connection string it is always read back |
| `KingbaseBuild.ModeBringsHost` | agents/drivers/kingbase-go/main.go:906-948 | the URL parameters `sslmode=disable host=x` put a second host field into the string, for all other parameters |
| `KingbaseBuild.QuotesAreLost` | agents/drivers/kingbase-go/main.go:980-1029 | the connection string `sslmode='a b'` is rewritten to `sslmode=a b`, which reads as `a` |
| `Tns.StripComment` | agents/drivers/oracle-go/tns.go:193-206 | the comment starts at the first hash outside quotes |
| `Tns.ParenthesisDelta` | agents/drivers/oracle-go/tns.go:208-225 | opening minus closing parentheses outside quotes |
| `TnsText.CommentIsCut` | agents/drivers/oracle-go/tns.go:193-206 | a line is cut at the first hash outside quotes; hashes in closed or open quotes stay |
| `TnsText.QuotesDoNotCount` | agents/drivers/oracle-go/tns.go:208-225 | the depth counts opening less closing parentheses outside quotes only |
| `TnsText.IfileIncludes` | agents/drivers/oracle-go/tns.go:150-168 | a line IFILE = path, in any letter case and with any white space, includes that file between entries but not inside one |
| `TnsText.QuotedPath` | agents/drivers/oracle-go/tns.go:156 | the path may stand in quotes of either kind |
| `TnsText.DepthIsEight` | agents/drivers/oracle-go/tns.go:101-117 | a ninth level of includes and a file that cannot be read are errors, a file read before gives nothing |
| `TnsText.IncludeAdds` | agents/drivers/oracle-go/tns.go:155-168 | an included file's aliases are added and replace those of the same names |
| `TnsText.MoreNames` | agents/drivers/oracle-go/tns.go:125-144 | an entry with several names between commas stands under each of them |
| `Tns.Reader.ReadAliases` | agents/drivers/oracle-go/tns.go:101-191 | the recursive reader against its specification; visited only grows and every file body is read at most once |
| `Tns.Reader.ReadText` | agents/drivers/oracle-go/tns.go:151-184 | one line that is no include |
| `Tns.Reader.Flush` | agents/drivers/oracle-go/tns.go:125-142 | the words of a finished entry under each of its names |
| `TnsLayout.EntryRead` | agents/drivers/oracle-go/tns.go:144-190 | the lines of an entry define its names as its words joined by single spaces, wherever the lines break |
| `TnsLayout.LayoutIndependence` | agents/drivers/oracle-go/tns.go:101-191 | for any set of files that include each other, cycles too: if every file says the same in two sets, however laid out and commented, reading any file gives the same aliases, visits the same files or fails with the same error |
| `TnsLayout.FileRead` | agents/drivers/oracle-go/tns.go:101-191 | a file of entries gives the aliases that they define, in order |
| `TnsLayout.LaterWins` | agents/drivers/oracle-go/tns.go:131-136 | a name stands for the last entry that defines it |
| `TnsLayout.LimitNotReached` | agents/drivers/oracle-go/tns.go:102-104 | with at most eight files left the depth limit is never the reason of a failure, cycles included |
| `Base64.DecodeEncode` | deploy/dbx_tunnel.php:265-307 | strict decoding undoes encoding for every byte sequence |
| `Base64.EncodeIsOneLine` | deploy/dbx_tunnel.php:275 | an encoded chunk is one non-empty line |
| `Base64.DigitIs` | deploy/dbx_tunnel.php:275 | the sixty-four digits |
| `Base64.EncodeGroup` | deploy/dbx_tunnel.php:275 | three bytes are written as the four digits of their 24 bits |
| `Base64.EncodeEnd` | deploy/dbx_tunnel.php:275 | one or two bytes at the end, filled with zero bits and equals signs |
| `Base64.DecodeRejects` | deploy/dbx_tunnel.php:301 | any character that is no digit, equals sign or white space makes strict decoding fail |
| `Base64.DecodeSkips` | deploy/dbx_tunnel.php:301 | white space makes no difference to strict decoding |
| `Base64.DigitAfterPadding` | deploy/dbx_tunnel.php:301 | a digit behind an equals sign makes it fail |
| `Base64.PaddingRule` | deploy/dbx_tunnel.php:301 | strict decoding accepts equals signs if and only if one or two fill the last group, or there are none, and no single digit is left over |
| `TunnelQueue.AppendedData` | deploy/dbx_tunnel.php:265-307 | draining returns everything appended, in order |
| `TunnelQueue.ChunksDrained` | deploy/dbx_tunnel.php:265-307 | the same for any sequence of chunks since the queue was empty |
| `TunnelQueue.Queue.AppendChunk` | deploy/dbx_tunnel.php:265-278 | an append adds exactly its bytes to what a drain returns |
| `TunnelQueue.Queue.DrainChunks` | deploy/dbx_tunnel.php:280-307 | a drain returns all of it and leaves the queue empty |
| `TunnelQueue.WriteAll` | deploy/dbx_tunnel.php:212-227 | everything is written in order, or an exact prefix is and the write failed |
| `Tunnel.StepKeepsInv` | deploy/dbx_tunnel.php:91-197 | every step of any number of requests or of the worker keeps both streams conserved |
| `Tunnel.StreamsConserved` | deploy/dbx_tunnel.php:91-197 | over every interleaving with any number of requests at once: bytes accepted are those written, in hand and queued, in order; bytes read from the target are the drained segments, then those queued, then those in hand, and each segment is in exactly one response or held by exactly one request |
| `Tunnel.ReceivedIsPrefix` | deploy/dbx_tunnel.php:91-197 | if read requests do not overlap, what the client received is a prefix of what was read from the target, all of it but what is in hand or queued |
| `Tunnel.Overtaken` | deploy/dbx_tunnel.php:100-120 | two overlapping read requests can bring the bytes in the wrong order |
| `Tunnel.GoneWithBytesQueued` | deploy/dbx_tunnel.php:106-125 | a 410 is sent with bytes queued if and only if the worker appended after the last drain of any request |
| `Tunnel.NextReadGetsAll` | deploy/dbx_tunnel.php:100-125 | those bytes are not lost: unless the worker failed the next read request drains all that was not drained |
| `Tunnel.AnswersAre` | deploy/dbx_tunnel.php:100-125 | 200 with the drained bytes, 502 for an error, 410 for a closed session, 204 when the time is over, and no other end of a request |
| `TunnelHistory.ClientToTarget` | deploy/dbx_tunnel.php:91-208 | over every run: all bytes that write requests brought are those that reached the target, then those in the worker's hands, then those queued, and the flags say exactly whether the worker failed, stopped and marked the session closed |
| `TunnelHistory.QueuedReachesTarget` | deploy/dbx_tunnel.php:169-174 | a worker in its loop drains what is queued and, in one piece or several, brings everything accepted to the target |
| `TunnelHistory.SentReachesClient` | deploy/dbx_tunnel.php:176-198 | what the target sent is appended, and the next read request drains it with all that was queued and answers with it |
| `Tunnel.GoneTooEarly` | deploy/dbx_tunnel.php:106-125 | a concrete run that sends such a 410 |

## Left out

- Text.IsSpace: only ASCII white space is trimmed and only ASCII letters are folded, where Go's TrimSpace, EqualFold, ToUpper and ToLower know all of Unicode.
- OracleIdempotence.RewriteTwice: for a single-table SELECT whose text has no trailing white space, whose list has only blanks, tabs and line ends as white space in its code and no trailing comma, and whose table alias is not FROM, DISTINCT or ALL.
- OracleMeaning.StatementMeaning: is about one statement over one table under the same conditions; a database's reading of every other expression is an arbitrary value that the rewrite does not touch.
- OracleNested.OutputMeaning: for texts all of whose edited statements meet those conditions; what the statement around an edited one means is not modelled, and that rewriting the whole output finds no other statement to edit is not claimed.
- XuguRuntime.StepKeepsInv: the mutex that serializes connecting is not modelled, so more interleavings are covered than can happen; the kill-session call over the control connection is a foreign call.
- ActiveOperation.CancelReachesAll: models Oracle and Xugu; Kingbase has a single slot that each operation overwrites.
- SessionRegistry.SessionStays: models the registry only; an Oracle session is published before it is connected, so nothing is claimed about connected sessions being registered.
- Paging.ReadAll: the caller's default for a budget that is not positive is applied before, as executeQuery does; time fields, column names and value normalization are not modelled.
- CursorAccounting.Server.ExecuteQueryPage: a statement that is no query opens no cursor and is not modelled, nor is setting the schema; what the driver answers is arbitrary; the two handle counters do not wrap around.
- CursorAccounting.Server.OpenPage: factors out what executeQueryPage and startTableRead repeat; the two loops of closeAllQuerySessions are methods of their own.
- XuguDsn.OverrideReadsBack: the reader of a value is the model's, the lexer of the loop keeping the characters; the repository leaves that to the database driver.
- KingbaseMode.RewriteReadsBack: for strings whose kept fields are well formed; what follows a field that is not is in `RewriteSplits` and `UnclosedQuoteHidesMode`.
- KingbaseUrl.RewriteReadsBack: strings stand for bytes, so the mode is a byte string.
- KingbaseFields.EntriesReadBack: the reader that unescapes the values is the model's; the repository leaves that to the database driver.
- KingbaseBuild.AskedIsRead: the second attempt with `disable` when the server speaks no TLS, and the connection itself, are not modelled.
- Tns.Reader.ReadAliases: files are given as lines and include paths resolve by an arbitrary function; line length limits and read errors other than a missing file are not modelled.
- TnsLayout.EntryRead: a line break inside quotes, or where the depth is not positive, ends the entry early and is excluded.
- Base64.DecodeEncode: the base 64 routines are PHP's; they are modelled after section 4 of RFC 4648 and PHP's strict mode.
- TunnelQueue.WriteAll: a target that takes no bytes any number of times in a row would keep the loop waiting; the model bounds how often.
- Tunnel.StreamsConserved: a write request's look at the flags and its append are not tied together; bytes in the hands of a process that dies are counted as in hand.
- Oracle drivers, sockets, TLS, JSON-RPC, catalog SQL text and metadata listing: foreign calls or text interpreted by a database.
- Regular expressions that classify statements, URLs and errors.
- `xuguDSNValue`, `appendURLParam` and `splitDSNParams` of the Xugu driver: they split without regard to quotes, and no agreement with the override is claimed.
- Spawning the PHP worker, token checks, directory cleanup and wall-clock expiry.
- The other agents, the desktop shell, the user interface and the release tooling.
