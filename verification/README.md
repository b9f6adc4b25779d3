# A verified model of repmgr's configuration files and cluster roles

repmgr manages PostgreSQL replication clusters. This project models the three parts of it that hold the most
logic, in the form the program has (objects with fields, loops over buffers and arrays, step-by-step commands),
and proves each against a short specification. `dafny verify dfyconfig.toml` checks everything.

**Configuration files.** `FlexTables` holds the scanner's compressed tables, `ConfRules` the token rules,
`ConfDfa` and `ConfTokens` the proof that the tables decide the rules and what longest match means.
`ConfScanner` is the scanner as an object: a growing buffer with two sentinel bytes, a hold character, backing
up, refills in parts of any size. Its main result, `ScanAll`, says that none of this is visible. `ConfQuote` is
the unescaper, `ConfLines`, `ConfParser` and `ConfPerLine` the parser that resynchronises at the end of a line
and its line-by-line meaning, and `ConfGrammar` says in terms of texts what a line sets. `KeyValues`, `ConfSetting` and `AutoConf` read, update and print a settings file.
`Params`, `ConnString`, `PrimaryConninfo`, `EscapedLines` and `RecoveryFile` follow a connection string from the parameter
arrays through two layers of quoting into a file, and back out of it.

**Cluster roles.** `NodeTable` is the table `repmgr.nodes` as a map with committed writes and runs of them;
`Database` a connection with transactions in which any statement may fail; `Registration`, `WitnessCopy` and
`Promotion` the commands; `Discovery` the search for the running primary, `Recovery` the recovery state of a server.
`Switchover` is the switchover between
servers that run by themselves, with `ShutdownReport` for the report that crosses the wire and `RepmgrdPause`
for the daemons. Pings, remote commands and queries are answers of the environment: nondeterministic, and
restricted only where the text of the module says so. `Network`, `Servers` and `Daemons` keep a history of requests
and answers, and what a command does is stated in terms of it.

**Containers and small languages.** `Params` (parallel arrays as an ordered map), `Crosscheck` (the status cube
and its maximum), `EventCommand` (the event list and the template expansion in a fixed buffer).

## Where the code does not do what it says

The model follows the code; each of these is stated as a contract or a lemma.

- The error number of a file that stops, without newline, in a line without value is one too small
  (`ConfPerLine.ParsingIsPerLine`, `ConfPerLine.CutShortExample`).
- Replacing a setting moves it to the end of the list (`KeyValues.KeyValueList.Set`).
- `modify_auto_conf` prints values that the parser has unescaped without escaping them again, so it is a map
  update exactly for values without quote, backslash and newline (`AutoConf.ModifyIsMapUpdate`, `AutoConf.QuoteIsLost`).
- The scanner has no strings with newlines, so a connection string is lost exactly if a value in it has one
  (`PrimaryConninfo.FileKeepsIffNoNewline`, `PrimaryConninfo.NewlineBreaksIt`).
- The name of the replication slot and the delay are printed without escaping, so the standby finds them as
  configured exactly if there is nothing to escape (`RecoveryFile.StandbyFindsItsSettings`).
- The node that prints its status prints "UP" and "SHUTTING_DOWN"; its own comment and the parser say "RUNNING",
  and the branch for a server that is shutting down is never taken (`ShutdownReport.StatusReadsBackIff`,
  `ShutdownReport.NeverShuttingDown`).
- A failed query for paused WAL replay counts as not paused (`Recovery.IsReplayPaused`), so a promotion and a
  switchover go ahead (`Promotion.StandbyPromote` with `ReplayBlocks`, `Switchover.CheckFirst` with `AttachedStandby`).
- A standby is promoted although a primary is running if the query for the registered nodes fails, or if that
  primary does not answer; otherwise, and only then, one running primary stays one
  (`Promotion.StandbyPromote`, `Promotion.UnheardPrimary`).
- With `wal_receive_check_timeout` set to 0 a switchover stops the primary and then always gives up, unless
  `--always-promote` is given (`Switchover.StopAndPromote`).
- A switchover that is given up after the daemons were paused leaves them paused, and with `--force` a daemon
  that was paused on an unreachable node is unpaused in the end (`Switchover.Switchover`, `RepmgrdPause.Daemons.FlagsRestored`).
- A promotion of a node that has been unregistered meanwhile succeeds and leaves no active primary
  (`NodeTable.PromotionEndsRun`); the result of BEGIN is not looked at, and without a transaction a failed
  promotion may leave the old primary inactive (`Database.Connection.SetPrimary`, `NodeTable.HalfPromotion`).
- `standby register --upstream-node-id` looks at the active flag of the wrong record: whether the upstream is
  active makes no difference, but an inactive row with this node's name does
  (`Registration.StandbyRegister` with `MayRegisterBelow`, `Registration.UpstreamActivityIsIgnored`,
  `Registration.InactiveUpstreamIsAccepted`).
- `witness register` chooses between update and insert by the name of the node, so with another row of that name
  it succeeds without registering anything (`Registration.WitnessRegister`, `Registration.WitnessIsNotRegistered`);
  the copy of the records reports success even if nothing was copied (`WitnessCopy.CopyNodeRecords`).
- `node rejoin` reports a node that is still shutting down as an error and goes on
  (`Promotion.NodeRejoin`, `Promotion.OnlyShuttingDownSlipsThrough`, `Promotion.ShuttingDownRejoins`).
- After an unreachable node, `cluster crosscheck` may run the local command for another node
  (`Crosscheck.ReportsAreOwnIff`, `Crosscheck.UnreachableNodeShiftsReports`); the display depends on the order of
  the nodes only then (`Crosscheck.DisplayIgnoresOrder`).
- Nothing keeps an event name of 1024 characters or more inside its buffer (`EventCommand.ParseEventList`,
  `EventCommand.OverrunExample`), and the expansion of the event command does not use the last byte for a value
  (`EventCommand.CommandIsExpansion`, `EventCommand.OneByteIsWasted`).

## Model

| member | source | states |
|---|---|---|
| `ConfDfa.StepIsTables` | configfile-scan.c:395-501 | the compressed tables, decoded through the default chain, are the automaton that is written out row by row; for every state and character |
| `ConfDfa.TablesDecode` | configfile-scan.c:395-501 | all 40 rows and 20 classes of the tables decode to the written rows |
| `ConfDfa.IndexFits` | configfile-scan.c:441-501 | every row begins inside the tables, with room for all classes behind it |
| `ConfDfa.Transition` | configfile-scan.c:793-799 | the loop over the default chain ends, stays inside the tables and takes the step of the written automaton |
| `ConfDfa.ResidualStep` | configfile-scan.l:55-91 | each state stands for what is left of a token rule: reading one character moves from one residual rule to the next |
| `ConfDfa.RunDecides` | configfile-scan.l:55-91 | from every state and for a text of any length, the accepted rule is the residual rule that the text satisfies |
| `ConfTokens.TablesDecideRules` | configfile-scan.l:75-91 | the tables accept a text of any length by the first written token rule that matches it, and by none otherwise |
| `ConfTokens.MatchesCoverInput` | configfile-scan.c:784-812 | the matched texts, blanks and comments included, concatenate to the input, none is empty and each is matched by its rule |
| `ConfTokens.MatchLength` | configfile-scan.c:784-809 | a match is the longest prefix that any rule matches, and at least one character long |
| `ConfTokens.TokensAreKeptMatches` | configfile-scan.c:819-886 | the token stream is the sequence of matches without blanks and comments |
| `ConfTokens.JamEndsMatch` | configfile-scan.c:784-809 | once the automaton has jammed, what it recorded before is the longest match of the whole text |
| `ConfScanner.Scanner.constructor` | configfile-scan.c:1354-1423 | a fresh scanner has the whole input ahead of it, with both sentinels in place |
| `ConfScanner.Scanner.ReadInput` | configfile-scan.c:654-695 | a read delivers some part of what is left, and nothing only at the end |
| `ConfScanner.Scanner.MakeRoom` | configfile-scan.c:1064-1104 | doubling the buffer terminates, keeps the text and leaves room for a read; the unsigned room computation never wraps |
| `ConfScanner.Scanner.FillBuffer` | configfile-scan.c:1057-1113 | a refill reads behind the unfinished text and never past the two sentinel bytes |
| `ConfScanner.Scanner.GetNextBuffer` | configfile-scan.c:1024-1154 | a refill keeps unfinished text and unread input, restores the buffer invariant and reports why it stopped; the late extension by half is unreachable |
| `ConfScanner.Scanner.GetPreviousState` | configfile-scan.c:1158-1183 | rescanning the unfinished text gives its state and records the best match in it |
| `ConfScanner.Scanner.MatchText` | configfile-scan.c:784-804 | matching stops in the jam state, inside the text or on a sentinel, with the best match recorded |
| `ConfScanner.Scanner.FindAction` | configfile-scan.c:806-823 | the action is that of the last accepting state; the text is delimited by a NUL that replaces one held character |
| `ConfScanner.Scanner.MatchOne` | configfile-scan.c:784-1008 | one match, over any number of refills: the longest match of everything that is left, which it consumes |
| `ConfScanner.Scanner.Lex` | configfile-scan.c:735-1020 | the next token of the remaining input, skipping blanks and comments; an end of line advances the line counter |
| `ConfScanner.ScanAll` | configfile-scan.c:735-1020 | for every input, every initial buffer size and every way of reading it in parts, the matches are the longest matches over the whole input |
| `ConfQuote.ScanStr` | configfile-scan.c:2019-2101 | for every closed string the result is the unescaped text up to its first NUL; all indices stay inside the text and the new array |
| `ConfQuote.ScanPiece` | configfile-scan.c:2037-2092 | one plain character, doubled quote, simple escape or octal escape of up to three digits |
| `ConfQuote.QuotedIsClosed` | configfile-scan.l:73 | every text that the scanner calls a string closes in the sense of the unescaper |
| `ConfQuote.UnescapeUndoesEscape` | strutil.c:400-410 | unescaping a quoted, escaped value returns the value, for every value |
| `ConfQuote.QuoteIsString` | configfile-scan.l:73 | a quoted, escaped value is one string of the scanner if and only if it contains no newline |
| `ConfQuote.OctalDigitsRead` | configfile-scan.c:2046-2073 | a backslash with up to three octal digits stands for the byte with that number, the last of fewer than three not being followed by another |
| `ConfQuote.EveryValueHasString` | configfile-scan.c:2037-2092 | with the letter escapes of the scanner every value has a string of the scanner that is unescaped to it, newlines or not |
| `ConfLines.OnlyEolHasNewline` | configfile-scan.l:75-91 | no token but the end of line contains a newline |
| `ConfLines.NextTokenOnLine` | configfile-scan.c:784-812 | what follows a newline has no influence on the tokens before it |
| `ConfParser.ReadLine` | configfile-scan.c:1893-1955 | the tokens of one line give a setting, a blank line or an error near a token or the end of the line, as the grammar of one line says |
| `ConfParser.Resync` | configfile-scan.c:1980-1996 | after an error the scanner stands behind the next newline or at the end |
| `ConfParser.ProcessConfigFile` | configfile-scan.c:1858-2006 | settings and errors are those of the line-by-line specification, the list gets every setting in order, and the result is true if and only if there is no error |
| `ConfGrammar.LineSays` | configfile-scan.c:1893-1955 | a line sets an item if and only if its texts, without blanks and comments, are a name, at most one equals sign, and an identifier, string, integer or real that is no qualified identifier; quoted strings are unescaped |
| `ConfGrammar.ErrorIsNear` | configfile-scan.c:1956-1969 | the error of a malformed line is reported near the first text with which no setting can begin, or near the end of the line |
| `ConfPerLine.ParsingIsPerLine` | configfile-scan.c:1887-2000 | with fewer than 100 malformed lines, parsing a file is parsing its lines one by one; the reported line numbers are right if and only if the file is not cut short in a line without value and newline |
| `ConfPerLine.TooManyErrors` | configfile-scan.c:1971-1977 | with 100 malformed lines or more, parsing stops after the hundredth |
| `ConfPerLine.CutShortExample` | configfile-scan.c:1958-1969 | a file holding one name and no newline reports its error in line 0 |
| `ConfSetting.QuotedLine` | configfile-scan.c:1893-1930 | a line of a name, an equals sign and a quoted string sets the unescaped string |
| `KeyValues.KeyValueList.Set` | strutil.c:195-265 | setting with replacement removes every cell with the key and appends the new cell |
| `KeyValues.PutAllIdempotent` | strutil.c:195-265 | setting the same items a second time changes nothing |
| `AutoConf.ModifyAutoConf` | configfile.c:2153-2214 | the new file is the header and the old settings overridden by the items, one line each |
| `AutoConf.PrintedLine` | configfile.c:2204-2214 | a printed line sets the value it was printed from if and only if the value has no quote, backslash or newline |
| `AutoConf.PrintedSettingsReadBack` | configfile.c:2204-2214 | a printed file whose values are strings of the scanner parses without error, to the unescaped values in order |
| `AutoConf.CleanSettingsReadBack` | configfile.c:2204-2214 | clean settings are read back unchanged and without error |
| `AutoConf.ReadBackIffClean` | configfile.c:2204-2214 | a printed file is read back as the settings it was printed from if and only if all values are clean |
| `AutoConf.SettingsArePrintable` | configfile-scan.c:1893-1954 | whatever file is parsed, its settings have distinct names and values without NUL |
| `AutoConf.ModifyIsMapUpdate` | configfile.c:2181-2214 | the written file stands for the old settings overridden by the new ones if and only if all of these are clean; then writing it again changes nothing |
| `AutoConf.QuoteIsLost` | configfile.c:2204-2214 | a doubled quote is not read back as it was written |
| `Params.ParamList.Set` | dbutils.c:570-610 | the parallel arrays refine an ordered map: override in place, else append; the assertion that a slot is free holds exactly when it should |
| `Params.ParamList.SetIne` | dbutils.c:617-652 | sets a keyword only if it is not there |
| `Params.ParamList.Get` | dbutils.c:656-672 | the value of a keyword, NULL if unset or empty |
| `Params.ParamList.CopyFrom` | dbutils.c:556-567 | copies every non-empty entry of the source; no slot is missing if all keywords come from the counted options |
| `Params.SetIsMapUpdate` | dbutils.c:570-610 | as a map, setting is updating; the order of keywords is kept and a new one comes last |
| `Params.SetIneKeeps` | dbutils.c:617-652 | as a map, setting if not there lets existing entries win |
| `Params.CopyIsMapOverride` | dbutils.c:556-567 | copying is map override by the non-empty entries |
| `Params.SlotIsFree` | dbutils.c:492-529 | by counting distinct keywords, a free slot exists for every keyword of the counted options |
| `ConnString.AppendConnStrVal` | compat.c:41-78 | a value is written bare if and only if it is one or more plain characters, else quoted with quotes and backslashes escaped |
| `ConnString.WritePrimaryConninfo` | repmgr-action-standby.c:7183-7273 | the escaped connection string: given settings without dbname, replication and empty values, then application_name, password and passfile as the options say |
| `PrimaryConninfo.ConnStringReadsBack` | compat.c:41-78 | a written connection string parses, by the rules of section 33.1.1.1 of the PostgreSQL 12 documentation, to the pairs it was written from, in order |
| `PrimaryConninfo.PrimaryConninfoReadsBack` | repmgr-action-standby.c:7183-7273 | through both quoting layers and back: the pairs in order, application_name among them; the scanner takes the value as one string if and only if no value has a newline |
| `PrimaryConninfo.AdditionsAreRead` | repmgr-action-standby.c:7222-7262 | a reader finds the written settings, then node_name or "repmgr" as application_name, the password of the environment and the password file, each exactly when wanted and not given |
| `PrimaryConninfo.FileKeepsIffNoNewline` | configfile.c:2204-2214 | the settings that are read back from the file hold the connection string if and only if no written value has a newline |
| `EscapedLines.NoNewlineIsRead` | configfile.c:2204-2214 | no setting that is read back from escaped values has a newline |
| `PrimaryConninfo.NewlineBreaksIt` | repmgr-action-standby.c:7264-7266 | a concrete value with a newline: the connection string is not among the settings of the printed file |
| `RecoveryFile.CreateRecoveryFile` | repmgr-action-standby.c:6978-7132 | the text of the settings file from version 12 on, or of the separate file before |
| `RecoveryFile.StandbyFindsItsPrimary` | repmgr-action-standby.c:6978-7132 | whoever parses the written file finds primary_conninfo exactly once, with a value that parses to the written pairs |
| `RecoveryFile.StandbyFindsItsSettings` | repmgr-action-standby.c:6993-7041 | and restore_command, archive_cleanup_command, recovery_target_timeline and standby_mode under their names, each if it is configured or was there; slot name and delay, which are not escaped, exactly if there is nothing to escape |
| `NodeTable.WriteKeepsConsistent` | repmgr--5.0.sql:5-19 | every committed write keeps foreign keys, an upstream for every standby and witness, and at most one active primary |
| `NodeTable.RunKeepsConsistent` | dbutils.c:3002-3070 | over every interleaving of the commands' transactions there is at most one active primary |
| `NodeTable.PromotedPrimaries` | dbutils.c:3014-3067 | after the promotion transaction the promoted node is the only active primary if it is registered, without upstream; every other row keeps all but its active flag |
| `NodeTable.PromotionEndsRun` | dbutils.c:3014-3067 | after any run, a promotion leaves exactly the promoted node as active primary if and only if it is registered then, and none otherwise |
| `NodeTable.HalfPromotion` | dbutils.c:3014-3038 | the first update alone leaves no active primary, unless the promoted node was one |
| `NodeTable.RegisterKeepsOneIff` | repmgr-action-primary.c:126-143 | a further active primary row keeps the table consistent if and only if no other node is registered as active primary |
| `NodeTable.SwitchoverSwapsRoles` | repmgr-action-standby.c:4533-4640 | the writes of a completed switchover are allowed, swap the roles of the two nodes and touch no other row |
| `NodeTable.SwitchoverAndBack` | repmgr-action-standby.c:4533-4640 | switching over and back restores the table |
| `NodeTable.RegisterThenUnregister` | dbutils.c:3250-3278 | removing a row that has just been inserted restores the table, and no foreign key forbids it unless the row refers to itself |
| `Database.Connection.Commit` | dbutils.c:890-910 | committing publishes the transaction, unless a statement in it failed; then nothing is published although the commit succeeds |
| `Database.Connection.PrimaryNodeId` | dbutils.c:1480-1516 | an active primary's id, -1 if there is none and also if the query fails |
| `Database.Connection.SaveRecord` | dbutils.c:2821-2932 | inserts or updates one row; a standby without upstream gets the active primary; updating an unregistered node succeeds and changes nothing |
| `Database.Connection.SetPrimary` | dbutils.c:3002-3070 | a promotion is all or nothing if the transaction could be started; otherwise a failure leaves exactly the updates that went through; it succeeds when no statement fails |
| `Database.Connection.SetStandby` | dbutils.c:3115-3151 | the row becomes an active standby of the upstream, or nothing changes |
| `Registration.PrimaryRegister` | repmgr-action-primary.c:30-264 | on success the row has the configured name, conninfo and priority and is an active primary; only if no other active primary is registered, even when the query for it fails inside the transaction; and when no statement fails, it succeeds exactly when the row may be written |
| `Registration.PrimaryUnregister` | repmgr-action-primary.c:268-571 | removes at most the target's row; never that of a reachable node out of recovery that is registered as active primary, not even with --force; and when no statement fails, the row goes exactly when the checks allow it |
| `Registration.CheckSubject` | repmgr-action-primary.c:341-517 | the checks on type, downstream nodes, recovery state and active flag, as one condition on the table |
| `Registration.StandbyRegister` | repmgr-action-standby.c:1292-1933 | on success the row has the configured name, conninfo and priority and is an active standby of a registered upstream; only standby rows are written, over an existing one only with --force; if no statement fails the exact condition of success, and no success under a name that other nodes have |
| `Registration.RegisteredNameIsTaken` | repmgr-action-standby.c:1455-1478 | after a node has been registered under a new name, the name is taken for every other node |
| `Registration.CheckUpstream` | repmgr-action-standby.c:1489-1655 | if no statement fails: without --force exactly when the given upstream is another node, registered, reachable and replicating to this node, and the record looked up last is active; with --force exactly when it is another node and is registered or can get a placeholder below a primary |
| `Registration.UpstreamActivityIsIgnored` | repmgr-action-standby.c:1489-1655 | whether the upstream is active makes no difference to registering below it without --force |
| `Registration.InactiveUpstreamIsAccepted` | repmgr-action-standby.c:1489-1655 | an inactive upstream below which a standby is registered without --force |
| `Registration.Unregister` | repmgr-action-standby.c:1937-2021 | removes the row of a standby (or witness), exactly when nothing refers to it if no statement fails, and leaves the active primaries alone |
| `Registration.WitnessRegister` | repmgr-action-witness.c:35-340 | a registered witness has the configured name and conninfo, priority 0 and a registered upstream; if no statement fails, a node is registered after success if and only if it was before or no row had its name, and success itself is characterised |
| `Registration.WitnessIsNotRegistered` | repmgr-action-witness.c:35-340 | with an inactive node of the same name, a witness meets all conditions and is not registered |
| `WitnessCopy.CopyNodeRecords` | dbutils.c:3200-3246 | true exactly when the old rows could be deleted; the copy is the primary's table if every step worked, and every step works when no statement fails; if only reading failed, the copy is empty and true is returned |
| `Discovery.FindPrimary` | dbutils.c:1343-1454 | the first node in the order of the query that is active, no witness, out of recovery and answers; none if and only if no such node is heard, be it that there is none, that it does not answer or that the query fails |
| `Discovery.RegisteredPrimaryComesFirst` | dbutils.c:1370-1379 | a registered primary that runs and answers is found before any other node |
| `Discovery.LowerPriorityComesFirst` | dbutils.c:1370-1379 | of two answering nodes that are not registered as primary, the one with the higher priority number is not the one found |
| `Promotion.WaitForPromotion` | repmgr-action-standby.c:2248-2293 | success if and only if the last poll says that the server has left recovery, failure only after all polls that timeout and interval allow; every poll and its answer is in the history of the network |
| `Promotion.PromoteInternal` | repmgr-action-standby.c:2183-2336 | the node is told to leave recovery exactly if it is registered and the command works; the exit follows from that and the polls; the table is changed by the promotion or not at all, if the transaction could be started |
| `Promotion.StandbyPromote` | repmgr-action-standby.c:2025-2336 | if no statement fails, it succeeds exactly when nothing spoke against it, the node could be told to leave recovery and a poll found that it has; then it is the only active primary of the table. However it ends, one running primary stays one if the search heard every running one, and once this node has left recovery exactly then |
| `Promotion.UnheardPrimary` | repmgr-action-standby.c:2120-2124 | a running primary that the search does not hear, because its query fails or it does not answer: the standby may promote, and then two nodes serve |
| `Recovery.IsReplayPaused` | dbutils.c:5393-5453 | replay counts as paused if and only if the query says so; a failed query does not |
| `Promotion.FollowInternal` | repmgr-action-standby.c:2838-3151 | the node's row becomes an active standby of the target, and it is no active primary any more; a failure leaves the table alone, and without failing statements success means that both are registered and the restart worked |
| `Promotion.NodeRejoin` | repmgr-action-node.c:2138-2470 | a node rejoins as a standby of the registered primary, reached out of recovery; if the primary answers and no statement fails, exactly when no ping is answered, its control file says shut down or shutting down, it can follow or be rewound, and the change of metadata works |
| `Promotion.OnlyShuttingDownSlipsThrough` | repmgr-action-node.c:2138-2470 | what passes the first checks without having been shut down is exactly a node that answers no ping and is shutting down |
| `Promotion.ShuttingDownRejoins` | repmgr-action-node.c:2138-2470 | such a node, with a running primary, meets all conditions of a rejoin |
| `ShutdownReport.PrintReport` | repmgr-action-node.c:598-690 | for each status that is printed, exactly when: from the pings, the state of the control file and its checkpoint |
| `ShutdownReport.ParseOutputToArgv` | configfile.c:2348-2416 | the arguments are the trimmed words between blanks, behind an empty program name |
| `ShutdownReport.ParseNodeStatus` | repmgr-action-standby.c:7277-7345 | the options in order decide status and checkpoint for any output: long, cut short or as letters, with their value attached or in the next argument |
| `ShutdownReport.LsnBack` | dbutils.c:99-109 | parsing a printed LSN gives it back, for every LSN of 64 bits |
| `ShutdownReport.ReportReadsBack` | repmgr-action-standby.c:7277-7345 | down arrives as down with the printed checkpoint, nothing else arrives as down, and the checkpoint known before is kept otherwise |
| `ShutdownReport.StatusReadsBackIff` | repmgr-action-node.c:588-597 | a printed status is read back as itself if and only if it is unknown, down or unclean shutdown |
| `ShutdownReport.NeverShuttingDown` | repmgr-action-standby.c:4426-4429 | no output is ever read as shutting down or rejected |
| `RepmgrdPause.Daemons.ScanNodes` | repmgr-action-standby.c:4083-4135 | the entries stay in step with the node list and say what was found; a node counts as unreachable exactly if the connection to it failed |
| `RepmgrdPause.Daemons.PauseAll` | repmgr-action-standby.c:4185-4250 | exactly the daemons that run and were not paused are paused, if every call succeeds |
| `RepmgrdPause.Daemons.UnpauseAll` | repmgr-action-standby.c:4845-4898 | every daemon not found paused is unpaused, and no other flag changes |
| `RepmgrdPause.Daemons.FlagsRestored` | repmgr-action-standby.c:4083-4261 | afterwards a daemon's flag is as before if and only if it was not a paused one on a node out of reach while some repmgrd ran |
| `Switchover.CheckFirst` | repmgr-action-standby.c:3240-4080 | the checks pass if and only if the node is an attached standby of the found primary, the other server can be used, and --force is given or none of the listed reasons for it is there |
| `Switchover.PauseDaemons` | repmgr-action-standby.c:4083-4261 | goes on if and only if every node could be connected to or --force is given; then exactly the running daemons are paused, if every call succeeds |
| `Switchover.AwaitShutdown` | repmgr-action-standby.c:4353-4444 | the stop is confirmed by the first report of a clean shutdown with a valid checkpoint; it is not confirmed only after all pings that there is time for, each unanswered one followed by a report that decides nothing, or after an unclean report without --force |
| `Switchover.AwaitWal` | repmgr-action-standby.c:4478-4512 | the answers are asked for until one reaches the checkpoint or time is up; with no attempts nothing counts as received |
| `Switchover.PromoteLocal` | repmgr-action-standby.c:2183-2336 | the exit follows from the record, the command, the polls and the update; success only after leaving recovery; over a cleanly stopped primary it never leads to two primaries |
| `Switchover.StopAndPromote` | repmgr-action-standby.c:4320-4534 | each phase is entered exactly if the answers in the one before allow it; over a confirmed stop never two primaries and, without --always-promote, all WAL up to the shutdown checkpoint received |
| `Switchover.SwapRoles` | repmgr-action-standby.c:4320-4662 | it succeeds if and only if the answers let the switchover complete; then exactly one request to rejoin follows the promotion |
| `Switchover.AnswersDecide` | repmgr-action-standby.c:4320-4534 | the same requests and answers lead to the same end: the command has no choice |
| `Switchover.Switchover` | repmgr-action-standby.c:3170-4939 | it completes if and only if the checks, the scan, the reported stop, the received WAL and the promotion allow it, and then the old primary has been asked to rejoin; promotion only of an attached standby after a confirmed clean stop or, with --force, a reported unclean one; over a confirmed stop never two primaries and no WAL lost; every repmgrd flag restored on completion |
| `Crosscheck.MatrixSet` | repmgr-action-cluster.c:1031-1051 | exactly the entry for the two ids changes |
| `Crosscheck.Cube.Set` | repmgr-action-cluster.c:1500-1528 | exactly the cell for the three ids changes |
| `Crosscheck.Cube.Fill` | repmgr-action-cluster.c:1378-1487 | after filling, each layer holds the last status per pair from the report that was used for its node |
| `Crosscheck.Cube.Maximum` | repmgr-action-cluster.c:770-844 | the maximum over the observers, starting from unknown |
| `Crosscheck.Display` | repmgr-action-cluster.c:755-844 | up if and only if some report that was used says up, down if and only if none does and some says down, unknown otherwise; the same over each node's own report as long as the lagging index stays in step |
| `Crosscheck.ReportsAreOwnIff` | repmgr-action-cluster.c:1378-1453 | every other node's report is its own if and only if all nodes before this one can be reached, or too few answer for the lagging index to come to this node |
| `Crosscheck.DisplayIsOwn` | repmgr-action-cluster.c:755-844 | under that condition the display is that of each node's own report |
| `Crosscheck.DisplayIgnoresOrder` | repmgr-action-cluster.c:755-844 | and does not depend on the order in which the nodes are listed |
| `Crosscheck.OrderDoesNotMatter` | repmgr-action-cluster.c:770-844 | the maximum over the reports depends on them as a multiset alone |
| `Crosscheck.UnreachableNodeShiftsReports` | repmgr-action-cluster.c:1441-1451 | with the first of three nodes out of reach, the second one's report is taken for the third's |
| `EventCommand.ParseEventList` | configfile.c:2262-2324 | the list is the non-empty pieces between commas without blanks, in order; they fit into their buffer, terminators included, if and only if each is shorter than 1024 characters |
| `EventCommand.JoinedNamesReadBack` | configfile.c:2262-2324 | parsing names joined by commas gives the names back |
| `EventCommand.LongNameOverruns` | configfile.c:2262-2324 | a single plain name fits, terminator included, if and only if it is shorter than 1024 characters |
| `EventCommand.OverrunExample` | configfile.c:2268-2270 | a list that does not fit: 1024 times the same letter |
| `EventCommand.CopyString` | dbutils.c:3794-3871 | the bounded copy stays inside the room and advances over exactly what it copied |
| `EventCommand.Expand` | dbutils.c:3779-3885 | the expansion loop computes the bounded substitution, inside the buffer for every template and all values |
| `EventCommand.DirectivesTell` | dbutils.c:3786-3870 | what each directive tells: numbers read back as the ids, 1 exactly for success, names and texts as they are, quotes in the details escaped |
| `EventCommand.CommandFits` | dbutils.c:3769-3885 | command and terminator fit into the buffer |
| `EventCommand.CommandIsExpansion` | dbutils.c:3779-3885 | the command is the pure substitution if and only if that is at least two bytes shorter than the buffer, or one byte shorter with a last byte that comes from a literal character or %% |
| `EventCommand.OneByteIsWasted` | dbutils.c:3813-3818 | an event name that would just fit loses its last character |

## Left out

- NUL bytes in configuration input, allocation failure, read and write errors, and overflow of sizes when the scanner's buffer doubles: sizes are unbounded naturals there.
- The scanner entry points for in-memory strings and the stack of buffers, and the assignment of parsed settings to repmgr's own options.
- ConfScanner.ScanAll: characters beyond 255 share the class of the bytes from 128 on; the program reads bytes.
- ConfQuote.ScanStr: an octal escape above 255 is taken modulo 256 and the result ends at its first NUL, as for a C string; the signedness of char is not modelled.
- RecoveryFile.CreateRecoveryFile: file names, modes, standby.signal, and the variant that fills a caller's buffer instead of a file, which truncates; escape_recovery_conf_value is the doubling of quotes and backslashes.
- AutoConf.ModifyAutoConf: the temporary file and its renaming; the settings file is its contents.
- PrimaryConninfo.ConnStringReadsBack: the reader is written after the PostgreSQL documentation, since libpq is not part of this model; checks of the option names are not made.
- ConnString.WritePrimaryConninfo: the defaults and the environment of libpq are the password option given as a parameter.
- NodeTable.RunKeepsConsistent: covers the commands shown, not update_node_record_set_active, which can activate a second primary; transactions are steps run one at a time; columns other than type, upstream, name, conninfo, priority and active are not modelled.
- Database.Connection.Commit: a connection lost during COMMIT counts as not committed.
- Registration.PrimaryRegister: its guarantees hold when BEGIN has succeeded; installation of the extension, virtual IP addresses, events and the voting term are left out.
- Registration.StandbyRegister: waiting for the record to be replicated, and waiting for the node to start, which is part of its being reachable.
- Registration.WitnessRegister: the guarantee about rows of other types excepts a failed lookup, as in the code.
- WitnessCopy.CopyNodeRecords: says nothing when BEGIN has failed; event records.
- Promotion.StandbyPromote: other servers do not change their role while the command runs; what a server answers is true.
- Promotion.FollowInternal: replication slots, the recovery file and the restart are answers of the environment; the bodies of check_node_can_attach and pg_rewind are not part of this model.
- Promotion.NodeRejoin: waiting for the node to attach, and its slots afterwards.
- ShutdownReport.ParseNodeStatus: getopt_long is the one of the GNU library; signs, blanks, the prefix 0x and saturation in sscanf.
- Switchover.CheckFirst: which error code a failed check leads to, as for the checks of the commands in Registration.
- Switchover.Switchover: a cleanly stopped primary stays down until it is told to rejoin, and its control file says shut down only when it is; siblings, replication slots and archived files are results of checks; siblings that follow the new primary and virtual IP addresses are left out.
- RepmgrdPause.Daemons.FlagsRestored: nobody else pauses or unpauses a daemon meanwhile, and a query for the state of a reachable daemon does not fail.
- Crosscheck.ReportsAreOwnIff: assumes that no other node reports exactly what this one does, since then the one report could pass for the other.
- Crosscheck.Display: reports with the statuses -2, -1 and 0; for other numbers the program stops with an error. Names, column widths and CSV output.
- EventCommand.ParseEventList: what happens to the memory behind the buffer once a name does not fit.
- Clone, Barman, tablespaces, BDR, repmgrd's failover and voting, node startup, logging and help text.
