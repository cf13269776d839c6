# nodeterm, verified

A Dafny model of six parts of nodeterm that carry hard guarantees, with proofs of those guarantees.

* **Agent status mirror.** Hook events move each canvas node between working, waiting, blocked and
  done; every transition feeds a capped inbox, a stream of live-activity edges and a file that a
  restart reads back. `StatusReducer` is the per-node reducer, `InboxFeed` the trimmed feed,
  `StatusMirror` the whole mirror as a value, `MirrorService` the mirror with its state in fields.
  `StatusInvariants`, `HeldQuestion`, `MirrorRestart` and `RestartCards` state what holds over whole
  runs, `AskContents` what the cards, edges and broadcasts say.
* **Agent launch encoding.** The trusted launch-command grammar (`LaunchParser`), POSIX quoting
  (`LaunchCommand`) and Windows argument and PowerShell quoting (`WindowsQuoting`), each against an
  independent reading: the grammar's lexer, the Shell Command Language, `CommandLineToArgvW`, and
  PowerShell's single-quoted strings.
* **Template runtime scanners.** The expression evaluator (`Expr`, `ExprCorrect`, and `ExprForms` for
  expressions without parentheses or malformed), CSS rewriting (`Css`, `CssScan`, and `StyleTexts` for
  what it does to the text of a style) and deck keys (`DeckKeys`).
* **Board log.** The two-generation log (`BoardLog`), attachment sessions (`BoardSessions`) and the
  store object (`BoardLogStore`). `BoardCodec` exhibits an encoding that meets the laws asked of JSON,
  and with it a log that an overlapped read gets wrong.
* **Agent continuation.** The deliver-then-wait-for-receipt protocol over all interleavings
  (`Continuation`), what the final deletion takes (`ContinuationDeletion`) and the service object
  (`ContinuationService`).
* **Archive unlock guard.** The escalating wait and the ladder that may skip one (`UnlockGuard`,
  `UnlockGuardService`).

Operations that change state in place are class methods proved equal to a step of a pure
specification; the properties are lemmas about runs of that specification. The clock, file
outcomes, random identifiers, the ladder's verdict, JSON and JavaScript's primitive operations are
parameters. `Text` and `Wrappers` are shared helpers. `dafny verify dfyconfig.toml` checks everything.

Where the code does not do what its surroundings suggest, the code is modelled and the difference is
a lemma:

* A `session-start` that hits a node in the middle of a turn takes its state away without an end edge,
  so its live card stays up: `CardsMatchState` is exact about which nodes are affected, and
  `StrandedByRestart` is the two-event run that does it.
* The hold on a pending question is not persisted; after a restart the turn's own end takes the node
  to done (`RestartForgetsHold`).
* An ask and the entry waiting for it expire separately, so after a restart an open card can belong to
  a node without a state and a waiting node can be without its card: `ReloadedFeedAgrees` is exact
  about the nodes, `AskOutlivesEntry` is an instance.
* An ask reported as anything but waiting breaks the link between the awaiting flag and the state
  (`AskFlagKept`). The one producer of the flag, `src/shared/agents/normalize.ts:352-362`, always
  reports waiting, so the failing event needs another producer.
* No edge is replayed at a restart, so a node reloaded in the middle of a turn has no live card, and its
  next working event puts none up (`ReloadedWorkingIsMute`). `ReloadedCards` is exact about the nodes
  whose card is wrong, over every later run.
* PowerShell reads U+2018 to U+201B as quotes of its own: a launch that is not refused, native or of a
  script, reaches the program unchanged exactly when neither the executable nor an argument holds one
  (`PowershellLaunch`).
* A string literal that an operator can be found in is split: a literal standing alone has its text as
  its value exactly when the operator search finds nothing (`LoneLiteral`).
* A comment is clamped only when it is exactly one code unit too long; a longer one is refused
  (`ClampReachesOneLength`).
* A read opens its two files one after the other. When an append in between rotates, the read can
  return current entries twice and, after two rotations, a newer entry behind an older one
  (`OverlappedReadWitness`). `ReadAcrossRun` gives what any overlapped read returns, and
  `OverlappedReadExactly` says when it is right.
* Rolling uploads back gives a session no room back (`RemovalReturnsNoRoom`), and files can be left
  behind: a save that finds its session expired leaves the session's blobs, an accepted comment those it
  does not mention, an upload whose write fails the file it opened, and the expiry timer, which fires
  once, those it cannot remove, or all of them if it cannot read the log. `OrphansExactly` says which
  files each step orphans, and `OrphansStay` that no later step removes one or refers to it.
* Deleting a continued packet is keyed by node alone and waits in a queue. It takes the packet
  that the last successful update queued before it left (`DeletionTakes`); while updates succeed, that
  of the session last heard of when it was queued (`DeletionTakesExactly`). So a newer session's packet
  can be deleted with success reported (`NewerSessionIsDeleted`).

## Model

| member | source | states |
|---|---|---|
| InboxFeed.TrimIsSubsequence | src/core/agent-status-mirror.ts:655-674 | the trimmed feed is an ordered subsequence that ends with the last `cap` events |
| InboxFeed.TrimKeepsExactly | src/core/agent-status-mirror.ts:655-674 | an event survives exactly when it is among the last `cap`, or no later event is a finished card, or no later one an unresolved ask, of its node |
| InboxFeed.TrimOnlyKeeps | src/core/agent-status-mirror.ts:655-674 | trimming invents no event |
| InboxFeed.TrimLength | src/core/agent-status-mirror.ts:655-674 | at most `cap` plus two events per node remain |
| InboxFeed.IncrementalTrimIsOneShot | src/core/agent-status-mirror.ts:1023-1030 | over every run of pushes and resolutions the live feed equals one trim of the never-trimmed history |
| InboxFeed.CoversResolve | src/core/agent-status-mirror.ts:1057-1063 | resolving a node's asks in feed and history alike keeps the two in step |
| InboxFeed.TrimByIdIsTrim | src/core/agent-status-mirror.ts:655-674 | the source's trim by event id is the trim by position whenever ids are distinct |
| InboxFeed.CollectProtectedIds | src/core/agent-status-mirror.ts:655-668 | the scan loop collects exactly the ids of each node's newest done and newest unresolved ask |
| InboxFeed.TrimInboxFeed | src/core/agent-status-mirror.ts:655-674 | the source's loops compute the trim by id |
| StatusReducer.EvidenceFollowsCommit | src/core/agent-status-mirror.ts:372-477 | after any run, proof, client revision, idle mark and time are those of the last committing event |
| StatusReducer.StateFollowsCommit | src/core/agent-status-mirror.ts:405-475 | after any run the state is none after a session event, waiting after the uninterrupted end of a turn that awaited an answer, and the event's own otherwise |
| StatusReducer.FlagFollowsAsk | src/core/agent-status-mirror.ts:423-433 | after any run the awaiting flag is set exactly when the last event that spoke of it was an ask or the end of a turn held for one |
| StatusReducer.IdentityKept | src/core/agent-status-mirror.ts:403-405 | after any run agent and session are the last ones named |
| StatusReducer.LastProofKept | src/core/agent-status-mirror.ts:372-477 | `verifiedAt` is the time of the last verified commit of the run |
| StatusReducer.CommitEffect | src/core/agent-status-mirror.ts:372-402 | a commit clears the restored mark and a verified one stamps its time; anything else leaves both |
| StatusReducer.RestoredUntilCommit | src/core/agent-status-mirror.ts:1204-1216 | a restored entry stays marked exactly until its first commit |
| StatusReducer.NeverRestoredByEvents | src/core/agent-status-mirror.ts:372-477 | no event ever sets the restored mark |
| StatusReducer.HoldOffHolds | src/core/agent-status-mirror.ts:433-475 | any number of stragglers within 3000 ms of a done neither move the state nor extend the window |
| StatusReducer.HoldOffBoundary | src/core/agent-status-mirror.ts:433-475 | a working that opens no turn is taken exactly from 3000 ms on |
| StatusReducer.AskFlagKept | src/core/agent-status-mirror.ts:413-433 | the awaiting flag keeps implying waiting exactly when the ask did not arrive as another state |
| StatusReducer.PendingQuestionHeld | src/core/agent-status-mirror.ts:413-433 | uninterrupted dones, idle notices and identity events leave a pending question waiting |
| StatusInvariants.OpenAsksTrim | src/core/agent-status-mirror.ts:655-674 | trimming never drops a node's only unresolved ask |
| StatusInvariants.PushKeepsFeed | src/core/agent-status-mirror.ts:1023-1030 | a push keeps ids distinct and the feed equal to the trimmed history |
| StatusInvariants.ProduceStage | src/core/agent-status-mirror.ts:1367-1553 | inbox production takes feed, edges and state from agreement about the old state to agreement about the new one |
| StatusInvariants.StepAgrees | src/core/agent-status-mirror.ts:1299-1323 | every operation keeps node map, feed and edges in agreement |
| StatusInvariants.RunAgrees | src/core/agent-status-mirror.ts:1299-1323 | so does every run from an empty mirror |
| StatusInvariants.FeedMatchesState | src/core/agent-status-mirror.ts:1379-1496 | a node has exactly one unresolved ask in the feed if it is blocked or waiting and none otherwise, even after trimming |
| StatusInvariants.FeedBounded | src/core/agent-status-mirror.ts:655-674 | the feed is the whole history up to fifty events, and otherwise bounded by fifty and two cards a node |
| StatusInvariants.CardsMatchState | src/core/agent-status-mirror.ts:1390-1551 | a mid-turn node's last edge put its card up; any other card is down exactly when no session start hit the node mid-turn |
| StatusInvariants.StrandedByRestart | src/core/agent-status-mirror.ts:1498-1551 | a turn start and a session start leave a node without a state and its card up |
| AskContents.AskSaysWhatIsOwed | src/core/agent-status-mirror.ts:1411-1496 | the card and the edge of an ask have the kind, title, options and ticket its state, pending detail and headline call for; a repeated ask adds neither |
| AskContents.BroadcastSaysWhatIsOwed | src/core/agent-status-mirror.ts:1299-1323 | every event is broadcast once and as it came, but an ask is classified as its card and a held end of turn is reported as waiting |
| AskContents.PickerThenAsk | src/core/agent-status-mirror.ts:1411-1440 | an ask up to five minutes after a picker is a question with its options and no ticket, whatever state it came as |
| AskContents.PermissionThenAsk | src/core/agent-status-mirror.ts:1411-1440 | a block up to five minutes after a permission request is an approval with its summary and the event's ticket |
| AskContents.PermissionJoinsPicker | src/core/agent-status-mirror.ts:1607-1622 | a permission request keeps a fresh picker and replaces a stale one |
| AskContents.TurnEndAnnounced | src/core/agent-status-mirror.ts:1497-1517 | a turn's end fires one end edge and pushes one card, both saying whether it was interrupted |
| AskContents.OtherwiseAnnounced | src/core/agent-status-mirror.ts:1385-1551 | any other change adds no card and fires a start, an end for a session ended in mid-turn, or nothing |
| AskContents.OthersUntouched | src/core/agent-status-mirror.ts:1299-1323 | an operation on one node leaves every other node's entry and pending detail alone |
| AskContents.ClearedExactly | src/core/agent-status-mirror.ts:1661-1700 | clearing forgets the node, settles its asks and no other card, and fires an end edge exactly in mid-turn |
| AskContents.AckedExactly | src/core/agent-status-mirror.ts:1804-1830 | acknowledging marks the node's finished cards and no other, and fires one edge exactly if one was unread |
| AskContents.SweptExactly | src/core/agent-status-mirror.ts:1841-1865 | a sweep takes exactly the nodes working for longer than the limit to done, leaving evidence, age and feed alone |
| HeldQuestion.FlagImpliesWaiting | src/core/agent-status-mirror.ts:462-475 | when asks arrive as waiting, the awaiting flag implies waiting in every reachable entry |
| HeldQuestion.HeldStep | src/core/agent-status-mirror.ts:413-433 | one event that leaves the ask alone leaves the entry waiting |
| HeldQuestion.QuestionHeldOverRun | src/core/agent-status-mirror.ts:1311-1314 | through any such run, sweeps included, the node stays waiting and no broadcast says done |
| MirrorRestart.ReloadedEntry | src/core/agent-status-mirror.ts:1204-1216 | a reloaded entry is the persisted one without evidence or pending question, marked restored |
| MirrorRestart.AgedExactly | src/core/agent-status-mirror.ts:525-556 | ageing takes out exactly the events older than six hours and keeps the order of the others |
| MirrorRestart.RepeatedDoneIsSilent | src/core/agent-status-mirror.ts:1152-1249 | loading fires nothing, and a done repeated for a reloaded done node pushes and fires nothing |
| MirrorRestart.RepeatedAskIsSilent | src/core/agent-status-mirror.ts:1459-1481 | an ask repeated with the same state and title inside ten minutes pushes and fires nothing |
| MirrorRestart.ReloadedAsk | src/core/agent-status-mirror.ts:525-556 | a node's newest unexpired unresolved ask survives ageing, persisting, reloading and trimming |
| MirrorRestart.RestartForgetsHold | src/core/agent-status-mirror.ts:525-556 | the turn end that leaves the running mirror waiting takes the reloaded node to done |
| MirrorRestart.ReloadKeepsFeed | src/core/agent-status-mirror.ts:1218-1237 | a reloaded feed is the aged one trimmed, with distinct ids and the counter past all of them |
| MirrorRestart.ReloadedFeedAgrees | src/core/agent-status-mirror.ts:1196-1228 | after a restart a node has the asks its state calls for exactly when its ask and its entry both survived or neither did |
| MirrorRestart.AskOutlivesEntry | src/core/agent-status-mirror.ts:1196-1228 | a run after which a restart leaves an open question of a node that has no state |
| MirrorRestart.LaterIdsAreNew | src/core/agent-status-mirror.ts:1218-1249 | while the counter loaded from the file and the pushes since stay within 2^53, every later event id differs from every restored one |
| RestartCards.ReloadedCards | src/core/agent-status-mirror.ts:1196-1217 | after any reload and any later run, a card is wrong exactly for a node reloaded mid-turn of which nothing has been said since, or one a session start took out of a turn whose card was up |
| RestartCards.RunCard | src/core/agent-status-mirror.ts:1367-1553 | in every run that starts without edges, each node's last edge follows its state, those two cases apart |
| RestartCards.ReloadedWorkingIsMute | src/core/agent-status-mirror.ts:1390-1410 | a node reloaded as working fires no edge at its next working event |
| MirrorService.AgentStatusMirror.PushInboxEvent | src/core/agent-status-mirror.ts:1023-1030 | numbers, appends and trims as the specification step does |
| MirrorService.AgentStatusMirror.ResolveUnresolvedFor | src/core/agent-status-mirror.ts:1057-1063 | the in-place loop resolves exactly the node's asks |
| MirrorService.AgentStatusMirror.FindNewestUnresolved | src/core/agent-status-mirror.ts:636-645 | the backward scan finds the node's newest unresolved ask |
| MirrorService.AgentStatusMirror.FreshStash | src/core/agent-status-mirror.ts:848-858 | returns a fresh stash and drops a stale one |
| MirrorService.AgentStatusMirror.RaiseAsk | src/core/agent-status-mirror.ts:1411-1496 | one edge and one card for a new ask, none for a reassertion |
| MirrorService.AgentStatusMirror.ChooseAsk | src/core/agent-status-mirror.ts:1416-1440 | kind, title and options of the ask, a fresh picker making it a question |
| MirrorService.AgentStatusMirror.SettleBefore | src/core/agent-status-mirror.ts:1373-1384 | a boundary drops the stash, leaving blocked or waiting settles the node's asks |
| MirrorService.AgentStatusMirror.ProduceInboxFromState | src/core/agent-status-mirror.ts:1367-1553 | takes the production step of the specification |
| MirrorService.AgentStatusMirror.RecordAgentEvent | src/core/agent-status-mirror.ts:1299-1323 | takes the recording step and broadcasts what the specification says |
| MirrorService.AgentStatusMirror.ClearNode | src/core/agent-status-mirror.ts:1661-1700 | settles and removes a node as the specification does |
| MirrorService.AgentStatusMirror.AckDone | src/core/agent-status-mirror.ts:1804-1830 | marks the node's unread dones and fires one ack edge if there were any |
| MirrorService.AgentStatusMirror.SweepStaleWorking | src/core/agent-status-mirror.ts:1841-1865 | sweeps exactly the stale working nodes, whatever the map order |
| MirrorService.AgentStatusMirror.RecordPicker | src/core/agent-status-mirror.ts:1583-1592 | stashes a picker's options and question |
| MirrorService.AgentStatusMirror.RecordPermission | src/core/agent-status-mirror.ts:1607-1622 | stashes a permission request's title |
| MirrorService.AgentStatusMirror.LoadPersisted | src/core/agent-status-mirror.ts:1152-1249 | reaches the reloaded mirror of the specification |
| WindowsQuoting.WindowsNativeArg | src/core/agent-launch.ts:518-536 | the source's loop computes the encoder |
| WindowsQuoting.ReadNativeArg | src/core/agent-launch.ts:518-536 | an encoded argument is read back whole, and reading stops at the next space |
| WindowsQuoting.ReadQuotedBody | src/core/agent-launch.ts:522-535 | between quotes every value survives, pending backslashes included |
| WindowsQuoting.ArgumentLineRoundTrip | src/core/agent-launch.ts:557-558 | every argument list survives encoding, joining with spaces and splitting by `CommandLineToArgvW` |
| WindowsQuoting.PowershellQuoteExact | src/core/agent-launch.ts:461-463 | PowerShell reads the quoted text back exactly when it holds no U+2018 to U+201B |
| WindowsQuoting.DeliveredExactly | src/core/agent-launch.ts:557-566 | the argument list reaches a native program intact exactly when no argument holds one of them |
| LaunchCommand.InsideQuotes | src/core/agent-launch.ts:457-459 | inside quotes the escaped text adds exactly its value to the word, and only a NUL can stop it |
| LaunchCommand.PosixRoundTrip | src/core/agent-launch.ts:457-459 | the shell splits the joined quoted tokens back into exactly the tokens, or none if one holds a NUL |
| LaunchCommand.CommandLength | src/core/agent-launch.ts:612-614 | the byte length of the command is that of its tokens, four per quote, plus the separators |
| LaunchCommand.PosixLaunch | src/core/agent-launch.ts:603-621 | refused exactly for an over-long token or command; otherwise the shell runs the executable with the arguments |
| LaunchCommand.PsWordsExact | src/core/agent-launch.ts:545-550 | PowerShell reads the words of a script invocation back exactly when none holds a curly quote |
| LaunchCommand.NativeScriptExact | src/core/agent-launch.ts:556-566 | the `Start-Process` script carries executable and arguments unchanged exactly when none holds a curly quote |
| LaunchCommand.ScriptLength | src/core/agent-launch.ts:557-566 | the script's length is that of its texts, one more per quote in them, and fixed parts |
| LaunchCommand.PowershellLaunch | src/core/agent-launch.ts:538-640 | refused exactly for a batch shim, an over-long native command line or an over-long script; otherwise it reaches the program unchanged exactly when neither executable nor arguments hold a curly quote |
| LaunchParser.ParseTrustedLaunchCommand | src/core/agent-launch.ts:273-342 | the source's character loop computes the lexer and the first-token check |
| LaunchParser.PrintRoundTrip | src/core/agent-launch.ts:273-342 | parsing the printed tokens gives them back exactly when the first is non-empty and no option |
| LaunchParser.Canonical | src/core/agent-launch.ts:273-342 | an accepted command can be reprinted without changing its tokens |
| LaunchParser.AcceptedExactly | src/core/agent-launch.ts:273-342 | accepted exactly when quotes balance, no operator stands bare, and the first token names a program |
| LaunchParser.WrittenIsRead | src/core/agent-launch.ts:273-342 | tokens written in any mixture of bare, escaped and quoted characters, with any whitespace between, are read back |
| LaunchParser.AcceptedIsWritten | src/core/agent-launch.ts:273-342 | every accepted text is such a writing |
| LaunchParser.TokensExactly | src/core/agent-launch.ts:273-342 | a command is accepted with the given tokens exactly when some writing of them gives it and the first names a program |
| Expr.CheckParensWrapWhole | design/support.js:237-247 | true exactly when no paren before the last character closes the first |
| Expr.FindEqualityFrom | design/support.js:248-262 | the leftmost operator outside brackets with an operand before it, and none earlier |
| Expr.ScanForEquality | design/support.js:248-262 | the scan finds that operator |
| Expr.ScanForClosing | design/support.js:275-285 | the index scan finds the matching bracket |
| Expr.FollowStep | design/support.js:268-292 | one turn of the path loop moves past one member or index, or stops on a malformed path |
| Expr.WalkPath | design/support.js:263-294 | the path loop computes the recursive path lookup |
| Expr.EvaluateOpen | design/support.js:211-236 | equality, negation and atoms as the recursive resolver has them |
| Expr.Evaluate | design/support.js:205-236 | the evaluator terminates on every input and computes the recursive resolver |
| ExprCorrect.FirstOperator | design/support.js:248-262 | in a printed comparison the operator found is the tree's own |
| ExprCorrect.LoneLiteral | design/support.js:211-236 | a literal standing alone has its text as its value exactly when no operator is found in it |
| ExprCorrect.WalkPrinted | design/support.js:263-294 | a printed path is walked to its meaning, whatever path text follows |
| ExprCorrect.ResolveCompare | design/support.js:213-222 | a printed comparison compares the values of its sides |
| ExprCorrect.ResolveNot | design/support.js:223-225 | a printed negation negates |
| ExprCorrect.ResolvePrinted | design/support.js:205-294 | every printable tree, printed and resolved, has its meaning, over any host primitives |
| ExprForms.BareCompare | design/support.js:211-222 | a comparison without parentheses is divided at its first operator outside brackets and compares the values of its sides |
| ExprForms.BangBindsFirst | design/support.js:211-225 | a negation binds more tightly than a comparison |
| ExprForms.ChainGroupsRight | design/support.js:211-222 | a chain of comparisons groups to the right |
| ExprForms.NothingBefore | design/support.js:248-262 | an operator with nothing before it is none, so the expression is undefined or negates something undefined |
| ExprForms.ResolveTrims | design/support.js:205-207 | whitespace around an expression changes nothing |
| ExprForms.BlankIsUndefined | design/support.js:205-207 | whitespace alone is undefined |
| ExprForms.MalformedIsUndefined | design/support.js:263-294 | a path that something malformed follows is undefined |
| ExprForms.NumberExactly | design/support.js:204-204 | a number is an optional minus, digits, and optionally a point and more digits |
| ExprForms.IdentifierIsLongest | design/support.js:203-203 | an identifier is the longest run of letters, digits, `_` and `$` that does not start with a digit |
| Css.StripIdempotent | design/support.js:1511-1541 | stripping comments twice is stripping them once, on every string |
| Css.StripFixed | design/support.js:1511-1541 | a style is unchanged by stripping exactly when it holds no comment |
| Css.JoinUndone | design/support.js:1542-1566 | joining top-level pieces with semicolons brings in no comment and splits back into the same pieces |
| Css.DeclarationsMarked | design/support.js:1542-1566 | the rewritten style's declarations are the original ones, in order, each marked |
| Css.MarkedOnce | design/support.js:1566-1566 | a marked declaration ends in one marker if it had at most one |
| Css.EveryDeclarationMarked | design/support.js:1542-1566 | every declaration of the rewritten style ends in a marker, in one unless the original had several |
| Css.ImportantifyIdempotent | design/support.js:1542-1566 | rewriting twice is rewriting once, on every string |
| StyleTexts.SplitJoined | design/support.js:1542-1566 | joining the pieces of any text with semicolons gives it back: nothing but semicolons is cut out |
| StyleTexts.CutsExactly | design/support.js:1542-1565 | a style is cut exactly at its semicolons outside strings, unquoted urls and parentheses |
| StyleTexts.StringWhole | design/support.js:1511-1565 | a string, escapes included, is copied and kept in one piece whatever it holds |
| StyleTexts.StringUnclosed | design/support.js:1511-1565 | a string that never closes is kept to the end |
| StyleTexts.UrlKeptWhole | design/support.js:1498-1510 | an unquoted url, escapes included, is copied and kept in one piece whatever it holds |
| StyleTexts.QuotedUrlWhole | design/support.js:1498-1565 | a quoted url is a string in parentheses |
| StyleTexts.LongerNameIsNoUrl | design/support.js:1498-1501 | a longer name that ends in `url` opens an ordinary parenthesis |
| StyleTexts.CommentGone | design/support.js:1511-1541 | a comment becomes one space up to its first close, or takes the rest with it |
| StyleTexts.SlashKept | design/support.js:1511-1541 | a slash that no star follows is kept |
| StyleTexts.ParensWhole | design/support.js:1542-1565 | text in parentheses is kept in one piece, semicolons included |
| StyleTexts.OrdinaryWhole | design/support.js:1511-1565 | text without quotes, parens, semicolons and slashes is copied and never cut |
| StyleTexts.NonBlankExactly | design/support.js:1566-1566 | the declarations are the trimmed pieces in order, blank ones left out |
| StyleTexts.MarkedExactly | design/support.js:1566-1566 | a declaration is marked exactly when it ends in `!`, whitespace and the word, in any letter case |
| StyleTexts.TextKept | design/support.js:1542-1566 | every declaration keeps its text and gets the marker exactly if it has none |
| CssScan.UrlWhole | design/support.js:1498-1510 | a whole unquoted url is copied and kept in one piece, semicolons included |
| CssScan.ScanUnquotedUrl | design/support.js:1498-1510 | recognises exactly the unquoted urls and finds their end, unclosed ones at the end of the text |
| CssScan.StripComments | design/support.js:1511-1541 | the look-ahead loop computes what the automaton strips |
| CssScan.SplitDeclarations | design/support.js:1542-1565 | the look-ahead loop computes the automaton's top-level pieces |
| CssScan.ImportantifyStyle | design/support.js:1542-1566 | the whole rewriting as the source runs it |
| DeckKeys.KeysAreSound | design/support.js:493-542 | returned keys are one per kept child and pairwise distinct, even written as strings |
| DeckKeys.KeyedExactly | design/support.js:493-542 | keys are returned exactly for slides and fillers whose slide ids are well formed and never repeated |
| DeckKeys.NumberedInjective | design/support.js:515-521 | a counted whitespace key determines its slide and its number |
| DeckKeys.NextIsGenuine | design/support.js:499-510 | whitespace takes its name from a well-formed slide id or from none |
| DeckKeys.BlankNamesNext | design/support.js:499-521 | whitespace is keyed by the id of the first element after it if that is a slide, by the common name before an auxiliary element or at the end, and numbered from the second on |
| DeckKeys.OthersKeyed | design/support.js:522-541 | a slide is keyed by its id, any other child by its place |
| DeckKeys.CollectNextSlideIds | design/support.js:499-510 | the backward pass finds, for every child, the slide id of the next element |
| DeckKeys.WalkDeckChildren | design/support.js:493-542 | the two passes compute the keys |
| BoardLog.ClampTwice | src/core/board-log.ts:28-32 | a text over 16384 code units keeps the first of them and gets an ellipsis, anything else stays; clamping is idempotent and passes the parser's limit |
| BoardLog.RefusedExactly | src/core/board-log.ts:66-88 | an append is refused exactly for one of twelve faults, and a written line skipped for the first eight |
| BoardLog.AttachmentExactly | src/shared/board-log-attachments.ts:71-79 | an attachment item is well formed exactly within the limits written out |
| BoardLog.ClampReachesOneLength | src/core/board-log.ts:226-231 | an accepted entry is clamped only when exactly one code unit too long |
| BoardLog.ParseLines | src/core/board-log.ts:95-115 | the line loop yields the valid, sanitised entries newest first, capped |
| BoardLog.LogRoundTrip | src/core/board-log.ts:89-115 | a file of loggable entries parses back to exactly those entries |
| BoardLog.JunkSkipped | src/core/board-log.ts:95-115 | a line that is no entry costs only itself |
| BoardLog.InvalidItemsNoted | src/core/board-log.ts:107-111 | an entry with invalid attachment items is read without them and with a note that counts them |
| BoardLog.AcceptedIsLoggable | src/core/board-log.ts:226-231 | what an append writes passes the parser unchanged |
| BoardLog.StepTracks | src/core/board-log.ts:245-270 | append and rotation, failing or not, keep both files consecutive stretches of the accepted entries |
| BoardLog.RunTracks | src/core/board-log.ts:245-270 | so does every run |
| BoardLog.ReadIsNewestSuffix | src/core/board-log.ts:404-427 | a full read is the newest-first suffix held by the two files, and empty while the current file is missing |
| BoardLog.CappedReadIsPrefix | src/core/board-log.ts:404-427 | a capped read is the beginning of the full one, 500 by default |
| BoardLog.ReadAcrossRun | src/core/board-log.ts:413-427 | what a read returns when any appends run between its two file reads |
| BoardLog.RotatedMoves | src/core/board-log.ts:257-270 | the rotated file stays as it was until an append rotates, and then holds only entries at least as new as the current file's first |
| BoardLog.OverlappedReadExactly | src/core/board-log.ts:404-427 | an overlapped read is the full read of its beginning exactly when the rotated file held the same entries at both opens; if no entry was logged twice, when no append in between rotated or there was no rotated file at either open |
| BoardCodec.LawfulCodecExists | src/core/board-log.ts:89-115 | the laws asked of JSON, on entries whose numbers are doubles and whose texts are code units, can be met |
| BoardCodec.OverlappedReadWitness | src/core/board-log.ts:404-427 | a log for which one overlapping append duplicates an entry and two put a newer one behind an older |
| BoardLog.SizeBounded | src/core/board-log.ts:257-270 | while rotations succeed neither file exceeds one mebibyte |
| BoardLog.DropsOnlyWhenFull | src/core/board-log.ts:257-270 | while writes succeed nothing is dropped before more than one mebibyte of newer entries is kept |
| BoardSessions.UsedNeverLive | src/core/board-log.ts:353-359 | a live session's blobs are in no logged entry, so the check against the log never spares one |
| BoardSessions.AppendSound | src/core/board-log.ts:226-255 | an append keeps every reference pointing at a saved blob and its session committed once |
| BoardSessions.SaveSound | src/core/board-log.ts:277-314 | a save keeps sessions disjoint and within the byte limit |
| BoardSessions.SavedExactly | src/core/board-log.ts:277-314 | when an upload is saved, and what that changes |
| BoardSessions.SessionLasts | src/core/board-log.ts:317-325 | a session can be used for exactly ten minutes |
| BoardSessions.RemoveSound | src/core/board-log.ts:347-367 | a rollback, also one that stops half way, takes only unreferenced blobs |
| BoardSessions.RemovedExactly | src/core/board-log.ts:347-367 | when a rollback is taken up; it removes the blobs up to the first that is stuck and reports success exactly if none was |
| BoardSessions.ReapSound | src/core/board-log.ts:327-341 | an expiry takes only unreferenced blobs |
| BoardSessions.ReapedExactly | src/core/board-log.ts:327-341 | the timer takes session and removable blobs exactly when the session has expired and the log can be read |
| BoardSessions.RunSound | src/core/board-log.ts:39-45 | every serialised run keeps the invariant |
| BoardSessions.ReferencesNeverDangle | src/core/board-log.ts:226-367 | in every run each attachment a read returns names a blob that was saved whole and still exists |
| BoardSessions.SessionsStayWithinBounds | src/core/board-log.ts:226-314 | no session commits attachments twice or reserves more than 64 MiB |
| BoardSessions.RemovalReturnsNoRoom | src/core/board-log.ts:347-367 | removing uploads leaves the reservation as it was |
| BoardSessions.TimeOrphans | src/core/board-log.ts:317-341 | as time passes, the blobs of sessions past their expiry whose timer has fired become orphans, and no others |
| BoardSessions.OrphansExactly | src/core/board-log.ts:226-367 | the files each step orphans: a forgotten session's blobs or a cut upload at a save, the unmentioned at a commit, the irremovable or, with the log unreadable, all at an expiry, and no others |
| BoardSessions.RunOrphans | src/core/board-log.ts:226-367 | in every run, with one expiry timer a session and a clock that does not go back, the orphans are exactly those its steps have orphaned |
| BoardSessions.OrphansStay | src/core/board-log.ts:226-367 | an orphan is never removed and never referred to, on any continuation |
| BoardSessions.ReapOrOrphan | src/core/board-log.ts:277-341 | reaping removes all of an expired session's removable blobs; after a save has forgotten the session it removes none |
| BoardLogStore.Store.Admits | src/core/board-log.ts:226-243 | an entry is admitted exactly when it is valid and its attachments are those of a usable session |
| BoardLogStore.Store.WriteLine | src/core/board-log.ts:245-270 | rotates if the line needs it and appends it, as the specification does |
| BoardLogStore.Store.Append | src/core/board-log.ts:226-255 | takes the append step and reports its success |
| BoardLogStore.Store.Rotate | src/core/board-log.ts:257-270 | rotates as the specification does for every outcome of the file calls |
| BoardLogStore.Store.Save | src/core/board-log.ts:277-314 | takes the save step, whether the file is written, cut short or not opened |
| BoardLogStore.Store.CreateAttachmentSession | src/core/board-log.ts:317-325 | opens a session for ten minutes |
| BoardLogStore.Store.ReadDetailed | src/core/board-log.ts:404-427 | fails exactly for a current file that is there and cannot be read; otherwise both readable generations, newest first, capped unless all are asked for |
| BoardLogStore.Store.RemoveFiles | src/core/board-log.ts:353-364 | removes the session's unused blobs one by one up to the first that cannot be removed |
| BoardLogStore.Store.Remove | src/core/board-log.ts:347-367 | the removal loop, stopping at the first file that cannot be removed |
| BoardLogStore.Store.ReapExpiredSession | src/core/board-log.ts:327-341 | the reaping loop, in any order, past files that cannot be removed |
| Continuation.KeyInjective | src/core/agent-continuation.ts:277-278 | no two node and session pairs share a receipt key |
| Continuation.ApplySound | src/core/agent-continuation.ts:269-398 | every step keeps receipt counts, waiters, retries, queue and attempts consistent |
| Continuation.RunSound | src/core/agent-continuation.ts:269-398 | so does every interleaving |
| Continuation.DeletionJustified | src/core/agent-continuation.ts:368-398 | a deletion belongs to an attempt that delivered once and saw its own turn start after its sequence was read |
| Continuation.ResultsAreTruthful | src/core/agent-continuation.ts:368-398 | success means one delivery and an own receipt; a timeout means one delivery and no receipt before the timer |
| Continuation.ResultsHaveCauses | src/core/agent-continuation.ts:368-398 | every result has its cause in the run: success the attempt's own successful deletion, unavailability a failed read or that deletion failing, and so on |
| Continuation.ReadIsStored | src/core/agent-continuation.ts:373-379 | what an attempt read is what the store held for its node then |
| Continuation.ReceiptsAreTurnStarts | src/core/agent-continuation.ts:269-284 | only turn starts of the continued provider with valid identifiers count as receipts |
| Continuation.OtherEventsWakeNothing | src/core/agent-continuation.ts:269-284 | any other event wakes and counts nothing |
| Continuation.WaiterIsWoken | src/core/agent-continuation.ts:269-319 | a waiting attempt is woken by its own turn start and by no other |
| Continuation.EarlyReceiptIsSeen | src/core/agent-continuation.ts:303-306 | a receipt that precedes the waiter is taken when the delivery resolves |
| Continuation.OverlapsDeliverOnce | src/core/agent-continuation.ts:368-398 | overlapping continuations of a node are one attempt, and an attempt delivers at most once |
| ContinuationDeletion.QueueLeadsToLastHeard | src/core/agent-continuation.ts:231-301 | while store updates succeed, the queued updates lead to the session last heard of for each node |
| ContinuationDeletion.QueuedDeletionTakes | src/core/agent-continuation.ts:389-393 | while store updates succeed, what a queued deletion will take is fixed when it is queued |
| ContinuationDeletion.DeletionTakesExactly | src/core/agent-continuation.ts:389-394 | while store updates succeed, a deletion takes another session's packet exactly when the last thing heard of the node before it was queued was that session's event |
| ContinuationDeletion.RunReplayed | src/core/agent-continuation.ts:231-241 | whatever updates fail, they run in the order queued and each stored packet is the one its node's last successful update left |
| ContinuationDeletion.AcknowledgedUntilRemoved | src/core/agent-continuation.ts:285-340 | a packet stays acknowledged through later events until it is removed |
| ContinuationDeletion.DeletionTakes | src/core/agent-continuation.ts:389-394 | whatever updates fail, a deletion takes another session's packet exactly when the last successful of the updates queued before it stored one |
| ContinuationDeletion.OwnPacketDeleted | src/core/agent-continuation.ts:284-300 | while one session is heard of for a node, stored packet and delivered packet are of that session, failing updates included |
| ContinuationDeletion.NewerSessionIsDeleted | src/core/agent-continuation.ts:389-394 | a run in which another session's newer packet is deleted and success reported |
| ContinuationService.AgentContinuationService.ObserveEvent | src/core/agent-continuation.ts:269-301 | counts a turn start, wakes its waiters and queues the packet update |
| ContinuationService.AgentContinuationService.ContinueNode | src/core/agent-continuation.ts:368-372 | shares the attempt in flight or starts one |
| ContinuationService.AgentContinuationService.PacketRead | src/core/agent-continuation.ts:373-379 | captures the packet or ends the attempt |
| ContinuationService.AgentContinuationService.BeginDelivery | src/core/agent-continuation.ts:380-383 | reads the sequence before the delivery starts |
| ContinuationService.AgentContinuationService.DeliveryResolved | src/core/agent-continuation.ts:303-319 | takes a receipt already seen or registers a waiter |
| ContinuationService.AgentContinuationService.WaitTimedOut | src/core/agent-continuation.ts:308-311 | removes the waiter and ends the attempt |
| ContinuationService.AgentContinuationService.EnqueueDelete | src/core/agent-continuation.ts:389-393 | a received attempt queues the deletion of its node's packet |
| ContinuationService.AgentContinuationService.RunNextUpdate | src/core/agent-continuation.ts:231-241 | the store applies queued updates in order, a failed one changing nothing |
| ContinuationService.AgentContinuationService.SettleAttempt | src/core/agent-continuation.ts:394-398 | reports the result and leaves the retry map |
| UnlockGuard.LockoutGrows | src/core/unlock-ladder.ts:189-195 | later waits are never shorter |
| UnlockGuard.LockoutDoubles | src/core/unlock-ladder.ts:189-195 | the first wait is a minute and each later one twice the one before, up to an hour |
| UnlockGuard.FailureStartsWait | src/core/archive-unlock-guard.ts:91-124 | in any run a failure starts the whole wait of its lockouts, counts a new lockout exactly when no wait was running from the fifth on, and the wait runs down with the clock |
| UnlockGuard.SecondWaitIsTwice | src/core/archive-unlock-guard.ts:113-124 | of two lockouts that follow one another in any run, the second waits twice as long, up to an hour |
| UnlockGuard.ClearEndsWait | src/core/archive-unlock-guard.ts:138-141 | a clear ends the wait exactly when the clock has passed the wait's length |
| UnlockGuard.SkippedEqualsServed | src/core/archive-unlock-guard.ts:91-141 | in any run, a wait ended by the ladder and one served leave the same record after the next failure and on every continuation |
| UnlockGuard.EarlyRetryCounts | src/core/archive-unlock-guard.ts:113-141 | failing right after a clear counts as failing once the wait is served, exactly for a clock past the wait's length |
| UnlockGuard.EarlyRetryIsLateRetrySooner | src/core/archive-unlock-guard.ts:91-141 | past the longest wait, retrying early after a clear and retrying late meet equal counters and equal waits on continuations shifted by the difference |
| UnlockGuard.SkippingNeverShortensTheNextWait | src/core/archive-unlock-guard.ts:113-200 | whatever waits were skipped, each failure starts at least the wait it would have started had none been |
| UnlockGuard.CountersNeverFall | src/core/archive-unlock-guard.ts:113-141 | without the right password neither counter falls |
| UnlockGuard.LockedOutExactly | src/core/archive-unlock-guard.ts:113-124 | lockouts are positive exactly from the fifth failure, and at most one per failure from then on |
| UnlockGuard.ClimbsFollowLockouts | src/core/archive-unlock-guard.ts:143-157 | a file never has had more climbs than lockouts, beyond the first |
| UnlockGuard.FreshClimbIsNewLockout | src/core/archive-unlock-guard.ts:143-157 | in any run a step starts a climb afresh only for a later lockout, the present one, and asking or answering brings the climb up to date |
| UnlockGuard.ClimbNeedsWait | src/core/archive-unlock-guard.ts:91-157 | a failure mints a climb only while there is a wait, the right password forgets it, and other files' climbs stay |
| UnlockGuard.FilesAreIndependent | src/core/archive-unlock-guard.ts:84-141 | a file's record follows from the operations on that file alone |
| UnlockGuardService.ArchiveUnlockGuard.State | src/core/archive-unlock-guard.ts:91-109 | the wait left, the failures and whether a ladder is offered, minting a climb only while there is a wait |
| UnlockGuardService.ArchiveUnlockGuard.Failed | src/core/archive-unlock-guard.ts:113-124 | records a failure and the lockout it may start |
| UnlockGuardService.ArchiveUnlockGuard.Succeeded | src/core/archive-unlock-guard.ts:126-130 | forgets the file |
| UnlockGuardService.ArchiveUnlockGuard.LadderOf | src/core/archive-unlock-guard.ts:143-157 | resumes the climb or starts it afresh when the lockout count has moved |
| UnlockGuardService.ArchiveUnlockGuard.IssueChallenge | src/core/archive-unlock-guard.ts:161-171 | offers a question exactly while there is a wait to end and the ladder has one left |
| UnlockGuardService.ArchiveUnlockGuard.VerifyAnswer | src/core/archive-unlock-guard.ts:178-200 | a cleared answer ends the wait, and only if one is running |

## Left out

Status mirror
- Age pruning while building the current document: it removes entries from the live map, which the run invariants exclude; ageing is modelled in the document and on load.
- The last-known ledger, `inboxNodes` activity, context percentages, session names, settings, usage and server blocks: they do not take part in state, feed or edges.
- Titles, details, multi-select marks and message wording: titles are opaque strings, the rest is dropped from cards and edges.
- Publishing the file, locks, debounce timers and exceptions in listeners; the edges sent are kept as a sequence, so a listener that changes an event object is not modelled.
- MirrorService.AgentStatusMirror.SweepStaleWorking: map iteration order is an arbitrary order of the nodes.
- MirrorService.AgentStatusMirror.LoadPersisted: a document that is not well formed and the guard on the last-known ledger are not modelled.
- MirrorRestart.LaterIdsAreNew: stated for counters up to 2^53; the source counts in doubles, and from there on adding one changes nothing, so an id can repeat.

Agent launch
- Intent validation, per-agent argument assembly, executable resolution, the `cmd` wrapper around an encoded script: inputs to the encodings proved here.
- Strings are sequences of Unicode scalar values, so lone surrogates and lengths in UTF-16 code units of ill-formed text are not modelled.

Template scanners
- ExprCorrect.ResolvePrinted: string literals inside a tree hold no brackets, parens, `==` or `!=`; the scanners see such characters as structure, which some positions tolerate. For a literal standing alone the exact condition is `LoneLiteral`.
- JavaScript's truthiness, equality, number parsing and property access are arbitrary functions.
- DOM walking, React rendering, helmet and component handling around the scanners.

Board log
- The remote (SSH) path, watching, the portable archive parser, reading a blob back, and checks of directories and links.
- JSON is any codec whose documents are single lines that parse back. Numbers are the finite doubles, with negative zero read as zero, and texts that may hold any content are code units; event keys outside the known four cannot be expressed.
- BoardLog.Step: a failing append writes nothing; a write that fails half way through a line is not modelled.
- BoardSessions.SaveAttachment: base64 decoding, upload metadata and hashing are one verdict, present or absent size.
- BoardSessions.RunOrphans: the clock does not go back from one operation to the next.
- Sessions do not survive the process; blobs of a process that ended are not tracked.

Agent continuation
- Encryption, key sealing, redaction, packet text and time stamps: a packet is its session and whether it was acknowledged.
- Notifying listeners and the size limit of the packet file: a write may fail for any reason.

Unlock guard
- UnlockGuard.EarlyRetryIsLateRetrySooner: clock readings are at least the longest wait, an hour, as any reading counted from 1970 is.
- The ladder's games, nonces and rolling budget: an answer clears or does not, as the caller says.
- UnlockGuard.NextLockoutMs: the injected base wait of the constructor is the shipped minute.
