# Verified model of rsyslog's core

This project models parts of rsyslog 8.2408 in Dafny and proves what they promise. Each module
holds one concern; functions state what a piece of code means, methods are the code's own loops
and assignments proved against those functions, and lemmas state what holds of every input, run
or interleaving.

- **RainerScript optimizer** (`Expr`, `ExprOptimizer`, `Script`, `ScriptOptimizer`, `DiscardAction`,
  `StmtChain`, with `PriMask`, `StringArrays`, `SyslogNames`, `Numbers`): the evaluator and the statement
  executor give scripts a meaning; the optimizer is proved to keep it. A PRI is the facility and
  severity code of section 6.2.1 of RFC 5424; a PRI mask has one byte per facility and one bit per
  severity.
- **Action engine** (`ActionStates`, `ActionLaws`, `ActionEngine`, `CommitRuns`, `CommitLaws`, `CommitEnds`,
  `ReplyLaws`, `BatchCommit`, `ActionGates`, `MarkCas`): the per-worker state machine with retry, suspension
  and batch commit, over every sequence of plugin return codes. `ActionStates` and `CommitRuns` give it as
  functions, the modules named ...Laws and `CommitEnds` what holds over whole calls and runs, `ActionEngine`
  and `BatchCommit` the code that changes the fields in place, proved equal to the functions. Then the gates in front of an action, and
  the compare-and-swap loop of mark messages under every interleaving.
- **DNS cache** (`DnsCache`, `DnsProtocol`): lookups as a state machine over the read/write lock, the
  table and the reference counts, under every interleaving.
- **Calendar and timestamps** (`Calendar`, `IsoWeek`, `TimeScan`, `Timestamp3339`, `Timestamp3164`).
- **Selectors** (`PriSelector`, `SelectorLists`): the traditional PRI filter syntax.
- **Texts** (`Replace`, `Template`, `PropFilter`, `Texts`, `Options`): the `replace()` writer, template rendering with
  escaping, property filters.

Where a promise does not hold of the code as written, the code is modelled as it is and a lemma
states exactly when the promise holds; lemmas named ...Example show single cases where it fails:

- A severity or facility literal is cut to an int before it becomes a mask. This changes `==` and
  `<>` exactly if the cut literal is a code that messages have and the literal itself is not
  (`SeverityLiteral`, `FacilityLiteral`); order comparisons are cut the same way when evaluated, so they
  never change.
- The facility of messages with an invalid PRI has no number; its text is "invld". A numeric test of
  it is kept exactly as `InvalidFacilityLiteral` says for each of the six operators: with literals
  from 0 to 24, whose texts compare below "invld", exactly if the literal is not 24 or the operator is
  `<` or `>=`.
- A facility or severity name is kept, its value with `==` and its truth with `<>`, exactly if it is the
  text the message itself reports for the code or a name that no message has (`FacilityName`,
  `SeverityName`); "security", "warn" and "error" are not. An array on the left of `==` or `<>`
  becomes a membership test, which keeps the test exactly if membership and equality with the first
  element agree (`ArrayOnLeft`). An array below a unary minus is searched unsorted; what is in it is
  found if it was written in order (`OrderedArraysFound`, `UnorderedExample`).
- The executor does not look at the return code of an action. Every script is optimized before it is
  run (runtime/rsconf.c, line 1502), which turns discard actions into STOP. This concerns scripts that
  are not optimized: such a script behaves as meant for a message exactly if its meant run comes to no
  discard action (`DiscardExact`), and for all messages exactly if its discard actions are out of
  reach (`DiscardAlways`).
- The retry loop of `actionCommit` need not end. It goes round for ever without asking the plugin exactly
  where an action without a commit call comes to the failed state (`EndlessExactly`). A failed action
  with a commit call is tried again, settling nothing, for exactly as long as the plugin answers
  neither OK nor suspended, under every retry limit (`RejectedExactly`). So a commit ends with every
  plugin exactly if there is nothing to commit (`CommitAlwaysEnds`).
- An attempt that is OK does not mean that the plugin took the messages: the engine also goes on after
  a message or commit call answered "disable me", and after a begin answered with a code meant for
  messages. The plugin took them exactly if neither happened (`MessageTaken`, `TryCommitTaken`); otherwise
  a message can be lost without a trace (`LostExample`).
- Suspension times grow with the retry number exactly if the configured interval is not negative
  (`DurationMonotone`).
- The error file pairs messages with their own parameters exactly if the batch has one message or
  the action has one template (`ErrorFileRecords`).
- `getWeekdayNbr` is right up to February 2100 and wrong from March 2100 on (`WeekdayExact`); its
  comment says it fails in the year 2100. `getOrdinal` counts from 0, where its comment says 1 to 366,
  and is exact as `OrdinalExact` states; the ISO week of timestamps without a '+' offset is wrong only
  in the last second of days of years that start on a Friday (`IsoWeekExact`).
- The comment of `ParseTIMESTAMP3164` says the length drops by the characters processed; with a year
  in front it drops by one less (`Timestamp3164.ParseTimestamp`).
- A JSON value is left as it is exactly if it is not empty and consists of quotes and backslashes
  only (`ValueIsEscaped`).
- A time is read back from its RFC 3339 text exactly if its fields are in the ranges of the parser, with
  a year below 2100, and its fraction has at most six digits, as many as its precision says
  (`RoundTripExact`).
- Separators behind the last selector make the selector decoder read behind the end of the line
  (`TrailingSeparator`).
- The parse position of a quoted value leaves the text exactly if no quote without an odd number of
  backslashes before it follows the opening one, and an odd number of backslashes ends the text or
  the byte behind it is a quote (`PositionExact`).
- Keys of families other than IPv4 and IPv6 never compare equal: after n lookups of such an address
  the cache has n entries for it (`OtherFamiliesPileUp`). An entry whose insert into the table fails
  stays in memory out of its reach, and no other entry is ever there (`LeaksAreFailedInserts`).

I/O, clocks, the network and code outside these files are parameters: plugin replies and clock
readings are sequences, string comparison and script functions are a `Library`, property filter
tests and called rulesets an `Env`, name resolution results an input of the protocol step.
The plugin's answers are a finite sequence: a run that has used them up is waiting for more, and one
that is over does the same with every plugin that begins with these answers (`CommitLater`).

## Model

| member | source | states |
|---|---|---|
| Numbers.ConvertText | rsyslog/grammar/rainerscript.c:1392-1423 | The digit loop yields the sign and value of the leading decimal digits, wrapped to 64 bits, and reports success exactly if the whole text was used |
| Numbers.DecimalRoundTrip | rsyslog/grammar/rainerscript.c:1452-1476 | For every 64 bit number, converting its printed text back gives the number with success |
| PriMask.PrifiltInvert | rsyslog/grammar/rainerscript.c:342-349 | In place, every byte of the mask becomes its complement |
| PriMask.InvertedMatches | rsyslog/grammar/rainerscript.c:342-349 | The inverted mask matches a message exactly if the mask does not |
| PriMask.PrifiltSetSeverity | rsyslog/grammar/rainerscript.c:355-377 | The array ends up as the mask of that severity comparison, for equality tests also with priorities that are no severities |
| PriMask.SeverityMaskCompares | rsyslog/grammar/rainerscript.c:355-377 | Each bit (f, s) of the severity mask is set exactly if s compares with the given severity, for all six operators |
| PriMask.PrifiltSetFacility | rsyslog/grammar/rainerscript.c:384-416 | The array ends up as the mask of that facility comparison |
| PriMask.FacilityMaskCompares | rsyslog/grammar/rainerscript.c:384-416 | Each bit (f, s) of the facility mask is set exactly if f compares with the given facility |
| PriMask.PrifiltCombine | rsyslog/grammar/rainerscript.c:421-433 | In place, the first mask becomes the bytewise and/or of both |
| PriMask.CombinedMatches | rsyslog/grammar/rainerscript.c:421-433 | The combined mask matches exactly if both (and) or one (or) of the masks match |
| PriMask.CheckAlways | rsyslog/grammar/rainerscript.c:5078-5084 | The loop finds out whether every byte is 0xff |
| PriMask.AlwaysMatches | rsyslog/grammar/rainerscript.c:5078-5084 | All bytes are 0xff exactly if every facility and severity matches |
| PriMask.MasksEqual | rsyslog/grammar/rainerscript.c:2502-2518 | A mask is determined by the (facility, severity) pairs it matches |
| StringArrays.SortedIsOrdered | rsyslog/grammar/rainerscript.c:4854-4859 | Sorting leaves the array ordered, for every comparison that is a total order |
| StringArrays.OrderedIsUnique | rsyslog/grammar/rainerscript.c:488-492 | Two ordered arrays with the same elements are equal, so any sorting algorithm gives this result |
| StringArrays.Bsearch | rsyslog/grammar/rainerscript.c:2985-3018 | The bisection loop returns what the recursive search over the same halves returns |
| StringArrays.SearchFinds | rsyslog/grammar/rainerscript.c:2985-3018 | Bisection of an ordered range finds a key exactly if it is in the range |
| StringArrays.SearchAfterSort | rsyslog/grammar/rainerscript.c:2985-3018 | After sorting, bisection succeeds exactly for the members of the original array |
| SyslogNames.Lookup | rsyslog/runtime/srutils.c:598-605 | A name gets the code of a table entry with that name, or -1 exactly if there is none |
| SyslogNames.FacilityTextInjective | rsyslog/runtime/msg.c:380-402 | Different facilities of a message have different texts |
| SyslogNames.MarkIsNoFacility | rsyslog/runtime/srutils.c:579-606 | A name that decodes to the mark facility is the text of no message |
| SyslogNames.NoSuchSeverity | rsyslog/runtime/srutils.c:579-606 | A name that decodes to none or all severities is the text of no message |
| ExprOptimizer.OptimizeKeepsValue | rsyslog/grammar/rainerscript.c:4863-4968 | For every safe expression and message the optimized expression, with arrays searched by bisection, has the value of the original |
| ExprOptimizer.OptimizeKeepsTruth | rsyslog/grammar/rainerscript.c:4863-4968 | In conditions the truth is kept, also where <> compares texts and yields 0 or 1 instead of a comparison result |
| ExprOptimizer.MaskMeaning | rsyslog/grammar/rainerscript.c:4720-4848 | Whenever an expression becomes a mask, its bit for a message is set exactly if the original expression holds |
| ExprOptimizer.OptimizeTwice | rsyslog/grammar/rainerscript.c:5150-5207 | Optimizing an optimized expression changes nothing; the statement optimizer visits statements twice |
| ExprOptimizer.SafeStaysSafe | rsyslog/grammar/rainerscript.c:5150-5207 | An optimized expression is again one the optimizer is safe on |
| ExprOptimizer.FoldCodeKeepsValue | rsyslog/grammar/rainerscript.c:4720-4759 | A severity or facility comparison with a number and its mask have the same value for every message |
| ExprOptimizer.NameTestKeepsValue | rsyslog/grammar/rainerscript.c:4765-4809 | A facility or severity name test and its mask agree, as value for == and as truth for <> |
| ExprOptimizer.ArrayTestKeepsValue | rsyslog/grammar/rainerscript.c:4854-4859 | Sorting the array of a == or <> test and searching it by bisection gives the membership test of the original array |
| ExprOptimizer.EqualityKeepsValue | rsyslog/grammar/rainerscript.c:4914-4938 | The whole rewriting of == and <> keeps the value of the comparison |
| ExprOptimizer.OrderKept | rsyslog/grammar/rainerscript.c:4939-4946 | The rewriting of <, <=, > and >= keeps the value of the comparison |
| ExprOptimizer.ArithKept | rsyslog/grammar/rainerscript.c:4627-4663 | Folded arithmetic on literals has the evaluated value, with division and modulo by zero 0 |
| ExprOptimizer.ConcatKept | rsyslog/grammar/rainerscript.c:4667-4714 | Folded concatenation of texts and numbers has the evaluated value |
| ExprOptimizer.LogicKept | rsyslog/grammar/rainerscript.c:4829-4848 | Combining two masks for and/or has the value of the logic operator |
| ExprOptimizer.NotKept | rsyslog/grammar/rainerscript.c:4811-4827 | Inverting a mask has the value of not |
| ExprOptimizer.SeverityLiteral | rsyslog/grammar/rainerscript.c:4720-4759 | The severity comparison with a literal is kept for all messages if and only if an equality test does not cut the literal onto a severity |
| ExprOptimizer.SeverityLiteralExample | rsyslog/grammar/rainerscript.c:4720-4759 | The literal 4294967299 is false when evaluated and true of severity 3 when optimized |
| ExprOptimizer.FacilityLiteral | rsyslog/grammar/rainerscript.c:4720-4759 | The facility comparison with a literal is kept for all messages that have a facility if and only if an equality test does not cut the literal onto a facility |
| ExprOptimizer.InvalidFacilityLiteral | rsyslog/grammar/rainerscript.c:4720-4759 | For messages of the invalid facility and each of the six operators: the exact condition on the literal under which truth, and value, of the test are kept |
| ExprOptimizer.FacilityName | rsyslog/grammar/rainerscript.c:4765-4809 | Tests of a facility name with == and <> are kept for all messages if and only if the name is the text of the code it decodes to, or of no message |
| ExprOptimizer.FacilityNameExample | rsyslog/grammar/rainerscript.c:4765-4809 | "security" names facility 4 but is not its text: false when evaluated, true when optimized |
| ExprOptimizer.SeverityName | rsyslog/grammar/rainerscript.c:4765-4809 | The same for severity names |
| ExprOptimizer.SeverityNameExample | rsyslog/grammar/rainerscript.c:4765-4809 | "warn" names severity 4, whose text is "warning": false when evaluated, true when optimized |
| ExprOptimizer.ArrayOnLeft | rsyslog/grammar/rainerscript.c:4918-4928 | With the array on the left the optimized test is membership, the evaluated one compares the first element: == and <> are kept if and only if the two agree |
| ExprOptimizer.OrderedArraysFound | rsyslog/grammar/rainerscript.c:3107-3245 | An expression whose arrays are in order has the same value however arrays are searched |
| ExprOptimizer.UnorderedExample | rsyslog/grammar/rainerscript.c:4863-4968 | Below a unary minus the first text of an array out of order is not found |
| Script.ExecConcat | rsyslog/runtime/ruleset.c:577-636 | Running two lists in a row is running the first and, if it does not stop, the second |
| ScriptOptimizer.OptimizeList | rsyslog/grammar/rainerscript.c:5150-5207 | The optimized script runs the same actions on the same messages with the same stop or continue outcome as the original is meant to, for every message, however arrays are searched and whether or not discard codes are heeded; it is free of NOPs and discard actions and not larger |
| ScriptOptimizer.OptimizeStmt | rsyslog/grammar/rainerscript.c:5154-5204 | Each case of the switch yields statements that run like the statement they replace |
| ScriptOptimizer.OptimizeIf | rsyslog/grammar/rainerscript.c:5009-5054 | Dropping empty IFs and turning PRI conditions into PRI filters keeps every run |
| ScriptOptimizer.OptimizePRIFilt | rsyslog/grammar/rainerscript.c:5069-5108 | Replacing an always-true filter by its then part keeps every run |
| ScriptOptimizer.RemoveNops | rsyslog/grammar/rainerscript.c:4973-4999 | The list without its NOPs, in order |
| ScriptOptimizer.NopsDoNothing | rsyslog/grammar/rainerscript.c:4973-4999 | Leaving NOPs out changes no run |
| ScriptOptimizer.AlwaysIsThen | rsyslog/grammar/rainerscript.c:5078-5105 | An always-true filter runs like its then part in its place |
| ScriptOptimizer.IfIsFilter | rsyslog/grammar/rainerscript.c:5032-5045 | An IF on a PRI test runs like the PRI filter with the same parts |
| ScriptOptimizer.ForeachAlike | rsyslog/grammar/rainerscript.c:5001-5006 | A loop with optimized collection and body runs alike for every list of items |
| ScriptOptimizer.ConditionKept | rsyslog/grammar/rainerscript.c:3882-3890 | The truth of a condition, cut to a signed char as its caller stores it, survives optimization |
| DiscardAction.DiscardExact | rsyslog/runtime/ruleset.c:199-218 | As the executor is written, a script that was not optimized behaves as meant for a message if and only if its meant run comes to no discard action |
| DiscardAction.DiscardAlways | rsyslog/runtime/ruleset.c:199-218 | It does for all messages if and only if its discard actions are out of reach, as they are where there are none |
| DiscardAction.DiscardIgnored | rsyslog/runtime/ruleset.c:199-218 | The two runs are equal if and only if the one that goes on carries out no discard action |
| DiscardAction.DiscardExample | rsyslog/runtime/ruleset.c:199-218 | A discard action followed by another action: meant to stop, executed to run both |
| ScriptOptimizer.ChainNops | rsyslog/grammar/rainerscript.c:4973-4999 | Taking the NOPs out of a chain of nodes takes them out of the list of statements it holds |
| StmtChain.RemoveNops | rsyslog/grammar/rainerscript.c:4973-4999 | On linked nodes: the chain from the new root holds exactly the statements that are no NOPs, in order, in their old nodes |
| StmtChain.Splice | rsyslog/grammar/rainerscript.c:5101-5105 | On linked nodes: copying the first then statement into the filter node and relinking gives the then list followed by the rest |
| StmtChain.FindLast | rsyslog/grammar/rainerscript.c:5101-5102 | The loop ends at the last node of the then list |
| ActionLaws.AttemptKept | rsyslog/action.c:1379-1424 | Over every attempt, for every sequence of replies: counters stay bounded, each suspension lasted its multiple of the interval, the retry number counts suspensions since its last reset, nothing is forgotten, every reply is used for one call in order, and the action is disabled only and always because the plugin said so |
| ActionLaws.DoRetryKept | rsyslog/action.c:855-917 | The same over all retries; suspensions in a row go on being counted unless the plugin resumed |
| ActionLaws.BackoffNeverShrinks | rsyslog/action.c:798-837 | Until the retry number is reset suspensions do not get shorter |
| ActionLaws.DurationFactor | rsyslog/action.c:798-837 | Up to retry number 20 the time is one of the three multiples, capped |
| ActionLaws.DurationMonotone | rsyslog/action.c:798-837 | Times never shrink with the retry number if and only if the interval is not negative |
| ActionLaws.DoRetryExact | rsyslog/action.c:855-917 | For every sequence of replies and limit: exactly the calls up to the first code that ends the retries are made, and the action ends ready or suspended as that code says |
| ActionLaws.DoRetryBound | rsyslog/action.c:855-917 | With limit n a plugin that says OK or suspended is asked at most n + 1 times |
| ActionLaws.SuspensionLasts | rsyslog/action.c:1027-1065 | A suspended action is left alone, however often it is prepared, until the clock reaches the reading at its suspension plus the time of its retry number; then the plugin is asked to resume |
| ActionLaws.TenResumes | rsyslog/action.c:855-917 | At most ten resumptions in a row that fail again are believed; the next OK is taken for a failure and, without retries, suspends the action |
| ActionLaws.HandledNamesState | rsyslog/action.c:1218-1258 | The new state and counter for each plugin code; the return code names the state |
| ActionLaws.EarlyCommitOnce | rsyslog/action.c:641-674 | An early commit is reported once and its flag reset |
| ActionLaws.MessageTaken | rsyslog/action.c:1316-1330 | Where the engine goes on behind a message the plugin took it if and only if the call that ended it was one for the message and not answered "disable me" |
| ActionLaws.TransactionTaken | rsyslog/action.c:1334-1375 | Where the transaction is OK the plugin took every message of the batch if and only if it passed over none |
| ActionLaws.TryCommitTaken | rsyslog/action.c:1379-1424 | Where the attempt is OK the action is ready, and the plugin took every message if and only if it passed over none; an attempt without a call finds an action without a commit call suspended or failed |
| ActionLaws.DisabledExample | rsyslog/action.c:1218-1258 | A commit call answered "disable me" makes an attempt that is OK |
| ActionLaws.SkippedExample | rsyslog/action.c:1072-1110 | A begin answered "deferred" makes an attempt OK whose second message was given to the plugin at no time |
| ActionLaws.TryCommitSettles | rsyslog/action.c:1379-1424 | An attempt settles each message of its batch exactly once if it is OK and none otherwise |
| ActionLaws.GoodAttempt | rsyslog/action.c:1379-1424 | A plugin that begins, takes everything and ends gets the batch committed, through either interface |
| ActionEngine.Engine.ActionSuspend | rsyslog/action.c:798-837 | In place: suspended until the clock reading plus the time of the retry number |
| ActionEngine.Engine.ActionDoRetry | rsyslog/action.c:855-917 | The loop does what the state machine prescribes for every sequence of replies, keeps bounds and history, and ends ready or suspended |
| ActionEngine.Engine.ActionTryResume | rsyslog/action.c:1027-1065 | Before its time a suspended action is not touched and the plugin not called; from then on the plugin is asked |
| ActionEngine.Engine.ActionPrepare | rsyslog/action.c:1072-1110 | The state after resuming and beginning, with bounds and history kept |
| ActionEngine.Engine.ActionProcessMessage | rsyslog/action.c:1316-1330 | The step of one message; where it goes on, when exactly the plugin took it |
| ActionEngine.Engine.DoTransaction | rsyslog/action.c:1334-1375 | The loop over the messages with its resubmissions; where it is OK, when exactly all were taken |
| ActionEngine.Engine.ActionTryCommit | rsyslog/action.c:1379-1424 | One attempt: it settles its batch once if OK and not at all otherwise |
| CommitLaws.OneByOneSettles | rsyslog/action.c:1520-1545 | In the pass each message is committed, handed to the error file or kept, exactly one of them |
| CommitLaws.LoopSettles | rsyslog/action.c:1617-1644 | The retry loop settles its messages once if its result is OK or suspended and none otherwise |
| CommitLaws.CommitSettles | rsyslog/action.c:1552-1652 | For every sequence of replies: no message is settled twice, all are settled if and only if the result is OK or suspended, otherwise all but the dropped ones |
| CommitEnds.CommitUnfinished | rsyslog/action.c:1552-1652 | A commit that is not done waits for the plugin, or goes round without asking it, its action failed and without a commit call |
| CommitEnds.EndlessExactly | rsyslog/action.c:1617-1644 | The loop goes round for ever without asking the plugin if and only if an action without a commit call comes to the failed state |
| CommitEnds.CommitKeepsAsking | rsyslog/action.c:1617-1644 | Whatever the plugin says a commit is over or goes on asking if and only if there is a commit call or nothing to commit |
| CommitEnds.RejectedExactly | rsyslog/action.c:1617-1644 | From the failed state with a commit call n rounds are made, each with one call and nothing settled, if and only if the next n answers are neither OK nor suspended, under every retry limit |
| CommitEnds.RejectedLoop | rsyslog/action.c:1617-1644 | While all answers reject the loop goes on; the first OK ends it |
| CommitEnds.RejectedExample | rsyslog/action.c:1617-1644 | One message and a commit call: after a rejection the message is tried again |
| CommitEnds.EndAnswer | rsyslog/action.c:1617-1644 | A batch that was taken is given again if and only if the end of the transaction is refused, other than by a failed action or forced end, which give it up |
| CommitEnds.CommitAlwaysEnds | rsyslog/action.c:1552-1652 | Over all plugins that answer for ever: a commit ends with each of them if and only if there is nothing to commit |
| ReplyLaws.CommitLater | rsyslog/action.c:1552-1652 | A commit that is over does the same with every plugin that begins with the answers it used |
| CommitLaws.CommitDelivers | rsyslog/action.c:1552-1652 | If the plugin passed over no message, every message that was not dropped was taken by the plugin or is in the error file |
| CommitLaws.LostExample | rsyslog/action.c:1552-1652 | Otherwise a commit can be OK with a message neither taken nor in the error file, through either interface |
| CommitEnds.RunsForEver | rsyslog/action.c:1617-1644 | For every batch size, replies after which the loop never asks again and never ends |
| CommitEnds.EndlessExample | rsyslog/action.c:1617-1644 | Two messages, the second rejected: the first is tried for ever |
| BatchCommit.TryRemoveHardErrors | rsyslog/action.c:1520-1545 | The pass over the batch; kept parameter blocks are unchanged and in order |
| BatchCommit.CommitRetries | rsyslog/action.c:1617-1644 | The loop for what is still suspended: its result, what it settled and when it is unfinished |
| BatchCommit.TxWorker.Commit | rsyslog/action.c:1552-1652 | For every sequence of replies the run of the state machine on the stored batch: each message settled exactly once except those dropped, none twice, unfinished only while waiting or where the action has failed without a commit call |
| BatchCommit.CopyBlock | rsyslog/action.c:1520-1545 | A parameter block is copied, nothing else changes |
| BatchCommit.ErrorFileRecords | rsyslog/action.c:1468-1479 | Error file records are the blocks of their messages for all parameters if and only if there is at most one message or template |
| ActionGates.ActionGate.GetActNow | rsyslog/action.c:262-275 | The clock is read once per call; a last execution in the future is forgotten |
| ActionGates.ActionGate.WriteToAction | rsyslog/action.c:1891-1951 | One call counts, resets, passes and executes as the n-th, timeout and once-only settings say |
| ActionGates.ActionGate.SubmitComplex | rsyslog/action.c:1960-1987 | The same with mark messages dropped too close to the last write |
| ActionGates.EveryNthPasses | rsyslog/action.c:1891-1951 | Over every run without timeout exactly k / n of the first k calls that are no dropped marks pass |
| ActionGates.DropsBeforePass | rsyslog/action.c:1891-1951 | With or without timeout a call passes only after n - 1 that got to the gate and were dropped there |
| ActionGates.ExecutionsApart | rsyslog/action.c:1891-1951 | With a clock that never goes back two executions are at least the interval apart |
| ActionGates.MarkAfterQuiet | rsyslog/action.c:1960-1987 | A mark gets to the gate if and only if the last message written is at least half a mark interval old |
| ActionGates.ClockBackExample | rsyslog/action.c:262-275 | With a clock that goes back they need not be |
| ActionGates.ExecState.Submit | rsyslog/action.c:1842-1881 | A conditional action runs exactly if the previous one was suspended, and sets the flag for the next |
| ActionGates.ExecState.FailoverChain | rsyslog/action.c:1842-1881 | For chains of any length exactly the actions up to the first that is neither suspended nor failed are executed |
| MarkCas.Submit | rsyslog/action.c:2040-2074 | One submitter: a mark is written only over a value half an interval older, dropped only if too close |
| MarkCas.RunKeepsInv | rsyslog/action.c:2040-2074 | Every interleaving of submitters keeps the invariant on reads, writes and drops |
| MarkCas.MarksAreSpaced | rsyslog/action.c:2040-2074 | Under every interleaving a mark that replaces the time comes at least half an interval after the value it replaces, and a dropped mark never writes |
| MarkCas.FailedSwapMeansProgress | rsyslog/runtime/atomic.h:120-132 | A swap fails only if another thread has written since the read |
| DnsCache.HashFromKey | rsyslog/runtime/dnscache.c:79-109 | The loop folds the address bytes into a 32 bit hash |
| DnsCache.KeyEqualsMeans | rsyslog/runtime/dnscache.c:112-132 | Keys are equal exactly if they are the same IPv4 or IPv6 address, and then hash alike |
| DnsCache.PropStore.Resolve | rsyslog/runtime/dnscache.c:254-352 | Step by step: outcome, properties created, references added and the entry, on every path of errors, settings and malicious names |
| DnsCache.PropStore.SetLocalHostName | rsyslog/runtime/dnscache.c:208-242 | All three paths take one more reference on the lower case name |
| DnsCache.ResolveOwnership | rsyslog/runtime/dnscache.c:209-352 | On every resolve path the four fields own exactly one reference each on new properties |
| DnsProtocol.Find | rsyslog/runtime/hashtable.c:189-203 | The search returns an entry with an equal key, or none exactly if there is no such key |
| DnsProtocol.WriterIsAlone | rsyslog/runtime/dnscache.c:391-442 | With the write lock held no other lookup holds an entry or is adding one |
| DnsProtocol.ExpireStep | rsyslog/runtime/dnscache.c:406-418 | Removing an expired entry releases exactly its four references and keeps the table consistent |
| DnsProtocol.AddStep | rsyslog/runtime/dnscache.c:355-387 | Adding an entry keeps one entry per key and accounts for its references |
| DnsProtocol.StepKeepsInv | rsyslog/runtime/dnscache.c:355-477 | Every step of every lookup keeps the invariant on lock, table, counts and answers |
| DnsProtocol.RunKeepsInv | rsyslog/runtime/dnscache.c:355-477 | So does every interleaving of any number of lookups |
| DnsProtocol.OneEntryPerAddress | rsyslog/runtime/dnscache.c:391-442 | Under every interleaving the cache has at most one entry per IPv4 or IPv6 address |
| DnsProtocol.AnswersAreRight | rsyslog/runtime/dnscache.c:391-442 | Under every interleaving a lookup settles on an entry for its address, unexpired when it was checked |
| DnsProtocol.HandlesStayAlive | rsyslog/runtime/dnscache.c:451-477 | Under every interleaving a property in a client's hands has a live reference, whatever became of its entry |
| DnsProtocol.FreedWithLastHandle | rsyslog/runtime/dnscache.c:137-149 | Without an entry a property lives exactly as long as clients hold it |
| DnsProtocol.HandsOutRight | rsyslog/runtime/dnscache.c:451-477 | Under every interleaving the property handed out next is a field of an entry for the address asked for |
| DnsProtocol.AddRefOnLiveProperty | rsyslog/runtime/dnscache.c:451-477 | A reference is only ever added to a property that is alive |
| DnsProtocol.OtherFamiliesPileUp | rsyslog/runtime/dnscache.c:112-132 | For an address of another family n lookups in a row leave n entries in the table |
| DnsProtocol.LeaksAreFailedInserts | rsyslog/runtime/dnscache.c:355-387 | Under every interleaving the entries in memory that are not in the table are exactly those whose insert failed |
| Calendar.YearTableEntry | rsyslog/runtime/datetime.c:59-89 | Every entry of the year table is one second before the start of the year after it |
| Calendar.MonthTable | rsyslog/runtime/datetime.c:1094-1142 | The month switch with the leap adjustment is the Gregorian day count |
| Calendar.ToUnixIsGregorian | rsyslog/runtime/datetime.c:1077-1166 | The conversion is the Gregorian day count times 86400 plus time of day, minus an offset ahead of UTC or plus one behind, for all years 1970 to 2100 |
| Calendar.ToUnixGrows | rsyslog/runtime/datetime.c:1077-1166 | With the same offset a later civil time has more seconds |
| Calendar.WeekdayExact | rsyslog/runtime/datetime.c:1186-1208 | The weekday is (days since the epoch + 4) mod 7 if and only if the date is before March 2100 |
| Calendar.WeekdayExample | rsyslog/runtime/datetime.c:1186-1208 | 1 March 2100 is a Monday, the formula says Tuesday |
| Calendar.OrdinalExact | rsyslog/runtime/datetime.c:1213-1245 | The day of the year is right if and only if the seconds left over stay within a day |
| Calendar.OrdinalExample | rsyslog/runtime/datetime.c:1213-1245 | A timestamp two hours ahead of UTC is counted to the day before |
| IsoWeek.WeekTable | rsyslog/runtime/datetime.c:91-104 | The week table counts the Thursdays of each year |
| IsoWeek.IsoWeekIsRight | rsyslog/runtime/datetime.c:1286-1317 | Wherever the day of the year is right, week and week year are those of section 3.2.2 of ISO 8601:2004, up to February 2100 |
| IsoWeek.WeekIsShared | rsyslog/runtime/datetime.c:1286-1317 | Two timestamps get the same pair if and only if they are in the same Monday to Sunday week |
| IsoWeek.IsoWeekExact | rsyslog/runtime/datetime.c:1286-1317 | Without a "+" offset the week is right if and only if it is not the last second of a day of a year that starts on a Friday |
| IsoWeek.IsoWeekExample | rsyslog/runtime/datetime.c:1286-1317 | The last second of 3 January 2021 is given week 1 of 2021 instead of week 53 of 2020 |
| IsoWeek.WeekIsUnique | rsyslog/runtime/datetime.c:1286-1317 | Each day has one ISO week |
| TimeScan.ParseInt32 | rsyslog/runtime/datetime.c:282-295 | The loop reads the number at the position, with its overflow guard, and moves position and length alike |
| TimeScan.ReadPrinted | rsyslog/runtime/datetime.c:308-446 | Any layout of fields and marks reads back what it prints |
| TimeScan.PutFraction | rsyslog/runtime/datetime.c:991-1001 | The loop over powers of ten writes a character for each, with the conversions to short and byte |
| TimeScan.FractionDigitsPrinted | rsyslog/runtime/datetime.c:991-1001 | A fraction that fits is written with its digits and leading zeros |
| Timestamp3339.ParseTimestamp | rsyslog/runtime/datetime.c:308-446 | For every text: the result is the timestamp standing there, success advances the position by exactly the drop in length, failure changes nothing |
| Timestamp3339.ParseDate | rsyslog/runtime/datetime.c:333-358 | Accepts exactly a year below 2100, a month 1 to 12 and a day 1 to 31 with their marks, and hands on the rest of the text |
| Timestamp3339.ParseZone | rsyslog/runtime/datetime.c:389-418 | Accepts exactly Z or a signed offset of up to 23:59, with the fields read and the position behind it |
| Timestamp3339.FormatTimestamp | rsyslog/runtime/datetime.c:951-1017 | The buffer holds the text of the timestamp, its length is returned, within 33 bytes, for every fraction and every year |
| Timestamp3339.RoundTrip | rsyslog/runtime/datetime.c:308-446 | For every timestamp in range, parsing its text gives back all fields and consumes the text and at most one space (section 5.6 of RFC 3339, section 6.2.3 of RFC 5424) |
| Timestamp3339.RoundTripExact | rsyslog/runtime/datetime.c:991-1001 | For every time that is printed: all fields come back if and only if they are in the ranges of the parser and the fraction has at most six digits, as many as its precision says |
| Timestamp3339.FractionExample | rsyslog/runtime/datetime.c:991-1001 | A fraction of nine digits does not come back |
| Timestamp3339.YearExample | rsyslog/runtime/datetime.c:333-358 | The year 2100 does not come back either |
| Timestamp3339.ReadIsCanonical | rsyslog/runtime/datetime.c:308-446 | Every time that is read with up to six fraction digits can be printed and read again |
| Timestamp3164.ParseMonth | rsyslog/runtime/datetime.c:547-667 | The switch over letters finds the month spelled there in any case |
| Timestamp3164.ParseTimestamp | rsyslog/runtime/datetime.c:481-817 | For every text and option: the result is the timestamp standing there, failure changes nothing, and success advances the position by the drop in length plus one exactly if a year stands in front |
| Timestamp3164.ParseClock | rsyslog/runtime/datetime.c:693-725 | A time in range, with a year 1971 to 2099 in front of it taken as year if there was none before |
| Timestamp3164.ParseYearAfter | rsyslog/runtime/datetime.c:761-776 | A year 2000 to 2099 behind the time where it is looked for |
| Timestamp3164.ParseZoneName | rsyslog/runtime/datetime.c:740-760 | A zone name of up to 15 characters is looked up |
| Timestamp3164.FormatTimestamp | rsyslog/runtime/datetime.c:1030-1055 | Fifteen characters in either day style and the terminator |
| Timestamp3164.ReadBack | rsyslog/runtime/datetime.c:481-817 | Both day styles parse back to month, day and time, other fields keep their value, and the text behind is looked through for the extensions switched on (section 4.1.2 of RFC 3164) |
| Timestamp3164.RoundTrip | rsyslog/runtime/datetime.c:481-817 | Without extensions, or without text behind, exactly the timestamp and at most one space are read |
| Timestamp3164.WordBehind | rsyslog/runtime/datetime.c:740-760 | With zone names on, the word behind the time is passed over in any case and sets the offset if and only if the table knows it |
| Timestamp3164.YearBehind | rsyslog/runtime/datetime.c:761-776 | With years on, a year 2000 to 2099 behind the time is read with it |
| PriSelector.DecodePriFilter | rsyslog/runtime/conf.c:356-495 | For every line the scanning loops leave the mask and the outcome it means, also for unknown names and undefined runs |
| PriSelector.ScanFacilities | rsyslog/runtime/conf.c:418-489 | Every facility named is updated in order; the first unknown name ends the scan with the earlier updates in place |
| PriSelector.SetByte | rsyslog/runtime/conf.c:461-485 | The branches and bit loops leave the byte that the level makes of it: all or no bits, one bit, or the bits up to the priority, set or cleared |
| PriSelector.ApplyByteUpdates | rsyslog/runtime/conf.c:461-485 | Each bit afterwards is what the level says about its severity: set, cleared or as before |
| SelectorLists.LevelRead | rsyslog/runtime/conf.c:394-410 | The printed priority of a selector, with its marks, is read as negation, single priority and decoded name |
| SelectorLists.ListMeaning | rsyslog/runtime/conf.c:356-495 | Every printed well-formed list decodes to the left to right fold of its updates of the set of (facility, severity) pairs |
| SelectorLists.PlainForm | rsyslog/runtime/conf.c:356-495 | "f.p" is decoded to the mask that the optimizer makes of the test for facility f and a severity up to p |
| SelectorLists.SingleForm | rsyslog/runtime/conf.c:356-495 | "f.=p" likewise for facility f and severity p |
| SelectorLists.RestForm | rsyslog/runtime/conf.c:356-495 | "f.*;f.!p" likewise for facility f and a severity greater than p |
| SelectorLists.TrailingSeparator | rsyslog/runtime/conf.c:388-392 | With any separators behind its last selector a list of any length has no defined meaning |
| SelectorLists.FacilitiesRead | rsyslog/runtime/conf.c:418-489 | A printed facility list updates exactly its facilities |
| Replace.WriteReplaced | rsyslog/grammar/rainerscript.c:1770-1791 | Although its index moves backwards the pass ends, within the destination, with the leftmost non-overlapping replacement, including an unfinished match at the end |
| Replace.PiecesJoined | rsyslog/grammar/rainerscript.c:1770-1791 | The text between the replaced occurrences joined with the search string is the source, joined with the replacement the result |
| Replace.PiecesLeftmost | rsyslog/grammar/rainerscript.c:1770-1791 | No occurrence starts before the ones that are replaced, and none is left behind the last |
| Template.IParam.ExtendBuf | rsyslog/template.c:126-141 | The new buffer is larger than asked for, by at most 128, and keeps what fits of the old contents |
| Template.IParam.TplToString | rsyslog/template.c:193-278 | For every starting buffer the text is the concatenation of the entry values and its terminator, inside the buffer, independent of old contents |
| Template.IParam.Add | rsyslog/template.c:226-243 | One value is appended with room left for the terminator |
| Template.DoEscape | rsyslog/template.c:408-473 | The value comes back escaped, or unchanged exactly where the first loop finds nothing to do, with its true length |
| Template.EscapeRoundTrip | rsyslog/template.c:408-473 | Escaping is decodable back to the input in every mode and adds exactly one byte per special character |
| Template.ValueIsEscaped | rsyslog/template.c:422-435 | SQL values are always escaped; a JSON value is if and only if it is empty or has an ordinary character |
| Template.JsonExample | rsyslog/template.c:422-435 | Two quotes are not escaped for JSON |
| PropFilter.Parser.SkipAfterChar | rsyslog/parse.c:178-206 | Position behind the character, or at it or the end with the right code |
| PropFilter.Parser.SkipWhitespace | rsyslog/parse.c:214-234 | Position at the first character that is no space |
| PropFilter.Parser.DelimCStr | rsyslog/parse.c:250-295 | The trimmed lower case text up to the delimiter, which is eaten |
| PropFilter.Parser.QuotedCStr | rsyslog/parse.c:312-366 | Value, code and position of a quoted string, whatever stands behind the text |
| PropFilter.TrimTrailing | rsyslog/runtime/stringbuf.c:502-523 | Trailing spaces are dropped |
| PropFilter.PositionExact | rsyslog/parse.c:312-366 | Reading stops behind the first unescaped quote; without one the position leaves the text if and only if an odd number of backslashes ends it or the byte behind it is a quote |
| PropFilter.PositionExample | rsyslog/parse.c:312-366 | Two filter lines for which it does |
| PropFilter.DecodePropFilter | rsyslog/grammar/rainerscript.c:252-340 | The filter the line means, or the error, and where the parser stops |
| PropFilter.RoundTrip | rsyslog/grammar/rainerscript.c:252-340 | A printed filter decodes to its property, negation, operation and value, whatever blanks surround them and text follows, and the parser stops behind the closing quote |

## Left out

- ScriptOptimizer.OptimizeList: works on statement trees as values; the relinking in place is modelled for removeNOPs and the splicing of always-true filters only (StmtChain).
- ExprOptimizer.OptimizeKeepsValue: expressions are trees as values; memory handling of replaced nodes is not modelled, and script functions, regular expressions, lookup tables and JSON are effect-free parameters.
- ExprOptimizer.ArithKept: text operands are folded with the library conversion es_str2num, which is a parameter; the lemma asks that it agrees with str2num on the literal.
- Script.ExecStmt: disabled actions and rulesets with their own queue are not modelled; called rulesets are a parameter.
- StringArrays.SortedIsOrdered: the C library's qsort and bsearch are modelled by insertion and bisection, which any algorithm with the same contract equals.
- ExprOptimizer.FacilityName: numeric names whose code lies behind the mask, where the C code writes outside of it, are not covered.
- PriMask.PrifiltSetSeverity: a shift by more than an int has bits, which C leaves undefined, is taken to set no bit.
- SyslogNames.Lookup: the 80 byte buffer of decodeSyslogName is modelled as a cut to 79 characters.
- ActionEngine.Engine.ActionDoRetry: no shutdown, no external state file and no overflow of the int duration; worker instances exist already.
- BatchCommit.CommitRetries: where the loop of the code goes round for ever the method stops instead and reports that it is not finished.
- ActionGates.ActionGate.WriteToAction: C leaves the order of evaluation open in the once-only test; the model asks for the time first.
- DnsProtocol.RunKeepsInv: the steps are functions on the shared state rather than methods, since all interleavings of them are considered; growth of the hash table, the destructors at shutdown and the shortening of local host names are not modelled.
- Timestamp3339.FormatTimestamp: no field is negative, and the arithmetic on the fraction does not overflow an int; the other formats of timestamps (MySQL, PgSQL, Unix, subseconds) are not modelled.
- PriSelector.DecodePriFilter: name buffers are texts cut to 2047 characters; the line has no terminator inside.
- Replace.WriteReplaced: the pass before it that counts the length is not modelled, since it resumes at another position after a partial match; the search string is not empty.
- Template.IParam.TplToString: jsonf templates, string generators and subtree templates are not modelled, nor is a failing allocation.
- PropFilter.DecodePropFilter: property names are a set of known names.
- Generated parser and lexer tables, the queue engine, configuration handling, error file output, HUP handling, debug and platform wrappers are not part of this model.
- getWeek and formatTimestampUnix are not part of this model.
