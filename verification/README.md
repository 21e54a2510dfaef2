# TizenClaw: a verified model of its stateful and string-processing core

TizenClaw is an agent daemon: it keeps one message history per session, runs rounds of language-model calls and tool
calls over it, and surrounds that loop with bridges, channels, small stores and hand-written printers and parsers. This
project states what those parts keep over every run and every interleaving, and proves it.

Parts that change state in the program are classes whose methods carry the program's loops and branches. Each method's
contract equates the new state with one step of a specification state machine (`Step`, `Run`, `Rounds`, `Process` and so
on). The lemmas then speak about every run of that machine, with the steps of all threads interleaved freely; a step is
one critical section or one call into the environment. Models, tools, clocks, peers and other threads are arbitrary
functions or arbitrary events, never fixed choices.

| module | what it models |
|---|---|
| `History` | messages, the pairing of tool calls with results, the repair before sending, the compaction cut |
| `SessionTable` | the shared session table; trimming and compaction with the lock released in the middle |
| `ProcessPrompt` | the agent loop, run against arbitrary interference: what it sends and how much it stores |
| `SequentialPrompts` | prompts that run one after the other: intact and broken sessions, and what the next prompt sends |
| `ActionBridge`, `ActionStore` | the promise table of the action bridge; its directory of schema files |
| `WorkerHandshake` | the pending-worker shutdown of the dashboard and the webhook channel, both notify variants |
| `Delegations` | the supervisor's delegation tracking by index |
| `A2ATasks` | the lifecycle of agent-to-agent tasks |
| `TelegramPolling` | update offset, handler limit and backoff |
| `BridgeRateLimit`, `LogRotation` | the pruned rate limiter and the rotating log, each against the full history |
| `McpFraming`, `McpSharedClient`, `McpToolNames` | newline framing and request matching, for one caller and for several at once; tool-name printing, parsing and routing |
| `ClientJson`, `ShellQuoting` | JSON escape, extraction and the daemon's frames; shell quoting |
| `Strings`, `Sequences`, `Options` | shared helpers |

## What turned out differently from what the code's comments say

The model follows the code. Where a promise is false, a lemma gives a failing input and another one says exactly when
the promise holds.

- The repair before sending (`SessionStore::SanitizeHistory`) removes results that name no call. It does not supply
  results for a call that misses some, so "prevents HTTP 400" holds only for the histories described by
  `History.SanitizeClosedIff`; `History.MismatchStaysOpen` is the failing family, and
  `SequentialPrompts.InterleavedPromptSendsOpen` shows two prompts at once running into it.
- "Never split a pair" in the compaction cut is false when the cap of two kept messages falls inside a group
  (`History.CompactionClosedIff`, `History.WideRoundIsSplit`). The session stays repairable all the same
  (`History.CompactionSound`).
- "Rollback: remove the user message" holds exactly when the user's message stands last at that moment
  (`SequentialPrompts.RollbackTakesPromptIff`): in round 0, unless another thread has appended. In a later round the
  rollback removes a tool result. That leaves an open call if and only if the trim of the round before kept the call
  (`SequentialPrompts.LaterRollbackBreaksIff`); if the trim had split the round, only a stray is lost. After an open call
  the next prompt sends an open history unless its own trim takes the call off
  (`SequentialPrompts.NextPromptClosedIff`; a run: `SequentialPrompts.RollbackRun`).
- A tool that raises leaves a call without results, and the next prompt's first history is then never closed
  (`SequentialPrompts.ToolRaisedBreaksNext`).
- Compaction erases as many messages as it summarised, counted from the current front. A FIFO trim, a clearing or a
  deep rollback by another thread in the meantime makes it erase messages nobody summarised;
  `SessionTable.ErasedIsSummarisedIff` says exactly when.
- When the compaction request throws, the session is never compacted again, and nothing else has that effect
  (`SessionTable.StuckIffThrown`).
- "Wait for all pending worker threads to finish" fails for a request between its check of the running flag and its count
  (`WorkerHandshake.NoWorkerOutlivesStopIff`).
- Overlapping delegations move each other's entries or leak them (`Delegations.MovesOwnEntryIff`, `Delegations.OverlapLeaks`).
- An accepted cancel is overwritten by the sender's next write (`A2ATasks.AcceptedCancelStaysIff`).
- A schema that parses but does not render (a field of another type, say) ends a sync half way, without an answer
  (`ActionStore.SyncAgreesIff`). An install or update event for an action that cannot be read leaves a stale file or
  none, and uninstalling `./y` removes the file of `y` (`ActionStore.EventsKeepAgreementIff`).
- Streamed text reaches the client's callback still escaped, and with a backslash at its end even more than that
  (`ClientJson.ChunkDeliveredIff`); an error reaches it as an empty text (`ClientJson.ErrorDelivered`).
- Tools of one round that share an MCP server can take each other's answers (`McpSharedClient.StolenAnswerIsLost`).
- A blank line in the same read as an answer hides the answer: each useless line costs one more arrival
  (`McpFraming.BufferedAnswerIff`, `McpFraming.BlankLineHidesAnswer`). A leftover buffer breaks the framing after a
  reconnect (`McpFraming.FramingAfterReconnectIff`).
- A rotation limit of zero or less still keeps one backup, and a negative size limit is compared as a huge unsigned number.

## Model

| member | source | states |
|---|---|---|
| History.SanitizeHistory | src/tizenclaw/storage/session_store.cc:546-573 | the two passes (collect call ids, remove results without one) compute the function `Sanitize`, about which the next rows speak |
| History.SanitizeClosedIff | src/tizenclaw/storage/session_store.cc:546-573 | any history is repaired to a closed one if and only if, behind each call, the results that follow at once and carry the id of some call are that call's own, one for one and in order, and no result elsewhere carries such an id |
| History.CompleteSanitizeClosedIff | src/tizenclaw/storage/session_store.cc:546-573 | read on histories whose groups are whole, with strays anywhere: closed if and only if no call has a blank id and no stray carries the id of some call |
| History.SoundSanitizesClosed | src/tizenclaw/core/agent_core.cc:742-744 | when in addition no id occurs twice, the repair always gives a closed history |
| History.MismatchStaysOpen | src/tizenclaw/core/agent_core.cc:742-744 | a call whose surviving results do not answer it, be they too few, too many, foreign or out of order, stays open under the repair, whatever stands before and behind |
| History.OpenCallStaysOpen | src/tizenclaw/core/agent_core.cc:742-744 | in particular a call that misses results stays open, whatever stands before and behind it |
| History.ClosedIffNoStrays | src/tizenclaw/core/agent_core.cc:899-1131 | the two readings of "calls are followed at once by their results" agree: closed means complete without strays |
| History.ClosedAppendIff | src/tizenclaw/core/agent_core.cc:899-1124 | appending a closed piece (a call with all its results, say) neither repairs nor breaks what stands before it |
| History.ClosedSplit | src/tizenclaw/core/agent_core.cc:1882-1888 | a closed history may be cut exactly in front of a message that is not a result; both halves are then closed |
| History.DropOldest | src/tizenclaw/core/agent_core.cc:1910-1913 | losing the oldest message by the FIFO trim turns results of a lost call into strays and keeps all ids behind it in order |
| History.SoundDrop | src/tizenclaw/core/agent_core.cc:1910-1913 | the FIFO trim of any number of messages keeps a session repairable and invents no id |
| History.CompactionCut | src/tizenclaw/core/agent_core.cc:1785-1804 | the nested loops that extend the cut compute the function `Cut`, about which the next rows speak |
| History.CutIsFirstStop | src/tizenclaw/core/agent_core.cc:1785-1804 | the cut is the first place from ten on where it may stop: at the cap, behind a message that is neither call nor result, or in front of a message that is no result once a call has been met; it never goes further |
| History.PlainHistoryCut | src/tizenclaw/core/agent_core.cc:1785-1804 | when the tenth message is neither call nor result exactly ten messages are taken |
| History.CutSplitsIff | src/tizenclaw/core/agent_core.cc:1788-1804 | in a history where each result follows a result or a call, the kept part starts with a result exactly when the cap falls inside a group, and then the cut is at the cap |
| History.CutNeverSplitsPair | src/tizenclaw/core/agent_core.cc:1788-1804 | for any history: below the cap, the kept part starts with a result only if that result already followed neither a call nor a result |
| History.CompactionClosedIff | src/tizenclaw/core/agent_core.cc:1785-1888 | for a closed history of more than 15 messages: the cut lies between 10 and size-2, and what is summarised, as well as the summary followed by the rest, is closed if and only if the cap does not fall inside a group |
| History.WideRoundIsSplit | src/tizenclaw/core/agent_core.cc:1790-1804 | the failing family: nine messages and one round of six or more parallel calls are split |
| History.CompactionSound | src/tizenclaw/core/agent_core.cc:1882-1888 | even a compaction that splits a group keeps the session repairable, with no new ids |
| SessionTable.Sessions.DropFront | src/tizenclaw/core/agent_core.cc:1910-1913 | erasing from the front one by one leaves exactly the newest `limit` messages, other sessions and marks untouched |
| SessionTable.Sessions.StartTrim | src/tizenclaw/core/agent_core.cc:1770-1842 | trimming up to the unlock: either the thread takes the session's mark and a ticket for the cut prefix, or the FIFO trim happens and trimming is over |
| SessionTable.Sessions.CompleteTrim | src/tizenclaw/core/agent_core.cc:1843-1913 | from the second lock on: throw, vanished session, failed summary, too few messages, and replacement, each followed by the FIFO trim |
| SessionTable.Sessions.Append | src/tizenclaw/core/agent_core.cc:906-911 | messages go to the end of this session and nothing else changes |
| SessionTable.Sessions.PopBack | src/tizenclaw/core/agent_core.cc:838-844 | the rollback removes the last message of this session, if there is one, and nothing else |
| SessionTable.Sessions.ClearSession | src/tizenclaw/core/agent_core.cc:1916-1921 | the session is gone; its compaction mark is not touched |
| SessionTable.RunExclusive | src/tizenclaw/core/agent_core.cc:1778-1782 | in every interleaving, each waiting compaction holds its session's mark and no two wait on one session |
| SessionTable.WindowOpens | src/tizenclaw/core/agent_core.cc:1785-1842 | when the lock is released the ticket holds exactly the oldest messages, at least ten and never the last two, and the session is unchanged |
| SessionTable.WindowContents | src/tizenclaw/core/agent_core.cc:1842-1860 | whatever other threads append, roll back and trim meanwhile, the session is its tape (the old messages with appends and rollbacks at the end), less exactly what the trims took from the front |
| SessionTable.CompactionAcrossWindow | src/tizenclaw/core/agent_core.cc:1842-1888 | after any such interleaving the result is the summary followed by everything behind the first `count` messages that were still there; trimmed and erased counts add up |
| SessionTable.NothingDroppedIff | src/tizenclaw/core/agent_core.cc:1910-1913 | nothing is trimmed away in the window if and only if no trim finds more than thirty messages |
| SessionTable.CompactionExact | src/tizenclaw/core/agent_core.cc:1842-1888 | with no such trim and no rollback below the cut, the erased messages are the first `count` of the session as it was, and the old messages no rollback took back and everything added follow in order |
| SessionTable.CompactionFromTrim | src/tizenclaw/core/agent_core.cc:1778-1888 | from the trim that releases the lock to the end, in one statement: the model is sent exactly `h[..c]`, the messages erased are `tape[d..d + c]`, `d` is zero if and only if no trim in between finds more than thirty, and then, without a rollback, exactly the summarised messages give way to the summary and the old rest and all appended messages follow |
| SessionTable.ErasedIsSummarisedIff | src/tizenclaw/core/agent_core.cc:1842-1921 | whatever all other threads do in the window (append, roll back, trim, load, clear, compact other sessions), as long as they bring only new messages: the resuming thread erases the first `count` messages it finds, or none if there are fewer, and on a session of different messages these are the summarised ones if and only if nobody cleared the session, no trim found too many and no rollback reached below the cut |
| SessionTable.TrimInsideWindowLoses | src/tizenclaw/core/agent_core.cc:1910-1913 | the condition is needed: appending beyond thirty and trimming in the window loses every message above thirty |
| SessionTable.ClearInsideWindow | src/tizenclaw/core/agent_core.cc:1862-1921 | an example: clearing and refilling the session in the window makes compaction replace messages nobody summarised |
| SessionTable.ThrowDisablesCompaction | src/tizenclaw/core/agent_core.cc:1850-1855 | after a throw no later run ever opens a compaction window on that session |
| SessionTable.StuckIffThrown | src/tizenclaw/core/agent_core.cc:1843-1858 | over every run, a session is marked with nobody compacting it, so that it is never compacted again, if and only if it was so already or some compaction request of that session threw |
| ProcessPrompt.Agent.Enter | src/tizenclaw/core/agent_core.cc:721-744 | load from disk if absent, push the user message, trim, copy and repair |
| ProcessPrompt.Agent.RunTools | src/tizenclaw/core/agent_core.cc:1084-1124 | one result per call, in order, each with its own call's id and its own tool's name and result; none at all if a tool raises |
| ProcessPrompt.Agent.GiveUpRound | src/tizenclaw/core/agent_core.cc:790-848 | offline answer appended, or last message taken back, against whatever other threads did meanwhile |
| ProcessPrompt.Agent.AnswerRound | src/tizenclaw/core/agent_core.cc:860-896 | final answer appended and the session trimmed |
| ProcessPrompt.Agent.ToolRound | src/tizenclaw/core/agent_core.cc:899-1160 | call appended, results appended, trimmed, idle check; the same group extends the local copy |
| ProcessPrompt.Agent.ProcessPrompt | src/tizenclaw/core/agent_core.cc:721-1175 | the whole loop computes the run `Prompt` for every environment, including the list of histories sent and the number of rounds |
| ProcessPrompt.RoundsSend | src/tizenclaw/core/agent_core.cc:757-1163 | from any round on, every history sent extends the local copy and is closed exactly when that copy is |
| ProcessPrompt.PromptSends | src/tizenclaw/core/agent_core.cc:738-788 | whatever other threads do to the session: each history sent to the model or to a fallback extends the repaired copy and is closed if and only if the session, as it was when copied, is repairable in the sense of `SanitizeClosedIff`; there are at most `max_iter` rounds |
| ProcessPrompt.TriesInOrder | src/tizenclaw/core/agent_core.cc:1985-2062 | the primary model and the fallbacks are asked in order, the first that does not fail answers and nobody behind it is asked; if all fail, all were asked |
| ProcessPrompt.PromptGrows | src/tizenclaw/core/agent_core.cc:899-1124 | whatever other threads do: when a round leads to another, each history of the next round is that of the round before followed by the reply's text and calls and, in order, exactly what each of its tools returned; and exactly the models asked were sent one each |
| ProcessPrompt.RoundReplies | src/tizenclaw/core/agent_core.cc:790-1160 | how a round answers: with the reply's own text, the offline rule's or the idle text, which is also what it stores as the last message |
| ProcessPrompt.PromptLimitReplies | src/tizenclaw/core/agent_core.cc:1165-1174 | a prompt that reaches its limit answers with the text of its last reply, or with the fixed text if that is empty |
| ProcessPrompt.TrimBounded | src/tizenclaw/core/agent_core.cc:1901-1914 | every exit of a trim, in any interleaving, leaves at most 30 messages |
| ProcessPrompt.PromptBounded | src/tizenclaw/core/agent_core.cc:721-1175 | a prompt that runs alone, however it ends and however long the loaded session was, leaves at most 31 messages |
| SequentialPrompts.QuietTrim | src/tizenclaw/core/agent_core.cc:1901-1914 | however a trim goes (nothing to do, FIFO, summary, failed summary, throw), the session is the old one less an explicit number of oldest messages, never one of the last two, with at most a summary in front |
| SequentialPrompts.SummaryStored | src/tizenclaw/core/agent_core.cc:1879-1888 | a summary put in front carries the text the model answered |
| SequentialPrompts.EntryIsRun | src/tizenclaw/core/agent_core.cc:723-740 | entering a prompt is, on the session table, the run: load, append the user's message, trim, resume |
| SequentialPrompts.RoundIsRun | src/tizenclaw/core/agent_core.cc:757-1160 | every undisturbed round is a run of the table's own steps, so what is proved of all runs of the table holds of prompts |
| SequentialPrompts.DropLastSoundIff | src/tizenclaw/core/agent_core.cc:838-844 | taking back the last message keeps a session intact if and only if it is not the last result of a whole group; otherwise the session ends in an open call |
| SequentialPrompts.PromptSoundIff | src/tizenclaw/core/agent_core.cc:721-1175 | a prompt that runs alone on an intact session and meets new call ids sends only closed histories, and leaves the session intact if and only if it neither ended with a tool that raised nor rolled back into a whole group; if not, the session ends in an open call |
| SequentialPrompts.GroupKeptIff | src/tizenclaw/core/agent_core.cc:1126-1131 | a round that leads to another one leaves a tool result at the end, with its whole group if and only if its trim took off no more than what stood before the call |
| SequentialPrompts.RoundStored | src/tizenclaw/core/agent_core.cc:906-1131 | the session then ends with the reply's call and, in order, what each of its tools returned |
| SequentialPrompts.RollbackTakesPromptIff | src/tizenclaw/core/agent_core.cc:838-844 | whatever other threads do and in whatever round, a rollback takes back the last message it finds, which is the user's if and only if that message stands last at that moment |
| SequentialPrompts.RollbackTakesForeign | src/tizenclaw/core/agent_core.cc:838-844 | when another thread appends before the rollback, its last message is taken back instead, even in round 0, and everything before it stays |
| SequentialPrompts.FirstRollbackKeeps | src/tizenclaw/core/agent_core.cc:838-847 | undisturbed, a rollback in round 0 takes back the user's message and never breaks the session |
| SequentialPrompts.LaterRollbackBreaksIff | src/tizenclaw/core/agent_core.cc:838-847 | a rollback in a later round takes back a tool result, and breaks the session if and only if the trim of the round before kept that round's call |
| SequentialPrompts.FirstRoundRollbackIff | src/tizenclaw/core/agent_core.cc:838-847 | a rollback in round 0 restores the session exactly if and only if the trim on entry took nothing off |
| SequentialPrompts.FirstSentClosedIff | src/tizenclaw/core/agent_core.cc:732-788 | from a session that is intact or ends in an open call, the first history a prompt sends is closed if and only if no open call survives the prompt's own trim |
| SequentialPrompts.NextPromptClosedIff | src/tizenclaw/core/agent_core.cc:721-1175 | two prompts, one after the other: the second one's first history is closed if and only if the first did not break the session or the second one's trim takes the open call off |
| SequentialPrompts.ToolRaisedBreaksNext | src/tizenclaw/core/agent_core.cc:906-911 | after a tool that raised, in whatever round and from whatever session, the next prompt's first history is never closed |
| SequentialPrompts.RollbackRun | src/tizenclaw/core/agent_core.cc:757-848 | a complete run of two short prompts in which a rollback makes the second one send an open history |
| SequentialPrompts.InterleavedPromptSendsOpen | src/tizenclaw/core/agent_core.cc:906-911 | when another prompt of the session has stored its call and not yet its results at the moment this one enters, every history this one sends is open, in every round |
| SequentialPrompts.SessionSoundIff | src/tizenclaw/core/agent_core.cc:612-1175 | over any sequence of prompts, with crashes, shutdowns, clearings and reloads of whatever was saved at the program's own saving points (saving may fail or lose oldest messages): the session is intact after each prompt if and only if none of them breaks it, and then what was saved is intact as well and every history ever sent is closed |
| SequentialPrompts.SessionBounded | src/tizenclaw/core/agent_core.cc:721-1175 | at most 31 messages are stored after any such sequence, however its prompts end |
| SequentialPrompts.SavedAnswerFound | src/tizenclaw/core/agent_core.cc:723-872 | after a final answer that could be saved and a crash, the next prompt finds the end of the session, and all of it if it fitted |
| SequentialPrompts.OthersNotSaved | src/tizenclaw/core/agent_core.cc:790-848 | an offline answer and a rollback leave the file as it was |
| SequentialPrompts.RestartFinds | src/tizenclaw/core/agent_core.cc:612-730 | what a prompt finds: after a complete shutdown the session as it was, after a crash what was saved, after a clearing nothing |
| SequentialPrompts.OrderlySessionsExist | src/tizenclaw/core/agent_core.cc:721-897 | the hypotheses of `SessionSoundIff` can be met: from every intact state, any number of prompts whose model answers without calls, with a crash before each |
| ActionBridge.Bridge.Allocate | src/tizenclaw/core/action_bridge.cc:330-337 | refused unless started; otherwise a fresh id |
| ActionBridge.Bridge.InsertPromise | src/tizenclaw/core/action_bridge.cc:339-345 | the promise enters the table |
| ActionBridge.Bridge.EraseUnsent | src/tizenclaw/core/action_bridge.cc:353-376 | a caller that could not send removes its own entry and returns the fixed error |
| ActionBridge.Bridge.EraseExpired | src/tizenclaw/core/action_bridge.cc:378-385 | a caller that timed out removes its own entry and returns the fixed error |
| ActionBridge.Bridge.SendResponse | src/tizenclaw/core/action_bridge.cc:728-736 | the promise is set to exactly this answer and removed if its entry is still there, otherwise nothing happens |
| ActionBridge.Bridge.BeginExecution | src/tizenclaw/core/action_bridge.cc:499-510 | a fresh execution id is routed to this request |
| ActionBridge.Bridge.OnActionResult | src/tizenclaw/core/action_bridge.cc:671-696 | a known execution id yields its request and is forgotten; an unknown one is ignored |
| ActionBridge.Bridge.FailPending | src/tizenclaw/core/action_bridge.cc:149-156 | the loop sets every pending promise to the stop error and empties the table |
| ActionBridge.RunInv | src/tizenclaw/core/action_bridge.cc:330-388 | the invariant of every run, over all interleavings of callers, worker, framework and stop |
| ActionBridge.ReturnsOwn | src/tizenclaw/core/action_bridge.cc:330-388 | in every run no promise is set twice, every promise in the table is unset, and a caller returns a fixed error or a value produced for its own request or for an execution that request started |
| ActionBridge.ResultsTraced | src/tizenclaw/core/action_bridge.cc:330-737 | in every run each value and each returned result comes from an event of that run: the worker's answer to this request or a report for this execution with exactly this text, a stop, or the caller's own failure or timeout |
| ActionBridge.NoStopErrorWithoutStop | src/tizenclaw/core/action_bridge.cc:149-156 | nobody gets the stop error unless the bridge was stopped |
| ActionBridge.JobReachesCaller | src/tizenclaw/core/action_bridge.cc:698-737 | an answer in the worker's hands reaches its waiting caller unchanged |
| ActionBridge.RequestAnswered | src/tizenclaw/core/action_bridge.cc:330-388 | a request of a started bridge, from its fresh id to its result: the caller gets what the worker answered |
| ActionBridge.ExecutionAnswered | src/tizenclaw/core/action_bridge.cc:499-527 | an executed request gets exactly what was reported for its own execution, or why the execution could not start |
| ActionBridge.StoppedRefuses | src/tizenclaw/core/action_bridge.cc:330-335 | a stopped bridge refuses new requests |
| ActionBridge.NoForeignDrop | src/tizenclaw/core/action_bridge.cc:353-385 | an entry leaves the table only with its value set, or by its own caller |
| ActionBridge.Final | src/tizenclaw/core/action_bridge.cc:378-388 | over any continuation, a set value and a returned result never change |
| ActionBridge.StopAnswersWaiting | src/tizenclaw/core/action_bridge.cc:149-156 | after a stop every waiting caller finds a value: the stop error exactly if its promise was pending |
| ActionBridge.StrayReportIgnored | src/tizenclaw/core/action_bridge.cc:677-691 | duplicate reports and reports for unknown executions change nothing |
| ActionBridge.LateAnswerDropped | src/tizenclaw/core/action_bridge.cc:728-736 | an answer after the caller's timeout reaches nobody |
| WorkerHandshake.Channel.Admit | src/tizenclaw/channel/web_dashboard.cc:822-828 | a request is let in exactly when the running flag is set |
| WorkerHandshake.Channel.CountUp | src/tizenclaw/channel/web_dashboard.cc:838-838 | the count grows with the context |
| WorkerHandshake.Channel.CountDown | src/tizenclaw/channel/web_dashboard.cc:2338-2343 | the count shrinks, and the callback owes a notify always, or only if it was the last, by variant |
| WorkerHandshake.Channel.ReadCount | src/tizenclaw/channel/web_dashboard.cc:1025-1030 | `Stop` passes exactly on a count of zero |
| WorkerHandshake.RunInv | src/tizenclaw/channel/web_dashboard.cc:822-914 | in every run of both variants mixed: the count equals the contexts created and not yet answered, and while `Stop` sleeps or is about to sleep at zero some callback owes its notify |
| WorkerHandshake.RequestLifecycle | src/tizenclaw/channel/web_dashboard.cc:822-914 | a request that arrives while the server runs is let in, counted, counted down, owes its notify by variant, and ends with it |
| WorkerHandshake.StopLifecycle | src/tizenclaw/channel/web_dashboard.cc:1018-1030 | the flag goes down and later requests are refused; under the mutex the count decides between passing and sleeping, and a sleeper that wakes looks again |
| WorkerHandshake.OwedNotifyReleasesStop | src/tizenclaw/channel/webhook_channel.cc:259-268 | some notify is owed then, and whichever callback gives its owed notify next makes `Stop` pass |
| WorkerHandshake.NoWorkerOutlivesStopIff | src/tizenclaw/channel/web_dashboard.cc:1018-1030 | once `Stop` passes, no continuation has a live worker if and only if no request sits between its check and its count |
| WorkerHandshake.StopIsFinal | src/tizenclaw/channel/webhook_channel.cc:372-386 | if nothing sits there when the flag is cleared, no worker outlives `Stop` in any continuation |
| Delegations.SupervisorEngine.Track | src/tizenclaw/core/agent_role.cc:398-416 | the entry is pushed, counted, and its index remembered |
| Delegations.SupervisorEngine.Complete | src/tizenclaw/core/agent_role.cc:462-491 | whatever entry stands at the remembered index is updated, counted, put into the bounded history and erased |
| Delegations.CountersInAnyRun | src/tizenclaw/core/agent_role.cc:147-182 | for any overlap: total is active plus moved, history is the last twenty moved in order, successes count exactly the successful moves and never exceed them; so the reported failures include everything still active |
| Delegations.EntriesTell | src/tizenclaw/core/agent_role.cc:398-491 | in any run every entry tells the role and the first hundred characters of the task it was begun with, and each one in the history the session and success of a delegation that finished |
| Delegations.MovesOwnEntryIff | src/tizenclaw/core/agent_role.cc:462-491 | a finishing delegation moves its own entry if and only if no other finished at an index at or below its own since it began |
| Delegations.LeakedForGood | src/tizenclaw/core/agent_role.cc:462-491 | an entry below the index of every running delegation stays active at its place, whatever delegations follow |
| Delegations.OverlapLeaks | src/tizenclaw/core/agent_role.cc:462-491 | two overlapping delegations suffice to leave an entry active in every continuation |
| Delegations.NestedMovesOwn | src/tizenclaw/core/agent_role.cc:425-439 | in well-nested runs, early returns included, each finish moves its own entry, and what is left at the end is exactly the entries of early returns |
| A2ATasks.A2AHandler.Submit | src/tizenclaw/channel/a2a_handler.cc:208-245 | a message without text makes no entry; any other is entered as submitted |
| A2ATasks.A2AHandler.FinishTask | src/tizenclaw/channel/a2a_handler.cc:259-269 | the final write, whatever the status is by then |
| A2ATasks.A2AHandler.TaskGet | src/tizenclaw/channel/a2a_handler.cc:282-301 | what a reader sees tells where the sender stands: an error exactly if nothing was submitted, completion with the sender's own result exactly if the sender has returned it, otherwise the status written last and no artifacts |
| A2ATasks.A2AHandler.TaskCancel | src/tizenclaw/channel/a2a_handler.cc:303-333 | accepted exactly for a known entry in a state that is not terminal; a refusal changes nothing |
| A2ATasks.StatusHistory | src/tizenclaw/channel/a2a_handler.cc:232-280 | in every interleaving the statuses written are: submitted, at most one cancel, working, at most one cancel, completed, as far as the sender got |
| A2ATasks.SenderGetsOn | src/tizenclaw/channel/a2a_handler.cc:232-269 | whatever others do meanwhile, a sender's steps take effect: submitted without artifacts, working, completed with its result; an exception leaves the entry as it is |
| A2ATasks.CompletedForGood | src/tizenclaw/channel/a2a_handler.cc:259-280 | once the sender has returned, every later read reports completion with the same artifacts and every cancel is refused |
| A2ATasks.UntouchedLifecycle | src/tizenclaw/channel/a2a_handler.cc:232-269 | without a cancel: submitted, working, completed, in this order and nothing else |
| A2ATasks.AcceptedCancelStaysIff | src/tizenclaw/channel/a2a_handler.cc:249-328 | in every run and every continuation, an accepted cancel stays visible if and only if the task's sender writes no status any more; its next write, working or completed, undoes the cancel |
| A2ATasks.CancelIsOverwritten | src/tizenclaw/channel/a2a_handler.cc:310-328 | an example: a cancel accepted while the sender works is lost to the final write |
| TelegramPolling.TelegramClient.PollOnce | src/tizenclaw/channel/telegram_client.cc:177-282 | one pass of the loop, including an exception in the middle of a batch, with handlers ending at any moment |
| TelegramPolling.ProcessCatches | src/tizenclaw/channel/telegram_client.cc:230-280 | processing a batch, abandoned anywhere, extends the acknowledged prefix of the stream |
| TelegramPolling.PollingRun | src/tizenclaw/channel/telegram_client.cc:177-282 | any run against an honest server: acknowledged ids are a prefix of the stream, each prompt in it was dispatched or answered as busy exactly once and in order, at most three handlers run, and the backoff is 5 doubled per conflict reply since the last other reply, counted on the replies themselves, capped at 60 |
| TelegramPolling.HandlersAccounted | src/tizenclaw/channel/telegram_client.cc:258-276 | in every run the running handlers are the dispatched ones less those that ended, counted from the events, and never more than three |
| TelegramPolling.BusyIff | src/tizenclaw/channel/telegram_client.cc:258-276 | a prompt is answered as busy if and only if three of the handlers dispatched before it have not ended by then; otherwise it is dispatched |
| TelegramPolling.NoUpdateTwice | src/tizenclaw/channel/telegram_client.cc:230-276 | no update is dispatched or answered as busy twice |
| TelegramPolling.UnreadableBlocks | src/tizenclaw/channel/telegram_client.cc:230-231 | an update whose id cannot be read stops the loop for good: in every later run the offset stays, nothing is acknowledged and no prompt is dispatched or answered |
| TelegramPolling.BatchGetsOnIff | src/tizenclaw/channel/telegram_client.cc:230-280 | a nonempty batch acknowledges something if and only if its first update's id can be read; an exception anywhere behind that id costs no more than the rest of the batch |
| BridgeRateLimit.RateLimiter.Prune | src/tizenclaw/channel/web_dashboard.cc:2185-2191 | only times before the cutoff leave, from the front, and the first left is recent |
| BridgeRateLimit.RateLimiter.CheckBridgeRateLimit | src/tizenclaw/channel/web_dashboard.cc:2172-2201 | a call passes exactly when fewer than ten calls of its application were accepted in the closed last 1000 ms of the full history, of which the object keeps only a tail |
| BridgeRateLimit.ListDecides | src/tizenclaw/channel/web_dashboard.cc:2183-2197 | the length of the pruned list is the count over the full history |
| BridgeRateLimit.AtMostTenPerWindow | src/tizenclaw/channel/web_dashboard.hh:191-196 | no closed window of 1000 ms, wherever it lies, holds more than ten accepted calls of one application |
| BridgeRateLimit.AppsIndependent | src/tizenclaw/channel/web_dashboard.cc:2183-2183 | the calls of one application get the decisions they would get alone |
| LogRotation.FileLogBackend.Rotate | src/common/file_log_backend.cc:73-105 | the countdown of renames moves every file one place up and drops the last, for every limit including zero and negative ones |
| LogRotation.FileLogBackend.WriteLog | src/common/file_log_backend.cc:42-71 | keeps the invariant: the disk is the current file and the newest closed files of all records, without gaps, and no more than the limit |
| LogRotation.RotationMirrors | src/common/file_log_backend.cc:73-105 | a rotation turns the newest closed files into the newest closed files with the current one added |
| LogRotation.DiskIsSuffix | src/common/file_log_backend.cc:42-105 | everything ever logged is the concatenation of the forgotten closed files and of what is on disk, read from the oldest backup to the current file |
| LogRotation.FileLengths | src/common/file_log_backend.cc:50-60 | every file is at most the size limit plus one record long, and every closed one is longer than the limit |
| LogRotation.ObjectDisk | src/common/file_log_backend.cc:42-105 | what an object with its own limits keeps on disk: backups without gaps, at most the limit or one if that is zero or less, which together with the forgotten oldest files are the whole log |
| LogRotation.ObjectLengths | src/common/file_log_backend.cc:50-60 | file lengths against the object's own size limit; with a negative limit no file of less than 2^63 characters is ever closed |
| ActionStore.ExtractBlock | src/tizenclaw/core/action_bridge.cc:306-315 | from a header, a fenced text and the closing fence the text comes back, whatever it contains, if and only if the header mentions no opening fence |
| ActionStore.ExtractContentIff | src/tizenclaw/core/action_bridge.cc:194-315 | the same for the rendered schema file |
| ActionStore.HeaderTells | src/tizenclaw/core/action_bridge.cc:200-212 | the header names the description and the category |
| ActionStore.PrivilegeTold | src/tizenclaw/core/action_bridge.cc:249-258 | the header names every privilege |
| ActionStore.ParamTold | src/tizenclaw/core/action_bridge.cc:214-247 | the header has every parameter's row, with "yes" if the parameter is required and "no" if not |
| ActionStore.Store.WriteActionMd | src/tizenclaw/core/action_bridge.cc:194-275 | exactly the file the action's path denotes is rewritten; a schema that does not render raises before the file is opened, and a path that leads elsewhere writes nothing |
| ActionStore.Store.DoSync | src/tizenclaw/core/action_bridge.cc:538-607 | all current actions written, then every listed file with a stale stem removed, other files kept, and the request answered; a schema that does not render ends the sync on the spot, with nothing more written or removed and no answer |
| ActionStore.Store.LoadCachedActions | src/tizenclaw/core/action_bridge.cc:289-326 | one text per listed file that has a block that parses, each exactly once, none else |
| ActionStore.Store.OnActionEvent | src/tizenclaw/core/action_bridge.cc:611-658 | an uninstall removes the file, an install or update rewrites it if the action could be read and otherwise leaves the directory as it is |
| ActionStore.SyncAgreesIff | src/tizenclaw/core/action_bridge.cc:538-607 | after a sync the stems are exactly the current names and each file holds its action's current contents, whatever was there before, if and only if every name can be a file name and every schema renders |
| ActionStore.SyncAlwaysAgreesIff | src/tizenclaw/core/action_bridge.cc:538-607 | the same for lists that may repeat names: a sync brings every directory into agreement if and only if that holds |
| ActionStore.SyncKeepsOthers | src/tizenclaw/core/action_bridge.cc:581-601 | a sync leaves every file alone that has another extension and is written by no action |
| ActionStore.EventsKeepAgreementIff | src/tizenclaw/core/action_bridge.cc:611-658 | an uninstall keeps the agreement if and only if its path denotes no other action's file; an install or update keeps it if and only if the name can be a file name, the schema renders, and the action could be fetched and parsed or its file held the current content already |
| ActionStore.AgreementLoadsIff | src/tizenclaw/core/action_bridge.cc:289-326 | under agreement each listed file belongs to a live action and yields its current schema text if and only if its header mentions no opening fence and the text parses |
| ActionStore.SyncThenLoad | src/tizenclaw/core/action_bridge.cc:289-607 | after a sync that ran through, whatever was there before, listed files and current actions correspond one to one, and a load yields an action's current schema if and only if its header mentions no opening fence and the text parses |
| McpFraming.McpClient.ParseLine | src/tizenclaw/channel/mcp_client.cc:216-229 | takes exactly the first complete line off the buffer; removed lines and buffer remain the bytes received |
| McpFraming.McpClient.ReadRpcMessage | src/tizenclaw/channel/mcp_client.cc:213-278 | the same over a whole read: the bytes of the polls are accounted for, and every line before the returned message was blank or unparsable |
| McpFraming.McpClient.SendRequestSync | src/tizenclaw/channel/mcp_client.cc:280-317 | an answer has the id of this very request, every message skipped before it has not, and over all calls ids and lines are used in order and at most once, so a late response answers no later request |
| McpFraming.ChunkingIrrelevant | src/tizenclaw/channel/mcp_client.cc:213-278 | two readers of the same bytes, cut differently, take the same lines in the same order |
| McpFraming.FramingAfterReconnectIff | src/tizenclaw/channel/mcp_client.cc:129-153 | after a reconnect the new stream is cut into its own lines if and only if the leftover buffer is empty |
| McpFraming.ReadFindsFirst | src/tizenclaw/channel/mcp_client.cc:231-277 | however the bytes arrive, a read returns the first message among the lines it looks at, and nothing if there is none; how many it looks at depends only on how many lines each poll completes |
| McpFraming.MessageSeenIff | src/tizenclaw/channel/mcp_client.cc:231-277 | the first message among the available lines is returned if and only if its index is below that number |
| McpFraming.BufferedAnswerIff | src/tizenclaw/channel/mcp_client.cc:231-277 | an answer that stands complete in the buffer behind `i` useless lines is returned if and only if at least `i` polls bring something |
| McpFraming.AnswerReturnedIff | src/tizenclaw/channel/mcp_client.cc:280-317 | for the whole wait of a request: an answer that stands complete in the buffer is returned if and only if the useless lines before it are fewer than the remaining polls, or as many with the last one right before it and a last poll that brings something; messages with other ids cost nothing |
| McpFraming.BlankLineHidesAnswer | src/tizenclaw/channel/mcp_client.cc:231-263 | an example: an answer behind a blank line in one read stays in the buffer while the read reports a timeout |
| McpSharedClient.AnsweredIff | src/tizenclaw/channel/mcp_client.cc:280-317 | however the reads of any number of callers interleave, no byte is lost or reordered, ids are the callers' own, and a caller gets an answer if and only if its own read took the line with its id |
| McpSharedClient.CallerBegins | src/tizenclaw/channel/mcp_client.cc:280-291 | a caller that begins waits with an id nobody had before |
| McpSharedClient.CallerTakes | src/tizenclaw/channel/mcp_client.cc:302-314 | the first complete line ends the wait of the caller that reads it if it is that caller's answer and is dropped otherwise; either way it is gone for everybody |
| McpSharedClient.StolenAnswerIsLost | src/tizenclaw/channel/mcp_client.cc:302-314 | an answer that another caller's read took is lost: its own caller is never answered, in any continuation, if the server answers once |
| McpToolNames.FirstDelimiter | src/tizenclaw/channel/mcp_client_manager.cc:217-220 | the first delimiter of a printed name is the printer's own exactly when the server name has no double underscore and does not end in one underscore |
| McpToolNames.ParsePrintIff | src/tizenclaw/channel/mcp_client_manager.cc:212-226 | parsing a printed name gives back server and tool under exactly that condition, for every tool name |
| McpToolNames.PrintInjective | src/tizenclaw/channel/mcp_client_manager.cc:121-121 | under it two declared names never collide |
| McpToolNames.McpClientManager.LoadConfigAndConnect | src/tizenclaw/channel/mcp_client_manager.cc:84-187 | any load keeps the invariant that a loaded configuration has a client of its transport and declares printed names of its own server; unusable entries leave the old configuration |
| McpToolNames.McpClientManager.ExecuteTool | src/tizenclaw/channel/mcp_client_manager.cc:228-274 | the call goes where the configuration says; the "client missing" branches are unreachable |
| McpToolNames.DeclaredRoutedIff | src/tizenclaw/channel/mcp_client_manager.cc:193-274 | each declared tool is routed to its own server, transport and name if and only if the server name is plain, whatever else is configured |
| McpToolNames.LoadedDeclares | src/tizenclaw/channel/mcp_client_manager.cc:84-187 | reading a configuration over whatever was read before keeps every declaration a printed name of its own server |
| McpToolNames.LoadedFromEntry | src/tizenclaw/channel/mcp_client_manager.cc:84-187 | what a load makes of a server, in terms of its last usable entry: loaded if and only if the connection succeeded, over the entry's transport, with one printed name per tool of the server |
| McpToolNames.LoadedKeeps | src/tizenclaw/channel/mcp_client_manager.cc:98-141 | a server without a usable entry keeps what it had |
| McpToolNames.EntryReachedIff | src/tizenclaw/channel/mcp_client_manager.cc:228-274 | for a plain name a tool name reaches that server, over its transport and under the tool's own name, if and only if the connection succeeded; otherwise it counts as not configured |
| McpToolNames.DeclaredReachable | src/tizenclaw/channel/mcp_client_manager.cc:193-274 | so, after any loads, each declared tool reaches the server and tool it came from if and only if the server name is plain |
| ClientJson.JsonEscape | src/libtizenclaw/tizenclaw_client.cc:82-108 | the character loop computes the function `Escaped`, about which the next rows speak |
| ClientJson.DecodeEscapedIff | src/libtizenclaw/tizenclaw_client.cc:82-108 | JSON string decoding of the escaped text gives the text back if and only if it has no control characters but newline, carriage return and tab, and fails otherwise |
| ClientJson.ExtractJsonValue | src/libtizenclaw/tizenclaw_client.cc:167-178 | search and copy loop compute the function `Extracted` |
| ClientJson.NeedleNotInEscaped | src/libtizenclaw/tizenclaw_client.cc:167-169 | the search needle of any key occurs in no escaped text |
| ClientJson.ExtractGuardedIff | src/libtizenclaw/tizenclaw_client.cc:167-178 | any text whose quotes stand behind backslashes is extracted exactly if and only if it does not end in a backslash |
| ClientJson.ExtractIff | src/libtizenclaw/tizenclaw_client.cc:167-178 | the extracted value is exactly the escaped value if and only if the value does not end in a backslash |
| ClientJson.DecodeDumped | src/tizenclaw/core/tizenclaw.cc:579-582 | what the daemon's JSON library prints for a string decodes to that string, for every string |
| ClientJson.DeliverFrame | src/libtizenclaw/tizenclaw_client.cc:244-261 | the client's choice between chunk, last frame and unknown frame, from the two extracted values and the two searches |
| ClientJson.ChunkDeliveredIff | src/libtizenclaw/tizenclaw_client.cc:244-249 | a chunk frame of the daemon is recognised whatever the chunk says; the callback gets the printed chunk if and only if it does not end in a backslash, and the chunk itself if and only if nothing in it needs escaping |
| ClientJson.ResultDeliveredIff | src/libtizenclaw/tizenclaw_client.cc:250-255 | no answer makes its frame look like a chunk; it is delivered as the last one, its text under the same two conditions |
| ClientJson.ErrorDelivered | src/libtizenclaw/tizenclaw_client.cc:250-255 | a frame with an error is delivered as the last one with an empty text, whatever the error says |
| ClientJson.UnknownDelivered | src/libtizenclaw/tizenclaw_client.cc:256-261 | a frame with no mark is handed on whole as the last one |
| ShellQuoting.EscapeShellArg | src/tizenclaw-tool-executor/tool_handler.cc:49-57 | the character loop computes the function `Escaped`, about which the next rows speak |
| ShellQuoting.BodyReads | src/tizenclaw-tool-executor/tool_handler.cc:49-57 | inside quotes the shell reads the quoted body as exactly the original characters, whatever follows |
| ShellQuoting.EscapedReads | src/tizenclaw-tool-executor/tool_handler.cc:49-57 | read unquoted, an escaped argument adds exactly its characters to the current word, breaks no word, triggers nothing, and ends unquoted |
| ShellQuoting.CommandReads | src/tizenclaw-tool-executor/tool_handler.cc:210-224 | the whole command is split into the assignment, the interpreter if any, and the script path |
| ShellQuoting.CommandReadsIff | src/tizenclaw-tool-executor/tool_handler.cc:72-92 | with the command handed over as a C string, that reading results if and only if neither arguments nor script path contain a NUL |
| ShellQuoting.NulInArgs | src/tizenclaw-tool-executor/tool_handler.cc:91-91 | with a NUL in the arguments the opened quote never ends |
| ShellQuoting.NulInScript | src/tizenclaw-tool-executor/tool_handler.cc:91-91 | with a NUL in the script path the opened quote never ends |

## Left out

- WorkerHandshake.OwedNotifyReleasesStop: that the platform eventually runs an owing callback and wakes `Stop` is an assumption, not a result.
- ProcessPrompt.PromptBounded: stated for prompts that run alone; with other threads appending only the bound of 30 after each trim remains (`ProcessPrompt.TrimBounded`).
- McpFraming.McpClient.SendRequestSync: for a caller that has the client to itself (`McpSharedClient` models several). A message is matched by its id alone, as in the code, so a server request that happens to use the same id would be taken for the answer; the peer is assumed to send only responses and notifications.
- McpFraming.McpClient.ReadRpcMessage: time is a bound on the number of polls; interrupted polls and reads that would block, which the code repeats without looking at its buffer, are not separate events, and a closed pipe is a poll that brings nothing and after which no further poll is allowed.
- ClientJson.DecodeEscapedIff: of the four-digit escapes the decoder knows those of characters below 256; neither printer produces others.
- LogRotation.FileLogBackend.WriteLog: renames, removals and opening the file always succeed; record text is given.
- ActionStore.Store.WriteActionMd: whether a schema renders is an input; path components other than `.` and the empty one (`..`, existing subdirectories) are taken to lead nowhere, and files that can be named can be written and removed.
- McpSharedClient.AnsweredIff: taking a line and adding bytes are steps; that the program does them on one unprotected buffer, which is a data race, is not modelled.
- ClientJson.DeliverFrame: the daemon's texts are valid UTF-8, and its frames carry the client's own request id, which is 1.
- Language models, tools, HTTP, sockets, pipes, processes and the GLib and Tizen APIs appear only through their outcomes; a fallback that cannot be created or initialised counts as absent.
- Exceptions other than a raising model or tool (allocation, thread creation, non-standard exceptions thrown by a compaction request, a tool run for an offline rule) are not modelled.
- The reference `TrimHistory` keeps across the unlocked window is modelled as looking the session up again; C++ references into an erased map entry are not.
- Tool policy, safety guard, idle detection and offline rules are inputs of a round; automatic skill generation after an answer, which replaces the returned text only, is left out.
- Promises and futures are values in a table; what each thread has reached is ghost state beside the object.
- Clocks are non-decreasing integers; request ids, execution ids and timestamps do not wrap around.
- JSON parsing and printing by the library is taken as given text; the schema's `dump` is such a text.
- Reading a saved session back is taken to give what was saved; the file format, the migration of older files, token usage logging and the text of the compaction prompt are left out.
- Socket framing of the client library (`RecvExact`, `SendAll`, the frame loop) is left out: byte-counting loops over a socket whose behaviour is an outcome here.
- Idle disconnection of MCP servers, the HTTP transport's own protocol and MCP reconnection inside `ExecuteTool` are left out; routing is modelled.
- Goal decomposition, result aggregation and role configuration of the supervisor are left out; its tracking is modelled. A role prompt that throws leaves its entry behind like an early return.
- Restarting a stopped channel, server-sent events, authentication, signatures and path checks are left out.
- Telegram message handling, the allow list's contents and the stop flag inside a pass are left out.
- Agent-to-agent identifiers are taken as fresh; message parts and timestamps are left out.
