# A verified model of the Telegram agent bot

The bot answers Telegram messages with a language model that may call tools, keeps
each conversation in SQLite, lets users upload documents that it searches, and
serves a small dashboard. This project models the engines behind that in Dafny and
proves what they guarantee over whole runs.

- **Ingest worker** (`IngestProtocol`, `IngestSafety`, `IngestTheorems`, `IngestOutcomes`,
  `IngestWorker`). Two threads share one lock, four capacity tokens, a five-slot
  queue and a job phase machine. Each lock section, `put_nowait`, `get` and
  checkpoint is one atomic step; the theorems hold in every interleaving. The
  worker class performs those steps on its own fields and refines them.
- **Transcript pages** (`Transcript*`). A reader takes whole turns under a row
  cap, a byte admitter may stop earlier or split a turn, and a cursor names the next
  message. The main theorem is about following the cursors through both layers.
- **Chunker** (`Chunker`, `ChunkerTheorems`, `ChunkCeiling`, `ChunkBreaks`,
  `ChunkTail`, `DocumentChunks`). Paragraphs,
  sentence breaks, overlap, ceiling and tail merge, all as offsets into the text.
- **Agent loop** (`AgentMessages`, `ToolLedger`, `Conversation`, `ContextWindow`,
  `AgentLoop`, `AgentOutcome`, `AgentRuns`, `AgentRounds`, `AgentTurn`). Retries,
  rounds, repairs and tool budgets; how every message ends, and what of it is sent and stored;
  the stored transcript; the context window with its stubs and clock; and the
  well-formedness of every request, over any sequence of user messages. The world
  outside (model, tools, shutdown flag, string helpers) is a value with arbitrary
  functions in it.
- **Document store** (`DocumentStore`, `DocumentTables`). Documents, chunks and the
  vector index as tables; every statement may fail; transactions restore.
- **Tool output** (`TextLines`, `Compaction`, `CollapseLength`, `CompactionWindow`,
  `CompactionOutput`, `SearchEnvelope`, `SearchEnvelopeCut`), **secrets** (`Redaction`), **retrieval and attribution**
  (`Fusion`, `Attribution`), **rate limit and polling** (`RateLimit`, `PollCursor`),
  and the **PDF writer** (`PdfContent`, `PdfFile`, `PdfRoundTrip`).

Where the program works in place, a class or a method with loops does the same in
place and is proved equal to a function on values; the theorems are about that
function. `dafny verify dfyconfig.toml` checks everything.

## Where the code and its own prose differ

The model follows the code.

- agent.py:45 and README.md:10-11 speak of nine model calls per message. The attempt
  counter is tested on the failure path only, so the tight bound is 9 plus the calls
  that fail, and 17 in all (`AgentLoop.CallsAreBounded`, `AgentRuns.CallBoundIsTight`).
- agent.py:852-856 counts refused repeats before the budget test, so `tools_used`
  can end at 14 although at most 12 calls run; it counts the executions exactly when
  no call is refused, and passes 12 exactly when one is refused at 12 or above
  (`AgentRuns.CounterIsExact`, `AgentRuns.CounterPassesIff`).
- bot.py:1927-1962 describes `cancel_reason` as written once; a `/cancel` followed by
  `shutdown` writes it twice (`IngestTheorems.ReasonIsOverwritten`); the last writer
  decides what the user is told (`IngestTheorems.AcknowledgedEnding`).
- documents.py:276 adds `start` to positions that are already absolute, so breakpoints
  of later paragraphs are shifted and such paragraphs are cut inside words although a
  sentence end is in reach (`ChunkBreaks.CutsWellIff`, `ChunkBreaks.SentenceCutsIff`).
- dashboard_server.py:183 accepts cursors of at most ten digits although SQLite ids
  may have nineteen; the walk is complete exactly when all rows but the first have
  at most ten (`TranscriptWalk.WalkIsCompleteIff`).
- documents.py:310-318 calls hard_max an absolute ceiling; it is one exactly when
  target + overlap <= hard_max, as for the defaults, or target is 1
  (`ChunkCeiling.CeilingHoldsIff`).
- tools.py:139-158 argues that a search envelope is never cut; duplicate collapse can
  lengthen a text past the limit (`SearchEnvelopeCut.EnvelopeCanBeCut`,
  `SearchEnvelope.WholeIff`). Its digit counts are also those of smaller limits than
  the present 2,000 pages and 2,000,000 characters; the bound with the present ones is
  11,549 instead of 11,538, and is attained (`SearchEnvelopeCut.LongestIsAttained`).
- README.md:1066-1067 says the last error line and its 20 preceding lines survive. In a
  text that is cut, the line does exactly when it lies in the plain head or the lines
  from it to the end fit the budget. With its context it does exactly when it lies in
  the plain head or they all fit too: in the plain tail, which is smaller, when the line
  lies there, else in the budget (`CompactionOutput.ErrorLineSurvivesIff`,
  `CompactionOutput.ContextSurvivesIff`, `CompactionOutput.ContextCanBeLost`). That is
  with no secret fragment at a cut: stripping one can cut a kept line
  (`CompactionOutput.KeptErrorLineCanBeCut`).
- config.py:236-241 removes every registered secret only if none overlaps the
  placeholder (`Redaction.SafeIffNoClash`); with several that do, the order of equally
  long ones decides (`Redaction.OrderDecides`).
- devtools/pdf_fixture.py:28-31 leaves carriage returns alone; a reader takes each for
  a newline (`PdfContent.CarriageReturnIsLost`).

## Model

| member | source | states |
|---|---|---|
| `IngestSafety.ReachableInv` | bot.py:1990-2253 | every state reachable by interleaving the loop thread, the worker thread and the clock satisfies the invariant: job phases, the in-flight table, the token count, the queue contents and the record of endings agree |
| `IngestSafety.StepKeeps` | bot.py:2017-2246 | every single lock section, `put_nowait`, `get` and checkpoint keeps that invariant |
| `IngestTheorems.CancelExcludesCommit` | bot.py:2205-2218 | a job that `cancel` answered True for, or that `shutdown` flagged, never reaches `BEGIN IMMEDIATE` and is never reported stored; a job is reported cancelled only if `cancel` said True, interrupted only if `shutdown` flagged it |
| `IngestTheorems.CancelAnswerIsFinal` | bot.py:2055-2064 | over every continuation of a run, after True the job is never stored, after False it is never cancelled or interrupted |
| `IngestTheorems.QueuedCancelFetchesNothing` | bot.py:2103-2122 | a job cancelled while still queued never causes a Telegram file call |
| `IngestTheorems.NeverIndexesMissingData` | bot.py:2118-2140 | extraction is never started on the missing data of a download that stopped early |
| `IngestTheorems.CancelWinsOverBudget` | bot.py:1965-1984 | at a checkpoint a job that is both cancelled and over its time budget ends as cancelled or interrupted, never as failed |
| `IngestTheorems.CapacityIsExact` | bot.py:2007-2036 | `_tokens` equals the reservations plus the jobs still queued and lies in 0..4; at most five users are in flight; the queue never holds more than five entries |
| `IngestTheorems.QueueNeverOverflows` | bot.py:2028-2101 | `put_nowait` never raises, for a job or for the sentinel; `run_one` only pops its own job's entry; at most one job is past `queued` |
| `IngestTheorems.EndingsInOrder` | bot.py:2068-2101 | jobs end in admission order, each at most once |
| `IngestTheorems.ShutdownDrains` | bot.py:2222-2246 | after `shutdown` the worker loop takes at most 29 more steps, is never stuck before it exits, and then every admitted job has had exactly one ending and no token, entry or queue slot is held |
| `IngestTheorems.ReasonIsOverwritten` | bot.py:1927-1984 | a reachable run in which `/cancel` and then `shutdown` both write `cancel_reason`, and the user is told the job was interrupted |
| `IngestTheorems.ReasonIsExact` | bot.py:2232-2246 | in every reachable state `cancel_reason` is "shutdown" exactly for the jobs `shutdown` flagged and "user" exactly for those only `cancel` said True for, so it keeps its first value exactly when not both wrote it |
| `IngestTheorems.AcknowledgedEnding` | bot.py:1983-1984 | over every run, each ending follows the state its reply was sent in: a job `cancel` said True for is never stored and, unless its processing had failed, is reported interrupted if `shutdown` had flagged it by then and cancelled otherwise |
| `IngestOutcomes.StoredIffCommitted` | bot.py:2110-2203 | over every run, a job ends reported stored exactly when at some step of the run the worker was at its COMMIT and COMMIT came back well |
| `IngestOutcomes.FailedIffBroken` | bot.py:2110-2200 | over every run, a job ends reported failed exactly when a call made for it failed (connecting, a stage, BEGIN or COMMIT), or a checkpoint found its budget spent and the job not cancelled |
| `IngestOutcomes.StoppedIffFlagged` | bot.py:1965-1984 | over every run, a job ends reported cancelled or interrupted exactly when a checkpoint, or the one under the lock before BEGIN, found it flagged |
| `IngestOutcomes.SmoothJobIsStored` | bot.py:2103-2203 | a job nobody cancels or interrupts, whose budget is never spent and whose calls all come back well, ends stored if it ends |
| `IngestOutcomes.SmoothJobsAreStored` | bot.py:2222-2246 | and has ended stored once the worker has drained |
| `IngestOutcomes.StagesInOrder` | bot.py:2110-2140 | whenever the worker does a stage of a job, each earlier stage of that job has come back done in the run, extraction on whole data |
| `IngestOutcomes.StoredWentThroughAll` | documents.py:519-604 | a document reported stored was fetched, downloaded, extracted, chunked and embedded before its COMMIT |
| `IngestOutcomes.AdmittedIff` | bot.py:2017-2026 | in every reachable state a reservation is refused as in flight exactly when its user holds one or has an unended job, and otherwise granted exactly when fewer than four reservations and queued jobs are held |
| `IngestOutcomes.CancelAnsweredIff` | bot.py:2055-2064 | in every reachable state `cancel` finds nothing exactly when its user has no unended job, and answers True for the job it finds exactly when it is not committing |
| `IngestWorkers.IngestWorker.Reserve` | bot.py:2017-2026 | the lock section on the worker's own fields refines the protocol step: refuses a user already in flight or a fifth token, otherwise takes one token and one entry |
| `IngestWorkers.IngestWorker.FileJob` | bot.py:2028-2031 | the lock section on the worker's own fields refines the protocol step: turns the reservation into a queued job, in the first half of `enqueue` |
| `IngestWorkers.IngestWorker.PutNowait` | bot.py:2028-2031 | the lock section on the worker's own fields refines the protocol step: the second half: appends to the queue, or raises when all five slots are taken |
| `IngestWorkers.IngestWorker.Release` | bot.py:2033-2036 | the lock section on the worker's own fields refines the protocol step: gives back exactly the reservation's token and entry |
| `IngestWorkers.IngestWorker.Cancel` | bot.py:2055-2064 | the lock section on the worker's own fields refines the protocol step: answers None, True or False and flags the job exactly when it answers True |
| `IngestWorkers.IngestWorker.Get` | bot.py:2222-2230 | the lock section on the worker's own fields refines the protocol step: removes the head of the queue, remembering the sentinel |
| `IngestWorkers.IngestWorker.StartJob` | bot.py:2068-2101 | the lock section on the worker's own fields refines the protocol step: moves the dequeued job to running and gives its token back |
| `IngestWorkers.IngestWorker.MarkCommitting` | bot.py:2205-2218 | the lock section on the worker's own fields refines the protocol step: moves the job to committing unless it is already cancelled |
| `IngestWorkers.IngestWorker.PopEntry` | bot.py:2068-2101 | the lock section on the worker's own fields refines the protocol step: removes the ended job's entry and no other |
| `IngestWorkers.IngestWorker.ShutdownFlag` | bot.py:2232-2246 | the lock section on the worker's own fields refines the protocol step: flags every in-flight job that is not committing, once |
| `TranscriptWalk.WalkVisitsEverythingOnce` | dashboard_server.py:940-985 | following `next_cursor` from the first page, through reader and byte admission, concatenates to the whole transcript in (turn, id) order, with no empty page and at most one page per message; for any sizes, budgets and limits of 1 or more, when every row but the first has numbers of at most ten digits |
| `TranscriptWalk.LongIdsBreakTheWalk` | dashboard_server.py:183-198 | with a budget that lets one message on a page, the whole walk shows exactly the rows before the first one, other than row 0, with a number of more than ten digits |
| `TranscriptWalk.WalkIsCompleteIff` | dashboard_server.py:183-198 | the walk shows the whole transcript, for all limits, sizes and budgets, exactly when every row but the first has numbers of at most ten digits |
| `TranscriptWalk.WalkVisitsPrefix` | dashboard_server.py:940-985 | for every transcript, limit, sizes and budget the walk shows the rows up to some row, each once and in order, on non-empty pages, and is stopped only by the end of the transcript or by the refused link to that row |
| `TranscriptWalk.LongIdIsRefused` | dashboard_server.py:183-198 | the link to a row with a number of more than ten digits is refused as a bad request |
| `TranscriptWalk.CursorRoundTrip` | dashboard_server.py:183-198 | a cursor text parses back to the cursor exactly when both numbers have at most ten digits, and to nothing otherwise |
| `TranscriptWalk.ReaderEndsBetweenTurns` | storage.py:1353-1452 | a reader page is a non-empty run of rows from the cursor on, ends between turns unless the 2,000-row cap cut it, as early as the limit allows |
| `TranscriptWalk.AdmissionFits` | dashboard_server.py:339-417 | the admitted prefix is non-empty and within the budget unless it is a single message |
| `TranscriptWalk.AdmissionIsDetermined` | dashboard_server.py:339-417 | fitting the budget and stopping only at a message that would not fit leave exactly one admitted length |
| `TranscriptWalk.ShowAdvances` | dashboard_server.py:339-417 | the admission shows one or more of the rows it is given and its cursor names the first row not shown |
| `TranscriptWalk.ServePageAdvances` | dashboard_server.py:757-808 | a served page starts at its cursor, is not empty, and its own cursor names the row after it |
| `TranscriptWalk.RefusedIff` | dashboard_server.py:183-198 | a request for a page is refused exactly when its cursor is not two numbers of one to ten digits, joined by a dash, that are those of a row |
| `TranscriptAdmission.TurnGroups` | dashboard_render.py:786-798 | the list of groups grown in place is the rows cut at every change of turn |
| `TranscriptAdmission.GroupsAreUnique` | dashboard_render.py:786-798 | there is only one way to cut rows into groups of one turn each |
| `TranscriptAdmission.AdmitJsonTranscript` | dashboard_server.py:339-417 | the accumulator loop admits exactly the specified prefix, marks its last message `continued` exactly when its turn is cut, and returns the cursor of the first message left out, or the reader's when none is |
| `TranscriptAdmission.ConversationTranscriptSection` | dashboard_render.py:844-952 | the HTML loop renders exactly the specified prefix, group by group, reports whether a turn was split, and returns the same cursor |
| `TranscriptAdmission.RenderedPageMessages` | dashboard_server.py:428-440 | the search loop returns the messages before the one the cursor names, or all |
| `TranscriptAdmission.CountsWhatWasShown` | dashboard_server.py:428-440 | when the cursor is the first message not shown, the footer counts exactly the shown ones |
| `TranscriptService.ConversationMessages` | storage.py:1353-1452 | the three queries and the turn-collecting loop return exactly the specified page, bad-cursor answer included |
| `TranscriptService.TakeTurns` | storage.py:1399-1436 | the running total over turn sizes takes the shortest run of whole turns that reaches the limit, and probes the first turn left out |
| `TranscriptService.ApiConversation` | dashboard_server.py:940-985 | the JSON endpoint composes reader and admitter into the page of the walk theorem, its last message marked `continued` exactly when its turn goes on; the payload sent stays within the byte budget unless it is one message too large on its own |
| `TranscriptService.PageConversation` | dashboard_server.py:757-808 | the HTML page composes reader, section and footer into the page of the walk theorem, its blocks are exactly the page's rows, and section, joins, note and footer stay within the byte budget unless it shows one message too large on its own |
| `TranscriptSizes.JsonPageWithinBudget` | dashboard_server.py:339-417 | the JSON page, with its newlines, continued flag and cursor, stays within the byte budget unless it is one oversize message |
| `TranscriptSizes.HtmlPageWithinBudget` | dashboard_render.py:844-989 | the HTML page, with joins, note, section tags and footer, stays within the byte budget unless it is one oversize message |
| `TranscriptSizes.FooterFits` | dashboard_render.py:955-989 | note, footer and join newlines fit in the 4,096 bytes reserved for them |
| `ChunkerTheorems.NothingIsLost` | documents.py:327-376 | with target <= hard_max: unless the text yields no chunk, every non-whitespace character lies in some chunk, tail merge included |
| `ChunkCeiling.NothingLostIff` | documents.py:297-376 | for every target, ceiling, overlap and minimum: nothing is lost from any text exactly when target <= hard_max |
| `ChunkerTheorems.ChunksAreSteady` | documents.py:327-376 | for every text and parameters: chunks are slices of the text, ends strictly increase, starts never decrease, consecutive chunks share at most `overlap` characters |
| `ChunkerTheorems.ChunksAreShort` | documents.py:327-376 | with target + overlap <= hard_max every chunk has at most hard_max characters |
| `ChunkCeiling.CeilingHoldsIff` | documents.py:297-376 | for every target, overlap, ceiling and minimum: all chunks of all texts have at most hard_max characters exactly when target is 1 or target + overlap <= hard_max |
| `ChunkCeiling.CeilingNeedsRoom` | documents.py:297-376 | otherwise a text of x's with one sentence end, built from target and hard_max, gets a chunk over the ceiling, tail merge included |
| `ChunkerTheorems.PiecesTile` | documents.py:272-284 | a long span is split into consecutive pieces of 1..target characters that cover it exactly |
| `ChunkerTheorems.PiecesWellCut` | documents.py:272-284 | a piece ends at the last breakpoint in reach, and mid-text only when no breakpoint is in reach |
| `ChunkerTheorems.BreakpointsAreShifted` | documents.py:272-284 | the breakpoints are the sentence ends moved right by `start`; they are the sentence ends exactly when the span begins the text or has none |
| `ChunkBreaks.CutsWellIff` | documents.py:272-284 | the pieces of a span longer than the target end at the last sentence end in reach, in every text, exactly when the span begins the text, the target is 1, or three characters are cut by two |
| `ChunkBreaks.SentenceCutsIff` | documents.py:272-294 | over all paragraphs of all texts they do exactly when the target is 1 |
| `ChunkBreaks.LaterParagraphCutMidWord` | documents.py:272-294 | for every target of 2 or more, a text whose second paragraph is cut inside a word although a sentence end is in reach; the piece is one of the atomic spans chunks are made of |
| `ChunkerTheorems.ParagraphsCover` | documents.py:256-269 | only whitespace lies between paragraphs |
| `ChunkerTheorems.ParagraphsUnbroken` | documents.py:256-269 | no blank line begins inside a paragraph |
| `ChunkerTheorems.AtomsCover` | documents.py:287-294 | every non-whitespace character lies in an atomic span |
| `ChunkerTheorems.ChunkCountBound` | documents.py:327-376 | n chunks need floor(n/2) * (target + 1) characters of text |
| `ChunkTail.NoChunkIff` | documents.py:362-365 | with target <= hard_max a text yields no chunk exactly when it has fewer than twenty non-whitespace characters and its spans fit one chunk; a text no longer than the target, exactly when it has fewer than twenty |
| `ChunkTail.ShortTailIsMerged` | documents.py:367-376 | the tail is merged into the chunk before it exactly when it is shorter than the minimum and the two fit under the ceiling; earlier chunks are untouched |
| `Chunker.ParagraphSpans` | documents.py:256-269 | the position loop collects exactly the specified paragraphs |
| `Chunker.SplitLongSpan` | documents.py:272-284 | the cutting loop collects exactly the specified pieces |
| `DocumentChunks.AssembleChunks` | documents.py:327-360 | the loop over spans that carries start, new material and end appends exactly the specified raw chunks |
| `DocumentChunks.ChunkText` | documents.py:327-376 | the whole chunker returns the slices of the text the theorems are about |
| `DocumentChunks.ChunkDocument` | documents.py:467-478 | one chunking per page, rows in page order |
| `DocumentChunks.IndicesHaveFourDigits` | documents.py:467-522 | an accepted document (2,000,000 characters, 2,000 pages) has at most 5,996 rows, so chunk indices have at most four digits |
| `AgentLoop.CallsAreBounded` | agent.py:402-558 | for every world, one message makes at most 17 model calls and at most nine more than the calls that fail; no failure at the ninth or a later attempt is retried; at most two malformed answers are re-asked |
| `AgentRuns.SeventeenCallsHappen` | agent.py:402-558 | for each number of failures up to eight, a world with exactly that many in which one message makes nine calls more, 17 when there are eight |
| `AgentRuns.CallBoundIsTight` | agent.py:402-558 | a number bounds the calls of every message with at most f failures exactly when it is at least 9 + min(f, 8); nine does exactly when f is 0 |
| `AgentLoop.StepDescends` | agent.py:402-558 | a pass that continues keeps round <= 8 and lowers (rounds, repairs, attempts) left, so the code after the loop is never reached |
| `AgentLoop.StepAccounts` | agent.py:482-558 | every call made so far is a retried failure, a tool round or the one repair |
| `AgentRuns.MessageIsSafe` | agent.py:402-558 | over a whole message: every request is well formed and extends the previous one, the ledger stays sound, the counter ends at 14 or less, the transcript keeps its shape |
| `AgentRuns.EveryRequestIsWellFormed` | agent.py:391-558 | over any sequence of user messages and answers, whatever model and tools return, every request of the next answer is well formed and extends the earlier ones, and at most twelve tool calls run for it |
| `AgentRuns.SessionIdsAreUnique` | agent.py:234-252 | over any such sequence, two tool calls of the transcript share an id only if they are the same call |
| `AgentRuns.ExecutionsPerResponse` | agent.py:422-557 | one response adds at most three executions, and only while fewer than twelve were counted and in the first seven rounds |
| `AgentTurn.RunAgentTurn` | agent.py:348-558 | the loop over local counters, the message list, the failure dictionary and the stored rows sends exactly the requests, stores exactly the rows and returns exactly the outcome of the specification; that outcome is the one the requests sent and the replies to them leave (as in `AgentOutcomes.MessageConcludes`), redacted, and is stored as the last row; it terminates |
| `AgentTurn.TakeReply` | agent.py:482-557 | each kind of reply changes the loop's variables, or ends it, as the specification says; where it ends it, the outcome is an error exactly for a failure, the answer exactly for content with no calls or no tools offered, cut or not, and else the fallback that fits |
| `AgentTurn.ToolRound` | agent.py:523-557 | ids are minted from the turn number the stored rows then get, and one redacted pair feeds both the rows and the next request |
| `AgentTurn.Finish` | agent.py:368-385 | the returned text is redacted and stored as the turn's last message |
| `AgentOutcomes.MessageConcludes` | agent.py:418-558 | over a whole message, for every world: shutdown was asked before none of the calls made; every reply but the last lets the message go on (a retried failure, calls of offered tools, the first empty answer); it ends interrupted exactly when the last one does too, or none was made, and shutdown was then asked; else the last request and its reply decide: error exactly for a failure, the answer exactly for non-blank content without calls or without tools, with the truncation notice exactly when cut, else empty or no answer by whether tools were offered |
| `AgentOutcomes.ConclusionIsDetermined` | agent.py:418-558 | the requests sent and their replies leave exactly one outcome |
| `AgentRounds.ToolsOfferedIff` | agent.py:422-430 | a request offers tools exactly when fewer than seven tool rounds and fewer than twelve admitted calls came before it |
| `AgentRounds.OtherRequests` | agent.py:425-516 | the first request is the assembled context; one without tools closes with the final instruction; after a failure the next adds nothing, after an empty answer the one request for another |
| `AgentRounds.AnswersReachTheModel` | agent.py:529-554 | over a whole message, whenever a reply calls tools and another request follows, that request is the one before it plus the redacted content, the calls with the model's names and redacted arguments, and in its place the answer to each: what the tool returned for the model's name and arguments when it is among the first three, its key has not failed twice and fewer than twelve calls came before it; else the reason it was not run |
| `AgentRounds.StoredIsWhatWasSent` | agent.py:544-554 | over a whole message, the rows its tool rounds store are exactly the messages it added to its requests, instructions left out, each text and argument redacted |
| `AgentMessages.ToolAnswersNearest` | agent.py:658-675 | in a well-formed list every tool message answers exactly one call of the nearest preceding assistant message, in that call's place |
| `AgentMessages.EveryCallAnswered` | agent.py:551-555 | in a well-formed list every call of every assistant message is answered, in place |
| `AgentMessages.MintedIdsDiffer` | agent.py:246-252 | minted ids are equal only for the same turn and the same place |
| `AgentMessages.NormalizedIdsDiffer` | agent.py:234-252 | the accepted calls of one response carry distinct ids |
| `AgentMessages.WellFormedAppend` | agent.py:551-555 | appending a well-formed stretch to a well-formed list keeps it well formed |
| `ToolLedger.RoundKeepsSound` | agent.py:818-927 | a response adds at most three executions; executions stay at 12 or less; a response admitted below 12 leaves the counter at 14 or less |
| `ToolLedger.NeverRunAfterTwoFailures` | agent.py:843-856 | a call key that has failed twice is never executed again |
| `ToolLedger.FailsAtMostTwice` | agent.py:843-869 | any one call key fails at most twice |
| `AgentRuns.CounterIsExact` | agent.py:848-856 | over a whole message `tools_used` is the executions plus the refusals; it equals the executions exactly when no call is asked for again after its key failed twice; executions stay within 12, the counter within 14 |
| `AgentRuns.CounterPassesIff` | agent.py:848-856 | over a whole message `tools_used` ends above 12 exactly when some call is refused, after its key failed twice, at a moment when the counter has reached 12 |
| `AgentRuns.CounterReachesFourteen` | agent.py:848-856 | a world in which one message ends with the counter at 14 and two executions |
| `ToolLedger.ToolBudget.RepeatFailureCount` | agent.py:813-815 | summing the dictionary over error classes gives the number of failed executions of the key |
| `ToolLedger.ToolBudget.HandleCall` | agent.py:843-877 | refusal, execution or exhausted budget are decided in that order, and the counter and the dictionary follow |
| `ToolLedger.ToolBudget.ExecuteToolCalls` | agent.py:818-927 | each accepted call gets exactly one result under its own id, in order; calls past the third are answered unexecuted |
| `Conversations.FilingKeepsStored` | storage.py:778-806 | filing one more turn under the next number keeps the transcript a list of whole turns with increasing numbers |
| `Conversations.CallIdsAreUnique` | storage.py:1566-1577 | no two calls of a stored transcript share an id |
| `Conversations.StoredIsWellFormed` | storage.py:1586-1592 | the messages of a stored transcript are well formed |
| `Conversations.DropStored` | storage.py:434-443 | cutting a transcript between turns leaves a transcript |
| `Conversations.Conversation.AddToolTurn` | storage.py:809-823 | all rows of the turn are stored, or, when any insert fails, none |
| `Conversations.Conversation.AddSingleRow` | storage.py:1580-1583 | one row under the next turn number |
| `Conversations.Conversation.ReadNextTurn` | storage.py:1566-1570 | the highest turn number plus one |
| `ContextWindow.FetchIsStored` | storage.py:434-443 | the rows of the last forty turn numbers are again whole turns |
| `ContextWindow.FetchIsSuffix` | storage.py:434-443 | they are a suffix of the rows |
| `ContextWindow.LoadContextMessages` | storage.py:826-871 | fetch, rewrite and walk, with their loops and running totals, return exactly the window of the rewritten messages; against the stored rows: every user and assistant message carries its row's text, the last user message with the clock line below it, and a tool result its own text when no stub is asked for or it is the latest load of its skill, else its stub |
| `ContextWindow.HistorySaysRows` | storage.py:826-871 | the same of the window itself, for every stored transcript, limit, budget and rules: message by message, what the newest rows say |
| `ContextWindow.WindowIsRight` | storage.py:853-871 | that window is a suffix of whole turns, has fewer than the limit messages before its oldest turn was added, fits the token budget unless it is the newest turn alone, and stops only where the next older turn may not be added |
| `ContextWindow.WalkBack` | storage.py:849-871 | the backward loop over grouped turns selects exactly that suffix |
| `ContextWindow.GroupTurns` | storage.py:842-847 | the forward loop groups rows by turn |
| `ContextWindow.WindowIsDetermined` | storage.py:853-871 | those conditions leave one window |
| `ContextWindow.HistoryIsWellFormed` | storage.py:826-871 | whatever the stored transcript, the history of a request is well formed |
| `ContextWindow.ShapeKeepsWellFormed` | agent.py:585-588 | rewriting texts without touching roles, ids and calls keeps a list well formed |
| `ContextWindow.ResolveFindsOwnCall` | agent.py:658-675 | a stub resolves the call its result was produced for, or nothing when the name is not advertised |
| `ContextWindow.StubStaleToolResults` | agent.py:626-655 | every tool result becomes its stub except the most recent load of each skill; all other messages are untouched |
| `ContextWindow.AppendNow` | agent.py:203-221 | the last user message gets the line below its text; every other message is unchanged |
| `DocumentStore.EveryRunIsConsistent` | storage.py:1092-1224 | after any sequence of stores, deletes, start-ups and failures the vector index holds exactly the chunk ids, each under its document's owner and at the table's dimension; chunk indices are 0..n-1 once each and match chunk_count; no user has more than 20 documents or a repeated filename |
| `DocumentStore.PutKeepsConsistent` | documents.py:571-606 | storing or replacing a file keeps that invariant |
| `DocumentStore.PutTouchesOneFile` | documents.py:571-606 | storing a file leaves every other document with its chunks and vectors as it was, and nothing of the replaced version |
| `DocumentStore.PutStoresTheFile` | documents.py:571-606 | chunk i of the stored document holds text i and vector i, under the owner |
| `DocumentStore.DeleteKeepsConsistent` | storage.py:1192-1224 | deleting keeps the invariant and touches no other user's documents |
| `DocumentStore.DeleteUndoesPut` | storage.py:1192-1224 | deleting a document just stored gives back the store without it, apart from the id marks |
| `DocumentStore.ConfigureKeepsEntries` | storage.py:546-614 | start-up replaces a vector table only when it is empty, and refuses exactly when documents were indexed under another pair |
| `DocumentStore.ConfigureKeepsConsistent` | storage.py:546-614 | start-up keeps the invariant |
| `DocumentTables.Tables.IndexDocument` | documents.py:568-606 | stored exactly when no statement executed fails and the file may be put; refused exactly when none fails, the name is new and the user has 20 documents; failed exactly when a statement fails, or the texts and vectors do not fit and the shelf is not full; the whole replacement is committed, or nothing changes |
| `DocumentTables.Tables.DeleteDocument` | storage.py:1192-1224 | in its own transaction a failed delete changes nothing; inside the caller's it leaves the transaction open; a foreign document is not found and not touched; without a fault it succeeds whenever the chunks have a vector table |
| `DocumentTables.Tables.AddChunks` | storage.py:1125-1147 | refuses a document of another user without inserting; otherwise consecutive fresh ids in order; fails exactly by a fault or a foreign document |
| `DocumentTables.Tables.AddVectors` | storage.py:1150-1176 | refuses before any insert when one chunk id is not the user's; succeeds exactly when no statement fails and every vector has the dimension and a fresh id of the user |
| `DocumentTables.Tables.ApplyEmbeddingPair` | storage.py:546-614 | fails exactly when a statement fails; otherwise bound or refused exactly as specified; refused or failed changes nothing |
| `DocumentTables.Tables.DocumentIdFor` | storage.py:1179-1183 | finds the one document of that user and name; fails exactly by a fault |
| `DocumentTables.Tables.AddDocument` | storage.py:1092-1122 | one row under the next id; fails exactly by a fault or a taken name |
| `CompactionWindow.OutputFits` | tools.py:362-408 | for max_chars >= 200 the output has at most max_chars characters whenever the marker's two counts have at most 21 digits together |
| `CompactionOutput.MarkerIsExact` | tools.py:400-408 | of a text that is cut, no secret fragment at a cut: with a line kept, the output's lines are the first and the last of the text around one line whose two printed numbers read back as the characters and the count of the lines missing; with none kept they read back as those of the whole text |
| `CompactionOutput.OutputLines` | tools.py:400-408 | its lines are exactly kept head, marker, kept tail |
| `CompactionOutput.MarkerReadsBack` | tools.py:400-400 | a reader of the marker gets back both numbers |
| `CompactionOutput.ErrorLineSurvivesIff` | tools.py:362-408 | with error context the output shows the last error line in its place exactly when the text is within max_chars, the line lies in the plain head, or the lines from it to the end fit the budget; no secret fragment at a cut, no line that reads like the inserted one |
| `CompactionOutput.ContextSurvivesIff` | tools.py:362-408 | under the same conditions it shows the line with all its twenty lines of context exactly when the text is within max_chars, the line lies in the plain head, or context, line and rest fit the room they have: the plain tail's if the line lies in it, else the whole budget |
| `CompactionOutput.ContextCanBeLost` | tools.py:391-398 | logs that end in the error, whose context fits the budget but not the plain tail: the error is shown without all its context |
| `CompactionOutput.TailLineIsShownIff` | tools.py:401-403 | a line kept in the tail stands in its place exactly when no more is stripped off the end than the lines after it |
| `CompactionOutput.KeptErrorLineCanBeCut` | tools.py:401-403 | an error line that is kept and fits, and is shown without its last eight characters |
| `CompactionOutput.CollapsedAreLines` | tools.py:379-382 | what compact_output windows is never empty and holds no newline in a line |
| `CompactionOutput.ErrorLineCanBeLost` | tools.py:391-408 | texts whose last error line is not shown |
| `CompactionWindow.CompactOutput` | tools.py:362-408 | collapse, windows and marker produce exactly the specified output |
| `CompactionWindow.PrefixLines` | tools.py:435-441 | the loop finds the longest head within the budget |
| `CompactionWindow.SuffixLines` | tools.py:444-450 | the loop finds the longest tail within the budget |
| `CompactionWindow.PopUntilFits` | tools.py:395-397 | popping lines from the front leaves the longest tail that fits |
| `Compaction.CollapseDuplicateLines` | tools.py:411-426 | the collapsed lines render the maximal runs of the input, runs of three or more as one line with their true count |
| `Compaction.RunsAreMaximal` | tools.py:411-426 | the runs rendered are the maximal runs: they spell the lines out, none is empty, neighbours differ |
| `Compaction.RunsAreUnique` | tools.py:411-426 | a text has one list of maximal runs |
| `CollapseLength.CollapseLengthensIff` | tools.py:411-426 | a text of equal lines grows when collapsed exactly when it is three to five empty lines or three lines of one character |
| `CollapseLength.GrowsIff` | tools.py:411-426 | those are the only runs that grow, each by at most three characters |
| `CollapseLength.CollapsedLength` | tools.py:411-426 | the collapsed text is longer than the text by exactly the sum of what its runs gain |
| `CollapseLength.CollapseShrinks` | tools.py:411-426 | a text without such a run never grows |
| `TextLines.SplitThenJoin` | tools.py:380-382 | joining the split lines gives the text back |
| `TextLines.JoinThenSplit` | tools.py:380-382 | splitting joined lines gives the lines back |
| `SearchEnvelope.SearchTextFits` | tools.py:1751-1773 | ten storable passages render to at most 11,549 characters |
| `SearchEnvelopeCut.LongestIsAttained` | tools.py:1751-1773 | ten chunk rows of one accepted document render to exactly 11,549 |
| `SearchEnvelope.StoredPassageIsStorable` | tools.py:139-160 | every chunk row of an accepted document, with its own page number and text, under a cleaned name is storable in that sense |
| `SearchEnvelope.EnvelopeIsWhole` | tools.py:1735-1748 | the envelope is handed over whole, and never longer than the rendered text, when no passage has a run of three to five empty lines (the separator after it counted) or of exactly three equal one-character lines |
| `SearchEnvelope.WholeIff` | tools.py:1735-1748 | the envelope of storable passages is handed over whole exactly when its length plus what its runs of equal lines gain is at most 12,000; the length alone leaves 451 characters |
| `SearchEnvelopeCut.EnvelopeCanBeCut` | tools.py:1735-1748 | ten passages, each the one chunk row of an accepted document, whose rendered text fits the limit but whose collapsed text does not, so that the output is not its lines; for each of 49 sizes |
| `Fusion.Rrf` | rag.py:117-126 | the score dictionary and the sort return each ranked id once, by descending exact score, ties by id |
| `Fusion.FusionIsDetermined` | rag.py:117-126 | that order is unique |
| `Fusion.DominantComesFirst` | rag.py:117-126 | an id ranked no worse in every ranking and better in one comes first |
| `Fusion.ParseRerankReply` | rag.py:177-200 | a reply is used exactly when it is a non-empty array of distinct integers in 1..n |
| `Fusion.ReorderIsPermutation` | rag.py:203-206 | reordering is a permutation: the named candidates first, the others in their order |
| `Fusion.Searcher.Search` | rag.py:360-435 | the candidates are the stored ones among the ten best fused ids, best first. Without a usable reply the result is the first top_k of them: distinct, in fused order, none left out for a worse one. With one it is those the reply names in its order, then the others in fused order, cut to top_k |
| `Fusion.CandidatesAreDetermined` | rag.py:378-392 | the rankings and the stored rows leave one list of candidates |
| `Attribution.AnswerIsCanonical` | rag.py:533-559 | after attaching with at least one passage every source line is canonical and there is at least one |
| `Attribution.AttachedLines` | rag.py:533-559 | the lines are exactly the ones that may stand, in order, then the canonical block when none of them was a valid source line |
| `Attribution.OtherLinesAreKept` | rag.py:510-530 | all lines that are not source lines keep their text and order |
| `Attribution.AttachIsIdempotent` | rag.py:533-559 | attaching twice changes nothing more |
| `Attribution.SelectionsArePicks` | rag.py:490-502 | the canonical lines are those of the non-empty ordered subsets of the pairs |
| `Attribution.AcceptedNamesAreGood` | documents.py:46-63 | a cleaned filename with a known extension is one line without outer blanks, of at most 120 characters |
| `Attribution.RenderSources` | rag.py:449-473 | the order list and page dictionary render names and pages in first-seen order |
| `Attribution.RenderNamesPages` | rag.py:449-473 | the rendered line contains every file of the pairs followed by its pages, which read back from the brackets as exactly the distinct pages of its pairs |
| `Attribution.SourcePairsAreFirst` | rag.py:476-487 | the pairs attributed are the first five distinct ones the searches returned, in first-seen order |
| `Attribution.CallsInOrder` | rag.py:476-487 | the passages of several searches are taken one search after another |
| `Attribution.StripSourceLines` | rag.py:510-530 | the line loop keeps exactly the lines that may stand and reports whether a valid source line is among them |
| `Attribution.AttachSources` | rag.py:533-559 | the composed answer is the specified one, and the flag says whether it changed |
| `Redaction.RedactedIsClean` | config.py:236-241 | in whatever order secrets are replaced, the output holds no secret that overlaps the placeholder nowhere |
| `Redaction.RedactIsIdempotent` | config.py:236-241 | with such secrets redacting twice is redacting once |
| `Redaction.IdempotentIff` | config.py:236-241 | for a single secret redacting twice is redacting once, on every text, exactly when it overlaps the placeholder nowhere or is the placeholder |
| `Redaction.PlainSecretsAreSafe` | config.py:230-241 | a secret of eight or more characters without an asterisk, other than REDACTED, is of that kind |
| `Redaction.SafeIffNoClash` | config.py:236-241 | a secret registered alone is removed from every text exactly when it overlaps the placeholder nowhere |
| `Redaction.OrderDecides` | config.py:236-241 | two secrets of equal length that are safe in one order and leak in the other, both orders being longest first: with several secrets no condition on the set alone is exact |
| `Redaction.UnsafeSecrets` | config.py:230-241 | two secrets the registry accepts that are not |
| `Redaction.StripFragment` | config.py:299-312 | what is cut is exactly the longest end that is a proper beginning of a secret of eight or more characters |
| `Redaction.Registry.RegisterSecret` | config.py:230-233 | only values of eight or more characters are remembered |
| `Redaction.Registry.RedactText` | config.py:236-241 | the longest-first loop computes the redaction the theorems are about; no safe secret is left |
| `Redaction.Registry.StripSecretFragment` | config.py:299-312 | the nested loops over the secrets find that longest fragment |
| `RateLimit.WindowBound` | bot.py:464-472 | in any interval [s, t] of a run with a non-decreasing clock one key is allowed at most capacity + (t - s) / refill_s calls |
| `RateLimit.TokensInRange` | bot.py:464-472 | tokens stay in [0, capacity] |
| `RateLimit.OtherKeysAreIrrelevant` | bot.py:464-472 | a key's bucket is what its own calls alone would have left |
| `RateLimit.PatientCallsAreAllowed` | bot.py:464-472 | a call made refill_s after the key's last one is allowed |
| `RateLimit.AllowedIff` | bot.py:464-472 | a call is allowed exactly when, counted from every earlier call of its key, one more stays within capacity + elapsed / refill_s; so a fresh key has its whole burst |
| `RateLimit.RateLimiter.Allow` | bot.py:464-472 | the bucket map changes at that key only, to the specified bucket |
| `PollCursor.AtMostOnce` | bot.py:979-984 | across any crashes and restarts ids are dispatched in increasing order, none twice, and the durable cursor has reached every one |
| `PollCursor.CrashLosesAnUpdate` | bot.py:979-984 | an update whose cursor was written before a crash is never dispatched afterwards |
| `PollCursor.RunKeeps` | bot.py:2633-2680 | every run of polls, cursor writes, dispatches, crashes and restarts keeps the invariant and only appends to what was dispatched |
| `PollCursor.WholeBatchIsDispatched` | bot.py:2654-2680 | between fetching a batch and the next poll, without a crash, every update of the batch is dispatched in order |
| `PollCursor.Bot.PollLoop` | bot.py:2633-2680 | one life of the process, cut off after any number of durable effects, keeps the same invariant and dispatches, in order, exactly as many of the updates it is given as its effects allow, two for each: all of them when it does not die |
| `PdfRoundTrip.WriteThenRead` | devtools/pdf_fixture.py:51-105 | a reader following sections 7.5.5, 7.5.4, 7.3.8 and 7.3.4.2 of ISO 32000-1 decodes, for page i, the lines of the i-th text with each carriage return read as a newline; so it restores the page exactly when it has no carriage return (file below 10^10 bytes) |
| `PdfRoundTrip.ObjectIsFound` | devtools/pdf_fixture.py:84-97 | each xref entry points at its `k 0 obj`, and that object's text follows |
| `PdfRoundTrip.EntriesHave` | devtools/pdf_fixture.py:92-97 | every entry is 20 bytes and holds its object's offset |
| `PdfRoundTrip.FileTable` | devtools/pdf_fixture.py:92-103 | startxref leads to the table |
| `PdfRoundTrip.StreamReads` | devtools/pdf_fixture.py:78-82 | /Length equals the size of the stream |
| `PdfRoundTrip.PageNamesItsContent` | devtools/pdf_fixture.py:72-82 | page i's dictionary is object 4 + 2i and names content object 5 + 2i |
| `PdfContent.ContentRoundTrip` | devtools/pdf_fixture.py:34-48 | the strings a content stream shows are the lines of the text with carriage returns read as newlines: the lines themselves exactly when there is none |
| `PdfContent.LiteralRoundTrip` | devtools/pdf_fixture.py:28-31 | the literal-string reader restores every line the writer escapes, but for carriage returns, which read as newlines |
| `PdfContent.EscapingIsReplacing` | devtools/pdf_fixture.py:28-31 | three replacements, backslash first, escape each character once |
| `PdfContent.CarriageReturnIsLost` | devtools/pdf_fixture.py:28-31 | a line is read back as written exactly when it holds no carriage return |
| `PdfRoundTrip.WritePdf` | devtools/pdf_fixture.py:51-105 | a non-ASCII text or one of more than 60 lines is refused, in that order; otherwise every page of the data returned reads back as in the round trip (below 10^10 bytes) |
| `PdfFile.Assemble` | devtools/pdf_fixture.py:84-105 | the growing buffer and offsets list produce body, table and trailer |
| `Decimal.PaddedThenValue` | devtools/pdf_fixture.py:96-97 | a number below 10^10 is padded to ten digits and reads back as itself |

## Left out

- Telegram, HTTP, model, embedding and Docker calls: their results are arbitrary values (success, retryable failure, malformed answer, exception).
- SQLite and sqlite-vec themselves: tables are sequences or maps with fresh ids; a transaction restores everything; ROLLBACK is taken to succeed.
- The writer's lock between processes, and two connections writing at once: `BEGIN IMMEDIATE` serialises them.
- Floating point: scores, deadlines and token buckets are real numbers.
- pypdf, python-docx, zip and HTML parsing, the stemmer and BM25: their outputs are arbitrary values of their types.
- Regular expressions as engines: blank lines, sentence ends, error lines and cursors are modelled by what they match; terminal escape sequences are taken as already removed.
- Telegram errors other than `TelegramError` raised inside the worker, which would end its thread.
- The JSON form of stored tool calls: arguments are redacted one by one, so a secret that matched a minted id or the JSON punctuation is not modelled.
- Exceptions that end an agent turn half-way: the rows stored up to then form a transcript by the step lemmas, and the turn has no answer.
- The conversion of tool arguments to canonical keys, error classes and stub texts: arbitrary functions.
- HTML markup, escaping and styling: a message is its byte sizes.
- The page tree's parsing in the PDF reader: content objects are reached by number through the cross-reference table, and the page dictionaries are shown to stand where they belong.
- The fixed dictionary texts of the PDF file are parameters of the round trip; `PdfFile.PdfIsSound` shows the real ones meet its condition.
- Redaction of a registry with several secrets that overlap the placeholder: whether one leaks depends on the order among equally long ones (`Redaction.OrderDecides`), which the program takes from its hash set; the absence of overlap is sufficient, and exact for one secret.
- Compacted texts in which a line already reads like the marker: whether an error line survives is stated for the others. Lines of the head cut by a stripped fragment: only the tail's are described exactly.
- Idempotence of redaction for several secrets that overlap the placeholder: proved without overlap, and exactly for one secret.
- Unicode case folding of file extensions: letters A to Z only.
- Conversation summaries and cost accounting (sums over stored rows); `tracing.py` (spans), `metrics.py` (counters) and `tables.py` (table text); the sandbox, URL and filesystem checks; environment parsing and start-up wiring.
- `devtools` other than the PDF writer: the model evaluations and benchmark scenarios, which match answers against regular expressions, the repository checks, the git hooks and the benchmark page.
