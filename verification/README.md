# UPIL: a Dafny model of the AT channel, the event loop and the echo reference

UPIL is the phone interface layer of an Android USB handset. This project models its four stateful
components in Dafny and proves what their callers rely on:

- **AT channel** (`ril-telephone/atchannel.c`, `misc.c`): a reader thread cuts the byte stream of a modem
  into lines and dispatches them; a command thread sends a command, sleeps on a condition variable and takes
  the response. `Framing.dfy` and `LineReading.dfy` hold the buffered line reader, `AtProtocol.dfy` the
  protocol as a state machine whose steps are the stretches of code under the mutex, `AtRuns.dfy` what holds
  on all its runs, `AtChannel.dfy` the imperative code on its variables and linked lists, and
  `ReaderThread.dfy` the reader thread from bytes to dispatch.
- **AT tokenizer** (`ril-telephone/at_tok.c`): `AtTok.dfy`, with `at_get_cme_error` in `Cme.dfy`.
- **Event loop** (`upil_event/upil_event.c`): `EventTimers.dfy` (timer arithmetic, the sorted list, runs),
  `EventRings.dfy` (the intrusive rings), `EventWatch.dfy` (the watch table and its caches as values) and
  `EventLoop.dfy` (the context and a turn of the loop).
- **Echo reference** (`upil_audio/audio_utils/echo_reference.c`): `EchoTiming.dfy` (the realignment
  arithmetic), `EchoRuns.dfy` (runs), `EchoReference.dfy` (the code on its buffers); `Subsequences.dfy`
  defines order-preserving subsequences.

The imperative classes are proved method by method against functions on values, and the theorems over whole
runs are about those functions. `dafny verify dfyconfig.toml` checks everything.

Assumptions, all made by the code itself: command callers are serialised (`SecondCaller` says exactly what
goes wrong otherwise) and the channel is not reopened while a command is pending; watched descriptors are
distinct and not negative; an event is not added again while it is registered or queued, and a callback does
not unlink an event that is pending; the event loop's clock does not run backwards and its timevals are
normalised; an echo reference has one reader, a positive rate, and the same rate for reading and writing.

Where the code and its own words differ, the model follows the code:

- `processTimeouts` has a comment "see if now >= ev->timeout" but compares with `>`: a timer due at this very
  instant is not moved (`NothingMovesWhileAsleep`).
- `readline` has a comment that the cursor "will always be <= p_read". It is one past the end of the data if
  and only if the string returned is the prompt and ends where the data does, and out of the buffer if and
  only if the data fills the buffer too (`LineReading.LineReader.Readline`). The next call then takes old bytes
  for data; it reads from the input alone if and only if the byte behind the data is NUL
  (`LineReading.LineReader.AfterPrompt`; `LineReading.OldBytesReturned` and `LineReading.CursorLeavesBuffer`
  are inputs where that goes wrong, when they are read in the pieces named there).
- a command that finds another pending is refused with `AT_ERROR_COMMAND_PENDING`, but the pending response
  is freed all the same (`SecondCaller`).
- a change of delay by the threshold or more is meant to realign the echo reference; `abs` takes an `int`, so
  the test is made modulo 2^32 ns (`RealignsExactly`, `MissedRealignment`).
- `setTimespecRelative` carries nothing into the seconds, so some deadlines are not normalised
  (`DeadlineIsValid`), the handshake's own among them (`HandshakeDeadline`). IEEE Std 1003.1 has
  `pthread_cond_timedwait` refuse such a deadline with EINVAL before it releases the mutex; the wait loop takes
  that for a wakeup, and the call never returns (`RefusedNeverReturns`).
- `onReaderClosed` marks the channel closed only if a handler is installed (`EofWakes`); without one an untimed
  call never returns (`EofStrands`).
- `writeCtrlZ` writes nothing on a closed channel, and `processLine` ignores its error, so a prompt does not
  always get its PDU (`PduGoesOut`).

## Model

| member | source | states |
|---|---|---|
| Misc.StrStartsWith | ril-telephone/misc.c:19-28 | The two-pointer scan answers yes exactly when the whole prefix opens the line, for all strings. |
| AtTok.RoundTrip | ril-telephone/at_tok.c:28-87 | For every colon-free prefix and every printable list, start-then-tokenize returns exactly the printed fields if and only if the last item printed as something. |
| AtTok.StartSplits | ril-telephone/at_tok.c:28-46 | On any text: what follows the first colon, and nothing without one. |
| AtTok.NextTokSplits | ril-telephone/at_tok.c:48-87 | On any text at all: white space, then a token up to the next comma, or one in quotes (closed or not) with the text behind it up to the next comma, and where the cursor goes in each case. |
| AtTok.TokensOfPrint | ril-telephone/at_tok.c:70-87 | Tokenizing a printed list (raw or quoted fields, any white space before each) returns its fields, short only of a last item that printed as nothing. |
| AtTok.TokensBounded | ril-telephone/at_tok.c:173-188 | The hasmore/nextstr loop ends after at most one call per character. |
| AtTok.SameTokenAgain | ril-telephone/at_tok.c:70-87 | Tokenizing again what a call left in place of its input hands the same token out. |
| AtTok.Tokenizer.TokStart | ril-telephone/at_tok.c:28-46 | In place: the cursor goes behind the first colon; without one, or on NULL, the call fails and the cursor is NULL. |
| AtTok.Tokenizer.SkipWhiteSpace | ril-telephone/at_tok.c:48-55 | In place: exactly the leading white space is skipped, and a NULL cursor stays NULL. |
| AtTok.Tokenizer.SkipNextComma | ril-telephone/at_tok.c:57-68 | In place: the cursor goes behind the next comma, or to the terminator. |
| AtTok.Tokenizer.NextToken | ril-telephone/at_tok.c:70-87 | In place: the token of the quoted or unquoted rule stands NUL-terminated where the call says, the cursor is behind it, and no byte before the token has changed. |
| AtTok.Tokenizer.NextStr | ril-telephone/at_tok.c:173-182 | Fails on a NULL cursor only; otherwise as NextToken. |
| AtTok.Tokenizer.AtTokHasMore | ril-telephone/at_tok.c:185-188 | True exactly when the cursor is not NULL and not at the terminator. |
| AtTok.Tokenizer.AllTokens | ril-telephone/at_tok.c:173-188 | When the caller's loop is over, every token it collected still stands in the line: no call altered an earlier token. |
| AtTok.ParseLine | ril-telephone/at_tok.c:28-188 | A printed response line parsed in place gives its fields, all readable at the end. |
| Cme.StrtolOfPrint | ril-telephone/at_tok.c:97-126 | Base-10 conversion reads back every number the decimal printer writes that the C `long` holds. |
| Cme.StrtolReads | ril-telephone/at_tok.c:115-126 | White space and a sign before the digits, anything behind them: the number the digits say, pinned to the range of `long`. |
| Cme.StrtolFails | ril-telephone/at_tok.c:115-126 | Without a digit there is no number. |
| Cme.CmeRoundTrip | ril-telephone/atchannel.c:943-973 | A failed response "+CME ERROR:" with a decimal number (white space before, further parameters after) yields that number if and only if it fits an `int`. |
| Cme.CmeOtherwise | ril-telephone/atchannel.c:943-973 | A number that does not fit an `int` comes out as its low 32 bits; no number, another line, no line or a success give the codes for those. |
| Cme.AskedTwice | ril-telephone/atchannel.c:943-973 | The parse writes into the response it is given as const, yet asking again gives the same code. |
| Cme.AtGetCmeError | ril-telephone/atchannel.c:943-973 | In place, from the success flag and final line to the code, with what is left of the final line. |
| Framing.LinesOfWire | ril-telephone/atchannel.c:306-317 | Whatever non-empty lines are sent, each closed by CR or LF and any further newlines, the lines of the stream are those lines; an unterminated tail adds none. |
| Framing.DropNewlines | ril-telephone/atchannel.c:350-352 | Newlines skipped at the front of a stream change none of its lines. |
| Framing.PartialLine | ril-telephone/atchannel.c:370-377 | While a framable stream's line is incomplete, the buffer is not full. |
| Framing.PromptOpensLine | ril-telephone/atchannel.c:308-311 | Newlines and then "> " open a line like the prompt, and what comes behind is the rest of the stream. |
| Framing.InFront | ril-telephone/atchannel.c:342-368 | Bytes taken for data in front of a stream leave its lines as they are if and only if they are all newlines, or no line is ever completed. |
| LineReading.LineReader.FindNextEOL | ril-telephone/atchannel.c:306-317 | The prompt at the end of the data first, else the first newline before any NUL. |
| LineReading.LineReader.TakeBuffered | ril-telephone/atchannel.c:342-368 | From any cursor inside the buffer, past a prompt too: a buffered line or prompt is found, or the partial line is moved to the front, with the stream's lines unchanged. |
| LineReading.LineReader.ReadMore | ril-telephone/atchannel.c:379-395 | A read of any size extends the buffered part of the same stream, and the look after it finds a line end if there is one. |
| LineReading.LineReader.Readline | ril-telephone/atchannel.c:330-416 | For every way `read` splits a framable stream: the string returned is its first line and the rest stays pending; but if and only if one look at the buffer saw no more of that line than an opening "> ", it is just that. NULL comes only at the end of input, when no complete line is left, or with a failed read, which loses nothing. On any stream: exactly when the cursor ends up past the data, and out of the buffer. |
| LineReading.LineReader.AfterPrompt | ril-telephone/atchannel.c:342-411 | After a prompt the input alone is pending if and only if the byte behind the data is NUL; the lines to come are the input's if and only if the old bytes there are all newlines or no line is completed. |
| LineReading.FirstReadDecides | ril-telephone/atchannel.c:330-416 | readline on a line that opens like the prompt returns its "> " if a look came when just that had been read, and the whole line otherwise. |
| LineReading.OldBytesReturned | ril-telephone/atchannel.c:330-416 | A response, a prompt and a confirmation: when the first two are read one by one, the third line returned is bytes of the response. |
| LineReading.CursorLeavesBuffer | ril-telephone/atchannel.c:330-416 | A line and a prompt that fill the buffer: read at once, they leave the cursor behind the buffer. |
| AtProtocol.ClassesDisjoint | ril-telephone/atchannel.c:147-221 | No line is both a success and an error, or both final and an SMS header, and the prompt is not final. |
| AtProtocol.DeadlineIsValid | ril-telephone/atchannel.c:96-107 | The deadline of a timed wait is the instant meant, and is normalised if and only if the microseconds do not overflow their second. |
| AtProtocol.RefusedExactly | ril-telephone/atchannel.c:96-715 | The wait refuses the deadline of exactly those timed calls whose microseconds overflow their second. |
| AtProtocol.HandshakeDeadline | ril-telephone/atchannel.c:49-107 | The handshake's 250 ms deadline is not normalised if and only if the clock stands at 750000 microseconds or more; 750000 gives a full second of nanoseconds. |
| AtRuns.OwedSnoc | ril-telephone/atchannel.c:239-297 | What a window owes a command grows by one line exactly when that line's kind, the lines already accepted and the prompt rule say so. |
| AtRuns.OwedByIndex | ril-telephone/atchannel.c:257-290 | A command for one line is owed the first line of its window that is not final and is a number or has the prefix; a multi-line command every such line; one for no result none. |
| AtRuns.DeliverKeepsResponse | ril-telephone/atchannel.c:239-297 | processLine keeps the pending response equal to what the filter definition asks of the window so far. |
| AtRuns.DispatchShows | ril-telephone/atchannel.c:239-297 | Where a line goes shows in what else it does: final lines of a pending command, the prompt that takes the PDU and the lines that join the response are logged as such; all others change nothing and go to the unsolicited handler, if there is one. |
| AtRuns.StepKeepsInv | ril-telephone/atchannel.c:225-744 | Every step of either thread keeps the whole protocol invariant. |
| AtRuns.RunsKeepInv | ril-telephone/atchannel.c:225-744 | The invariant holds in every reachable state of every interleaving. |
| AtRuns.HandedBack | ril-telephone/atchannel.c:654-744 | Every response handed back, on every run, holds exactly the lines its kind accepts of its window, in order, with the last final line and that line's flag. |
| AtRuns.CallIsAnswered | ril-telephone/atchannel.c:676-744 | The same read off the run itself: from a registration to its return, the response is determined by the lines the reader processed in between, whatever else happened. |
| AtRuns.CallReturns | ril-telephone/atchannel.c:707-817 | On every run, what each return says: a timeout after a wait ended by its timer, whatever came meanwhile; back to sleep with neither a final line nor a close; otherwise the error and response that the window and the close ask for. |
| AtRuns.WindowGrows | ril-telephone/atchannel.c:436-475 | While no command is sent, the window grows by exactly the lines that are neither SMS headers nor their PDU lines. |
| AtRuns.SingleResponse | ril-telephone/atchannel.c:798-864 | A singleline, numeric or SMS send that returns 0 with success has a success final line and exactly one intermediate, of the kind asked for and not final. |
| AtRuns.RejectedHadNothing | ril-telephone/atchannel.c:807-837 | A send is told its response is invalid only after a success line with no line of its kind in the window, and gets no response. |
| AtRuns.ErrorsHaveCauses | ril-telephone/atchannel.c:484-744 | On every run, each outcome was added by an event for the call last sent: a timeout because that call is timed and its timer expired after it was sent, a closed channel because something had closed it, a generic error because this very command was not written; and no call returned normally on a channel that had been closed. |
| AtRuns.CausesKept | ril-telephone/atchannel.c:419-744 | On every run the channel is closed if and only if something closed it, a pending response is that of the command last sent, and a wait has timed out only by a timer that expired since. |
| AtRuns.Ownership | ril-telephone/atchannel.c:563-744 | At any moment of any run, each response allocated is freed once, left with a caller once, or pending, and only one of the three. |
| AtRuns.IdleIsClear | ril-telephone/atchannel.c:563-572 | With no command under way there is no response, prefix or PDU; with one, there is a response. |
| AtRuns.NeverPending | ril-telephone/atchannel.c:685-688 | Serialised callers never see the command-pending error. |
| AtRuns.NoLostWakeup | ril-telephone/atchannel.c:707-744 | As soon as there is a final line or the reader is closed, the command thread needs only the mutex to return. |
| AtRuns.EofWakes | ril-telephone/atchannel.c:419-433 | The end of input wakes a sleeping command thread if and only if a reader-closed handler is installed; then the call returns that the channel is closed. |
| AtRuns.EofStrands | ril-telephone/atchannel.c:419-433 | Without one, an untimed call that sleeps at the end of input never returns, however the run goes on, unless at_close is called. |
| AtRuns.RefusedNeverReturns | ril-telephone/atchannel.c:96-722 | A timed call whose deadline the wait refuses keeps the mutex for good: on every continuation, at_close included, it never returns, no line is processed and no other call is made. |
| AtRuns.NothingLost | ril-telephone/atchannel.c:436-475 | With a handler installed, the dispatch log gives back the lines read, in order, but for an SMS header still waiting for its PDU line. |
| AtRuns.PduAtMostOnce | ril-telephone/atchannel.c:252-256 | The PDU of an SMS command is written at most once, and not before a prompt has been processed. |
| AtRuns.PduGoesOut | ril-telephone/atchannel.c:252-561 | The first prompt during an SMS command decides for good: the PDU is written if and only if nothing has closed the channel by then and the descriptor takes it. |
| AtRuns.SecondCaller | ril-telephone/atchannel.c:685-741 | Starting a command keeps waiter and response together if and only if none is pending; otherwise it is told so, and the pending response is freed. |
| AtChannel.StartsWithOneOf | ril-telephone/atchannel.c:155-221 | The classifier loops answer whether any prefix of the table opens the line. |
| AtChannel.ATResponse.AddIntermediate | ril-telephone/atchannel.c:126-139 | The new node becomes the head of a well-formed list. |
| AtChannel.ATResponse.ReverseIntermediates | ril-telephone/atchannel.c:654-667 | In place: the same nodes, the lines in reverse order. |
| AtChannel.Channel.ProcessLine | ril-telephone/atchannel.c:239-297 | The code on the channel's variables takes the machine's Deliver step. |
| AtChannel.Channel.WriteCtrlZ | ril-telephone/atchannel.c:523-561 | Nothing is written on a closed channel or when the descriptor refuses. |
| AtChannel.Channel.BeginCommand | ril-telephone/atchannel.c:676-705 | Up to the first wait, the code takes the machine's Begin step, error paths included. |
| AtChannel.Channel.ResumeCommand | ril-telephone/atchannel.c:707-744 | From a wakeup on, the code takes the machine's Resume step, and a response handed out is no longer reachable from the channel. |
| AtChannel.Channel.CheckResponse | ril-telephone/atchannel.c:807-817 | The wrappers free and withhold a successful response without an intermediate line, and nothing else. |
| AtChannel.Channel.CloseChannel | ril-telephone/atchannel.c:608-621 | Closing by at_close, as the machine's AtClose step. |
| AtChannel.Channel.OnReaderClosed | ril-telephone/atchannel.c:419-433 | Closing by the reader, as the machine's ReaderClosed step. |
| ReaderThread.ReaderLoop | ril-telephone/atchannel.c:436-475 | From bytes to dispatch: the channel is always in the state of a run of the protocol, made of the other threads' steps and of one event for each line readline gave up, in order and once, on any stream; the one line that can be missing is an SMS header whose PDU line never came, or the line at which the reader waits for a mutex that is never released. On a framable stream these are the stream's lines for every chunking, unless a read ended right behind a prompt; at the end of input no line is left. |
| EventTimers.MacrosAreArithmetic | upil_event/upil_event.c:34-63 | On normalised timevals the three macros compute in microseconds and stay normalised. |
| EventTimers.InsertKeepsSorted | upil_event/upil_event.c:306-312 | The insertion walk keeps the list sorted and adds exactly the new timer. |
| EventTimers.TiesGoFirst | upil_event/upil_event.c:306-312 | Of timers with one deadline, the one armed last stands first. |
| EventTimers.WalkFindsAllDue | upil_event/upil_event.c:168-175 | On a sorted list the early-stopping walk takes exactly what a full filter on "deadline before now" takes. |
| EventTimers.ExpirySplits | upil_event/upil_event.c:156-178 | processTimeouts cuts the list in two: every timer before now is moved, in order, behind what is pending, and no other. |
| EventTimers.SleepIsExact | upil_event/upil_event.c:218-241 | The sleep is normalised and ends at the smallest deadline of all timers, or at once when that is not ahead. |
| EventTimers.NothingMovesWhileAsleep | upil_event/upil_event.c:156-241 | Up to the instant the sleep ends, when it lies ahead, processTimeouts would move nothing. |
| EventTimers.StepKeepsOk | upil_event/upil_event.c:156-329 | Every operation keeps the split between what was found due and what is queued, and the distinctness of timers. |
| EventTimers.TimersFireInOrder | upil_event/upil_event.c:156-389 | Over every run of the operations: timers fire in non-decreasing deadline order across all batches, never before the timeout their caller passed is over, at most once per upil_timer_add. |
| EventTimers.OrderlyFires | upil_event/upil_event.c:156-389 | What every operation keeps implies just that of the callbacks made so far. |
| EventRings.AddToList | upil_event/upil_event.c:112-119 | The four pointer assignments insert in front of the given node of a well-formed ring. |
| EventRings.RemoveFromList | upil_event/upil_event.c:121-130 | The node leaves a ring that stays well formed, its own links NULL. |
| EventWatch.NothingMissed | upil_event/upil_event.c:186-195 | Stopping the scan once as many events are queued as there are ready ones misses none and removes the same slots. |
| EventWatch.ReadyAt | upil_event/upil_event.c:186-195 | The event of a ready slot is queued behind those of the ready slots before it. |
| EventWatch.ScannedAgain | upil_event/upil_event.c:191-193 | Ready one-shot events have left the table, persistent and unready ones have not. |
| EventWatch.SelectCounts | upil_event/upil_event.c:180-195 | With distinct descriptors, the table has as many ready slots as there are ready watched descriptors. |
| EventWatch.AddKeepsCaches | upil_event/upil_event.c:275-284 | After an add, the fd set is exactly the watched descriptors and nfds the highest plus one. |
| EventWatch.RemoveKeepsCaches | upil_event/upil_event.c:133-154 | After a removal too, with nfds 0 or 1 for an empty table. |
| EventLoop.Context.Init | upil_event/upil_event.c:244-253 | Empty rings, empty table, caches to match. |
| EventLoop.Context.TimerAddEvent | upil_event/upil_event.c:291-317 | On the rings: the timer is due as long after now as its caller asked, and stands at its place in a sorted, well-formed ring. |
| EventLoop.Context.TimerDel | upil_event/upil_event.c:320-329 | On the rings: exactly that timer is gone. |
| EventLoop.Context.ProcessExpired | upil_event/upil_event.c:156-178 | On the rings: the due timers move, in order, to the end of the pending ring. |
| EventLoop.Context.CalcNextTimeout | upil_event/upil_event.c:218-241 | The sleep computed from the ring's first node is that of the whole list. |
| EventLoop.Context.EventAdd | upil_event/upil_event.c:269-288 | The event goes into the first free slot, if there is one, and the caches stay right; with a full table nothing changes. |
| EventLoop.Context.RemoveWatch | upil_event/upil_event.c:133-154 | The slot is emptied and the caches stay right. |
| EventLoop.Context.EventDel | upil_event/upil_event.c:332-346 | A watched event leaves the table and only the table; any other call changes nothing. |
| EventLoop.Context.ProcessReadReadies | upil_event/upil_event.c:180-199 | When n is at least the number of ready watched descriptors, every ready event is queued once, in slot order; one-shot events leave the table, persistent ones stay. |
| EventLoop.Context.FirePending | upil_event/upil_event.c:201-216 | Events called back and events left over are the pending events, in order; the first negative result is the last one and is returned, and without one nothing is left over, whatever timers and descriptors the callbacks delete, and whatever idle events, old or new, they arm. |
| EventLoop.Context.Turn | upil_event/upil_event.c:348-389 | A turn calls back the timers due, in deadline order, then the ready events still watched, in slot order, even when descriptors were deleted or added since the fd set was copied; if no callback is negative it ends with nothing pending; and it keeps what makes timers fire in order. |
| EventLoop.Context.Loop | upil_event/upil_event.c:348-389 | On the rings and the table, for any number of turns and whatever callbacks and other threads arm, arm again or delete: timers fire in deadline order, never early, at most once per upil_timer_add; and no callback runs after one with a negative result, which the loop returns. |
| EchoTiming.TimeDiffIs | upil_audio/audio_utils/echo_reference.c:323-330 | The difference taken with a borrow is the difference in nanoseconds, for all time stamps. |
| EchoTiming.RealignsExactly | upil_audio/audio_utils/echo_reference.c:337-342 | A read realigns exactly when the excess is at least the threshold away from every multiple of 2^32 ns. |
| EchoTiming.RealignsWithinTwoSeconds | upil_audio/audio_utils/echo_reference.c:337-342 | Within the range of `int` the threshold is what it says. |
| EchoTiming.MissedRealignment | upil_audio/audio_utils/echo_reference.c:342 | A concrete delay change that the truncated test misses. |
| EchoTiming.TargetNotBelow | upil_audio/audio_utils/echo_reference.c:343-346 | Short of the expected delay the new frame count is not below the old, so the padding length is not negative. |
| EchoTiming.TargetNotAbove | upil_audio/audio_utils/echo_reference.c:360-364 | Past it, the new count is not above the old, so the shift stays inside the frames. |
| EchoTiming.RealignLength | upil_audio/audio_utils/echo_reference.c:337-403 | A realignment leaves max(count, floor(delay * rate / 10^9)) frames; with or without it at least count, so the subtraction cannot wrap. |
| EchoTiming.RealignKeepsNewest | upil_audio/audio_utils/echo_reference.c:343-388 | Short of the delay the frames are followed by silence; past it the oldest are dropped and the newest stay; below the count about to be delivered the first ones stay, those beyond the delay silenced. |
| EchoTiming.RealignTwice | upil_audio/audio_utils/echo_reference.c:337-388 | Realigning again for the same delay and request changes neither count nor contents. |
| EchoRuns.RealignKeepsOrder | upil_audio/audio_utils/echo_reference.c:337-388 | Leaving silence out, the frames after realignment are a subsequence of those before. |
| EchoRuns.StepKeepsOrder | upil_audio/audio_utils/echo_reference.c:104-419 | Every write, read, wait and reset keeps delivered-then-buffered a subsequence of written. |
| EchoRuns.EventsSay | upil_audio/audio_utils/echo_reference.c:104-293 | On every run: who reads and writes, the render time and delay a read reckons with, and the frames ever put in are those of the writes that counted; sound in the buffer comes from writes since the buffers were last dropped. |
| EchoRuns.ReadGives | upil_audio/audio_utils/echo_reference.c:306-406 | A read gets the first of the frames realigned to both delays less the time from render to capture, as many as it asked for and there are; the others stay. |
| EchoRuns.ConvertIs | upil_audio/audio_utils/echo_reference.c:182-191 | Averaged frames are means rounded down; others are as they were. |
| EchoRuns.NothingDuplicatedOrReordered | upil_audio/audio_utils/echo_reference.c:104-419 | The same on every interleaving from creation on: no frame twice, none out of order. |
| EchoRuns.LosslessWithoutTimeStamps | upil_audio/audio_utils/echo_reference.c:118-419 | While nobody stops and reads carry no time stamp, delivered and buffered frames are exactly those written. |
| EchoReference.Echoer.WriteFrames | upil_audio/audio_utils/echo_reference.c:118-257 | On the buffers: the write step, with conversion to mono and growth, every copy inside its buffer. |
| EchoReference.Echoer.StartRead | upil_audio/audio_utils/echo_reference.c:283-293 | On the buffers: a first read resets, and without a writer the reader gets silence. |
| EchoReference.Echoer.Align | upil_audio/audio_utils/echo_reference.c:337-391 | On the buffers: the realignment step, every copy and zero-fill inside the buffer. |
| EchoReference.Echoer.FinishRead | upil_audio/audio_utils/echo_reference.c:306-406 | On the buffers: the rest of a read; the reader gets the first frames of the aligned buffer and the others move up. |
| EchoReference.Echoer.StopWriting | upil_audio/audio_utils/echo_reference.c:130-135 | On the buffers: a writer that stops empties them. |
| EchoReference.Echoer.StopReading | upil_audio/audio_utils/echo_reference.c:274-278 | A reader that stops leaves the buffered frames alone. |
| EchoReference.Echoer.ResetBuffers | upil_audio/audio_utils/echo_reference.c:104-116 | On the buffers: empty, and no render time. |

## Left out

- Concurrent command callers, and telling a late reply to a timed-out command from the next command's: the code keeps neither apart. `SecondCaller` states what a second caller does.
- `at_open` after the first, `at_handshake`'s retries, the invalid-thread check and the two callbacks that only get called.
- Freed memory itself: `at_response_free`'s walk is a ledger entry, and the copy of an earlier final line that a later one overwrites without freeing is not counted.
- `read`, `write`, `select`, `fcntl`, allocation failure, logging and clock reads: arguments or arbitrary results.
- Framing of streams with a NUL, or with a newline run and line of 8192 characters or more: only the cursor is stated for them, since what is returned depends on how `read` splits them. What the code does once the cursor has left the buffer is not modelled; `ReaderLoop` stops there.
- ReaderThread.ReaderLoop: after a prompt was cut off, which lines come next is stated call by call (`AfterPrompt`, `Readline`), not for the rest of the stream, since it depends on old bytes in the buffer.
- The parts of a PDU or command that a failed `write` may have sent: only whole writes are recorded.
- `at_tok_nexthexint`, `at_tok_nextbool` and other locales' `isspace`.
- Resampling (`upil_audio/audio_utils/resampler.c` and the branch that calls it), the wait time of an echo read, and 32/64-bit overflow of sums and products other than the truncation in `abs`; `abs(INT_MIN)` is taken to stay INT_MIN.
- Descriptors of FD_SETSIZE and more, and time_t overflow.
- `upil_event_init` on a context whose list heads are one object; the mutex of the event loop (each operation is one step, and other threads act between two turns of the loop).
- Mixer, capture and play tools, HID tools, client and state machine: device and file plumbing, or code with other contracts.
