# Modem control stack: a verified model

A model of the modem control stack of a Zephyr application: the two AT response receivers, the
ownership of the modem UART's receive side with its interrupt handler and passthrough, the shell
commands on top of them, and the power and reset sequencer of the board.

`dafny verify dfyconfig.toml` checks everything.

| module | models |
|---|---|
| `ByteText` | bytes, C strings (the part before the first NUL), `strstr`, chunked streams |
| `Platform` | the clock, which only moves forward, and the UART driver |
| `IrqVerdict` | the interrupt-fed receiver as a function of the chunks it is handed |
| `PollText` | the polling receiver as a function of the bytes it hears; the two compared; trimming |
| `ModemAt` | `modem_at_send`: flush, transmit, receive loop, in-place trimming, diagnostics |
| `ModemAtIrq` | `modem_at_send_irq`: open, write, collect, close, over any transport |
| `RxMachine` | receive ownership as an interleaving of shell thread, interrupt handler and RX thread |
| `ModemShell` | the shell's static state and its methods, refining `RxMachine` |
| `Escape` | the Ctrl-X Ctrl-Q detector of the passthrough |
| `Printers` | the passthrough's hex trace and escaped text |
| `AtCommandLine` | the quote and debug parser of `modem at` |
| `ShellCore` | sender selection, the power-on flow, `modem power`, `modem at` |
| `Board` | PWR_ON and RST pulses and the rail |

How the world outside is represented:

- Everything the environment decides is a script in a field (poll results, device-ready answers,
  return values of board operations, interrupt schedules), and time passing is a script of lags.
  A statement about all scripts is a statement about every behaviour of the environment.
- `k_msleep(n)` advances the clock by n and the next lag of the script; reading the clock advances
  it by the next lag. Contracts say how much time an operation takes, so none can let time pass
  that the code does not.
- The Zephyr ring buffer is a FIFO of 512 bytes: a put stores what fits, a get takes at most the
  requested size, a reset empties it.
- In `ModemShell` the shell thread is cut into its single writes of shared state. Between any
  two of them the schedule may run interrupts (only while the RX interrupt is enabled) and turns
  of the RX thread. One pass of the RX thread's loop is one step, and so is one FIFO read of the
  handler. The ghost history `run` records every write, and `Valid` says that it is a legal run
  of `RxMachine` ending in the present state, so the theorems about runs hold of the class. Each
  write, acquire, release, read, start, stop and forwarded chunk states its run exactly: its own
  writes in order, and after each of them what the schedule does in that gap (`Walk`), so that no
  scheduled interrupt can be skipped.
- Received data is arbitrary, NULs included: "contains" always means within the C string, as
  `strstr` sees it.

What the answers mean is also said without the model's own vocabulary, in plain byte values and
positions: the lemmas named `...InBytes`, `OkIsMeant`, `PairByBytes` and those on plain and quoted
commands. And what an operation does is determined by what it meets: `ReceiveIsDetermined`,
`CollectingIsDetermined`, `CallIsDetermined`, `AttemptIsDetermined` leave one outcome only.

## Results worth knowing

- The verdict of the interrupt-fed receiver does depend on chunk boundaries, for some streams:
  exactly those in which, within the bytes held, "ERROR" completes first and an OK pattern
  completes fewer than 64 bytes later (`IrqVerdict.ChunkingMatters`). `IrqVerdict.StraddlingExample`
  is one, `IrqVerdict.PossibleVerdicts` says for every stream which verdicts it can get.
- The two receivers do not agree on every success. They can disagree exactly on the streams that
  some cutting into 1 to 64 bytes makes a success and in which "\nERROR\n" completes before
  "\nOK\n" once CRs are dropped; the polling receiver then answers "matched error"
  (`PollText.DisagreementExactly`, with a stream and its cutting in `PollText.DisagreementExample`).
- What the text printer shows does not determine the stream. It tells a stream apart from every
  other one if and only if the stream is all printable and spells no escape of an unprintable
  byte (`Printers.PrintIdentifiesExactly`). A reader who takes every such escape for the
  unprintable byte recovers exactly the streams that spell none (`Printers.TextIsLosslessExactly`).
  Each of the others prints like some other stream (`Printers.SpelledEscapeCollides`); of all the
  streams with one print that reader recovers one, and no reader recovers two
  (`Printers.DecoderIsBest`). The trace of a debug session, in contrast, determines every byte
  (`Printers.TraceSessionIsLossless`).
- A quoted command that starts with a blank, or is empty, does not come through as quoted: the
  parser trims again inside the quotes (`AtCommandLine.QuotedCommandComesThrough`).
- The rail can be switched with PWR_ON asserted: exactly in runs with a power-on call that gets
  its rail operation through although PWR_ON was left asserted, which means that the last call to
  assert it ended in a failed release (`Board.RailSwitchedAssertedExactly`, an example in
  `Board.FailedReleaseBreaksOrder`). Power off and both halves of a power cycle never do that,
  whatever state they find (`Board.CallFromAnywhere`). A run keeps every rule and rests with both
  pins released if and only if none of its releases failed (`Board.RunsKeepRules`).
- platform/src/modem-board/inc/modem-board.h:25-30 and 42-45 describe a reset assertion during
  power on and off that platform/src/modem-board/modem-board-core.c:25-60 does not perform. The
  model follows the code.

## Model

| member | source | states |
|---|---|---|
| IrqVerdict.VerdictExact | platform/src/modem-at/modem-at.c:126-168 | for every chunking of every stream: with k and e the lengths at which an OK pattern and "ERROR" first complete in the bytes that fit, the verdict is 0 exactly when k completes and no chunk ends in [e, k); it stays pending (and so times out) exactly when neither completes within responseSize - 1 bytes |
| IrqVerdict.OkIsMeant | platform/src/modem-at/modem-at.c:144-146 | on NUL-free bytes the three OK patterns together are: somewhere 10, 79, 75, followed by 10 or by 13, 10 |
| IrqVerdict.VerdictInBytes | platform/src/modem-at/modem-at.c:126-168 | for every chunking of a NUL-free stream, in byte values: success exactly if some chunk completes such a line in the buffer before any earlier chunk brought "ERROR", a modem error exactly if a chunk brings "ERROR" and none so far a line, none exactly if neither is ever held |
| IrqVerdict.SuccessInBytes | platform/src/modem-at/modem-at.c:144-155 | without "ERROR" in the bytes held, success is that line and nothing else, however the stream is cut |
| IrqVerdict.StandardResponse | platform/src/modem-at/modem-at.c:144-149 | CR LF "OK" CR LF in one chunk is a success |
| IrqVerdict.VerdictOfClearStream | platform/src/modem-at/modem-at.c:144-155 | one kind of terminator, or an OK pattern completing first, gives the same verdict however the stream is cut |
| IrqVerdict.ChunkingMatters | platform/src/modem-at/modem-at.c:126-155 | the verdict is the same for all chunkings into 1 to 64 bytes if and only if it is not the case that "ERROR" completes first and an OK pattern fewer than 64 bytes later |
| IrqVerdict.StraddlingDepends | platform/src/modem-at/modem-at.c:126-155 | on every such stream one chunking yields success and single bytes yield the modem error |
| IrqVerdict.NotStraddlingSettles | platform/src/modem-at/modem-at.c:126-155 | on every other stream the verdict is the terminator that completes first |
| IrqVerdict.PossibleVerdicts | platform/src/modem-at/modem-at.c:126-168 | for each verdict, exactly which streams get it from some cutting into 1 to 64 bytes |
| IrqVerdict.StraddlingExample | platform/src/modem-at/modem-at.c:126-155 | a stream whose verdict depends on its cutting |
| PollText.PollExact | platform/src/modem-at/modem-at.c:267-293 | the byte-by-byte scan equals a search of the whole CR-free stream cut to responseSize - 1: the terminator with the shorter shortest prefix, else full exactly when responseSize or more non-CR bytes arrived |
| PollText.ScanInBytes | platform/src/modem-at/modem-at.c:267-293 | in byte values: of the NUL-free stream without its 13s, cut to responseSize - 1, whichever line 10, 79, 75, 10 or 10, 69, 82, 82, 79, 82, 10 is complete first decides; full exactly when neither is there and responseSize or more bytes came |
| PollText.StripInBytes | platform/src/modem-at/modem-at.c:276-278 | dropping CRs drops the bytes 13 and no other |
| PollText.ScanLatches | platform/src/modem-at/modem-at.c:280-293 | bytes after a decision cannot change it |
| PollText.MatchStopsAtShortestPrefix | platform/src/modem-at/modem-at.c:267-293 | on a match the buffer is the shortest prefix of the CR-free stream containing a terminator and ends with that terminator |
| PollText.OkSurvivesStripping | platform/src/modem-at/modem-at.c:144-146 | any OK pattern of the interrupt receiver leaves "\nOK\n" once CRs are dropped |
| PollText.ReceiversAgree | platform/src/modem-at/modem-at.c:137-155 | if some cutting makes the interrupt receiver answer 0, the polling receiver never fills its buffer and matches OK unless "\nERROR\n" completes earlier in the CR-free stream, and then ERROR |
| PollText.ReceiversAgreeOnSuccess | platform/src/modem-at/modem-at.c:285-293 | if some cutting makes the interrupt receiver answer 0 and the CR-free stream has no "\nERROR\n", the polling receiver matches OK |
| PollText.DisagreementExactly | platform/src/modem-at/modem-at.c:137-155 | the streams on which some cutting makes the interrupt receiver answer 0 while the polling one does not match OK, exactly |
| PollText.DisagreementExample | platform/src/modem-at/modem-at.c:137-155 | such a stream and its cutting |
| PollText.TrimmedIsTheMiddle | platform/src/modem-at/modem-at.c:315-322 | blanks around a NUL-free middle that neither starts nor ends with one are removed, and nothing else |
| PollText.TrimmedInBytes | platform/src/modem-at/modem-at.c:315-322 | the blanks trimmed are the bytes 10 and 32 and no other |
| PollText.TrimmedSplits | platform/src/modem-at/modem-at.c:315-322 | every NUL-free text is blanks, the trimmed text, blanks |
| PollText.TrimmingIsIdempotent | platform/src/modem-at/modem-at.c:315-322 | trimming a trimmed text removes nothing |
| PollText.MatchedResponseEnds | platform/src/modem-at/modem-at.c:285-322 | after a match the trimmed response ends in "OK" or "ERROR" according to the exit reason |
| Platform.Uart.Write | platform/src/modem-at/modem-at.c:175-190 | all of the data is written or none of it; -EINVAL for NULL data with a length, -ENODEV for a device not ready |
| ModemAt.Modem.FlushRx | platform/src/modem-at/modem-at.c:61-72 | polls until the clock shows 50 ms, sleeping 1 ms after each poll without a byte and not otherwise: polls drawn and time taken are exactly those |
| ModemAt.QuietFlush | platform/src/modem-at/modem-at.c:61-72 | on a quiet line and a clock without lag that is 50 polls and 50 ms |
| ModemAt.Modem.ResponseAppend | platform/src/modem-at/modem-at.c:74-86 | the buffer stays terminated at its length and bytesReceived equals it; a full buffer is left unchanged and recorded |
| ModemAt.Modem.TakeByte | platform/src/modem-at/modem-at.c:271-293 | a CR changes nothing, any other byte is appended, and the exit reason is what the contents before the NUL hold, OK first |
| ModemAt.Modem.OnePass | platform/src/modem-at/modem-at.c:267-303 | one iteration moves the buffer and the exit reason as the whole-stream scan does, and the inter-character deadline with each byte |
| ModemAt.Modem.Receive | platform/src/modem-at/modem-at.c:264-304 | the loop terminates; every reading of the clock and every sleep is accounted for, pass by pass; no iteration starts at or after the fixed deadline 5000 ms from its start; it stops at the first decision, fault, or idle poll at least 1000 ms after the last byte and never goes on past one; buffer and bytesReceived hold the CR-free bytes heard; memory past responseSize is untouched |
| ModemAt.TimeIsSleptOut | platform/src/modem-at/modem-at.c:267-304 | the loop lets no time pass but 10 ms for each idle pass, besides the lag its readings meet |
| ModemAt.ReceiveIsDetermined | platform/src/modem-at/modem-at.c:264-304 | line and clock determine every pass and how the loop ends |
| ModemAt.Modem.TrimEnd | platform/src/modem-at/modem-at.c:315-318 | in place, the C string becomes that of the text without its trailing blanks |
| ModemAt.Modem.TrimFront | platform/src/modem-at/modem-at.c:320-322 | the memmove loop terminates, stays in bounds and removes the leading blanks |
| ModemAt.Modem.Trim | platform/src/modem-at/modem-at.c:315-322 | both loops together leave the functional trim of the contents |
| ModemAt.Modem.Send | platform/src/modem-at/modem-at.c:239-326 | error cases touch nothing; otherwise the command and one CR are sent, the loop ended for the recorded reason, and return value, exit reason, bytesReceived and buffer agree: -ENOSPC exactly for a full buffer with responseSize - 1 bytes, -EIO exactly for a UART error, -ETIMEDOUT exactly when no byte arrived, else 0 with the trimmed text and its length; the last UART result is recorded; flush and loop take exactly the time their polls take |
| ModemAt.MatchedCall | platform/src/modem-at/modem-at.c:285-322 | a call that matched stopped at the shortest prefix and its response ends in the matched word |
| ModemAt.GapFreeCallFollowsScan | platform/src/modem-at/modem-at.c:267-304 | a call fed without gaps a stream on which the scan decides ends as the scan says, unless the clock passed the deadline before all of it was heard; always so if the call is over before the deadline |
| ModemAt.GapFreeCallDecides | platform/src/modem-at/modem-at.c:267-304 | meeting less than 5000 ms of lag, such a call ends as the scan says, without exception |
| ModemAt.PromptCall | platform/src/modem-at/modem-at.c:257-304 | the whole call on a clock without lag: a line quiet for the 50 ms of the flush, then a stream without gaps on which the scan decides, gives that decision |
| ModemAt.CallsAgree | platform/src/modem-at/modem-at.c:137-155 | such a polling call matches OK on a stream on which some cutting makes the interrupt receiver answer 0, unless "\nERROR\n" completes earlier, and then ERROR |
| ModemAt.CallsAgreeInTime | platform/src/modem-at/modem-at.c:137-155 | the same with less than 5000 ms of lag and no cut-off |
| ModemAtIrq.StoreChunk | platform/src/modem-at/modem-at.c:137-142 | the buffer is the terminated prefix of everything received, cut to responseSize - 1, and nothing beyond changes |
| ModemAtIrq.TakeChunk | platform/src/modem-at/modem-at.c:137-155 | after a chunk the buffer holds the cut stream and the verdict is that of the chunks so far |
| ModemAtIrq.CollectPass | platform/src/modem-at/modem-at.c:126-167 | one read, the next of the source; a chunk advances stream and deadline or decides; an empty read times out exactly at or after the deadline and otherwise sleeps 10 ms |
| ModemAtIrq.CollectResponse | platform/src/modem-at/modem-at.c:117-168 | terminates; its passes are the reads of the source one after the other, each with exactly its time; the chunks joined are what the transport delivered, and the result is their verdict; -ETIMEDOUT exactly when an empty read meets the deadline, 5000 ms from the start or 1000 ms from the last chunk |
| ModemAtIrq.PromptReadsDecide | platform/src/modem-at/modem-at.c:126-159 | as long as reads bring bytes the clock does not matter: once they hold a terminator the answer is their verdict |
| ModemAtIrq.SilenceBeforeTimeout | platform/src/modem-at/modem-at.c:157-166 | a timeout takes silence: 10 ms per empty read since the last chunk, plus the lag, make up 1000 ms, or 5000 ms if nothing came |
| ModemAtIrq.ChunksAreReads | platform/src/modem-at/modem-at.c:126-142 | the chunks judged are the non-empty reads of the source, in order |
| ModemAtIrq.CollectingIsDetermined | platform/src/modem-at/modem-at.c:126-168 | source and clock determine every pass and the answer |
| ModemAtIrq.WriteCommand | platform/src/modem-at/modem-at.c:104-115 | command then CR, each whole or not at all, by what the device answers to each write |
| ModemAtIrq.Transport.Open | platform/src/modem-shell/modem-shell.c:131-146 | the UART session opens exactly for a ready device and a free line, with nothing delivered; a failed open leaves ownership and buffer as they were |
| ModemAtIrq.Transport.Read | platform/src/modem-at/modem-at.c:127-128 | what any transport returns is at most 64 bytes and is the next part of what it delivers |
| ModemAtIrq.SendIrq | platform/src/modem-at/modem-at.c:205-237 | for every transport: close runs exactly once if open returned 0 and never otherwise; invalid arguments never reach open; over the UART session a call on a free line frees it on every exit, a call on an owned line returns -EBUSY (-ENODEV if the device is not ready), writes no byte and touches neither ring nor owner, and the chunks judged are exactly what the transport delivered |
| ModemAtIrq.CallIsDetermined | platform/src/modem-at/modem-at.c:205-237 | transport, device answers and clock determine the answer, what was written and what is left of all three |
| RxMachine.BytesAreLostOnlyWhenFull | platform/src/modem-shell/modem-shell.c:325 | a put drops the end of a chunk only if it leaves the ring full |
| RxMachine.StepKeepsInv | platform/src/modem-shell/modem-shell.c:80-152 | every single step of every actor keeps ownership and bookkeeping intact |
| RxMachine.RunsKeepInv | platform/src/modem-shell/modem-shell.c:80-152 | so every state of every interleaving satisfies the invariant |
| RxMachine.OwnershipDiscipline | platform/src/modem-shell/modem-shell.c:97-123 | in every reachable state: interrupt on implies an owner, no owner implies an empty ring and interrupt off, an owner implies a configured ring, active implies passthrough ownership and a shell; between operations active holds exactly when passthrough owns the line and AT never does |
| RxMachine.Conservation | platform/src/modem-shell/modem-shell.c:97-129 | while a session owns the line, bytes delivered followed by bytes in the ring are the bytes accepted since its acquire, in order |
| RxMachine.Isolation | platform/src/modem-shell/modem-shell.c:311-353 | every session ever was delivered a prefix of its own accepted bytes, by its own consumer only |
| RxMachine.SessionsGrowAlone | platform/src/modem-shell/modem-shell.c:311-353 | what a session is credited with is exactly what the handler stored while it was current, and a session that is over never changes |
| ModemShell.Shell.StoreRead | platform/src/modem-shell/modem-shell.c:320-325 | one FIFO read is one handler step; nothing is delivered by it |
| ModemShell.Shell.IrqCallback | platform/src/modem-shell/modem-shell.c:311-327 | the run grows by exactly one handler step per FIFO read, cut to 64 bytes, up to the first empty one |
| ModemShell.InterruptStores | platform/src/modem-shell/modem-shell.c:311-327 | so ring and accepted bytes gain everything the FIFO gave, up to the 512 bytes the ring holds, and only what comes after that is lost |
| ModemShell.ScheduledInterruptIsRead | platform/src/modem-shell/modem-shell.c:125-129 | an interrupt before a read is what that read gets, behind the bytes waiting, up to 64 |
| ModemShell.Shell.RunBurst | platform/src/modem-shell/modem-shell.c:311-353 | everything scheduled for a gap happens, in order: interrupts while enabled, and turns of the RX thread |
| ModemShell.Shell.RxThreadTurn | platform/src/modem-shell/modem-shell.c:335-353 | one turn is one step of the RX thread, which takes up to 64 bytes whenever there are any, and nothing unless the passthrough is active; what it shows is the trace or the text of exactly the bytes the turn delivered, and all that a session has shown is the text, or the trace lines, of all it delivered |
| ModemShell.Shell.Preempt | platform/src/modem-shell/modem-shell.c:311-353 | the next gap of the schedule happens, whole and once; handler and RX thread leave everything the shell thread controls alone, and with interrupt off and passthrough inactive the ring too |
| ModemShell.Shell.RxPrepare | platform/src/modem-shell/modem-shell.c:80-95 | -ENODEV without any change, or the line is configured and nothing else changed |
| ModemShell.Shell.RxAcquire | platform/src/modem-shell/modem-shell.c:97-112 | succeeds exactly for a ready device and a free line and begins a session with nothing delivered; failing, it leaves ownership, ring and session alone |
| ModemShell.Shell.RxRelease | platform/src/modem-shell/modem-shell.c:114-123 | the owner's release frees the line; anybody else's changes nothing |
| ModemShell.Shell.RxRead | platform/src/modem-shell/modem-shell.c:125-129 | returns the first 64 bytes of whatever the ring holds after the gap, and appends them to what the present session received |
| ModemShell.Shell.AtSessionOpen | platform/src/modem-shell/modem-shell.c:131-146 | each error with its cause, the buffer written only on success |
| ModemShell.Shell.AtSessionClose | platform/src/modem-shell/modem-shell.c:148-152 | a session opened is always given back |
| ModemShell.Shell.PassthroughStop | platform/src/modem-shell/modem-shell.c:232-246 | an active passthrough ends in the initial control state with the remembered byte cleared; an inactive one is left alone |
| ModemShell.Shell.BypassCallback | platform/src/modem-shell/modem-shell.c:356-389 | the session moves as the reference detector does, the modem gets exactly the newly forwarded bytes, the device is asked once per chunk to forward and not otherwise, and a failed write ends the passthrough with the line free |
| ModemShell.Shell.TypeSession | platform/src/modem-shell/modem-shell.c:356-389 | for every split of a session's input and all answers of the device: the modem gets exactly the chunks before the n-th, where the n-th completes the escape or is the first to meet a device that is not ready; without either the passthrough stays on and everything is forwarded |
| ModemShell.Shell.TypeChunk | platform/src/modem-shell/modem-shell.c:356-389 | the next chunk of an open session is forwarded and the session stays open, or it ends the session and is not forwarded |
| Escape.OneMoreTyped | platform/src/modem-shell/modem-shell.c:356-389 | one more chunk keeps the reference session open exactly when the input so far lacks the pair |
| Escape.StopAtOfPrefix | platform/src/modem-shell/modem-shell.c:364-375 | where a session stops does not depend on what would follow |
| ModemShell.Shell.FindPair | platform/src/modem-shell/modem-shell.c:368-374 | finds the pair exactly when the chunk contains it |
| ModemShell.Shell.Forward | platform/src/modem-shell/modem-shell.c:382-389 | a chunk is forwarded whole or not at all and its last byte remembered |
| ModemShell.Shell.CmdPassthrough | platform/src/modem-shell/modem-shell.c:441-510 | each refusal with its cause and without a trace in the ownership; success starts a fresh session with no byte remembered, over whatever the handler and the RX thread do meanwhile |
| Escape.DetectorIsExact | platform/src/modem-shell/modem-shell.c:364-375 | one remembered byte suffices: after pair-free input the detector fires on a chunk exactly when the whole input so far contains the pair |
| Escape.PairByBytes | platform/src/modem-shell/modem-shell.c:368-374 | the pair is a byte 0x18 with a byte 0x11 right behind it |
| Escape.SessionRefinesSearch | platform/src/modem-shell/modem-shell.c:356-389 | for every split of the input: the session stops at the first chunk that completes the pair, the modem got exactly the earlier chunks, and those never contain the pair |
| Printers.TraceLineRoundTrip | platform/src/modem-shell/modem-shell.c:253-282 | reading a trace line back gives its length and its bytes |
| Printers.TraceInBytes | platform/src/modem-shell/modem-shell.c:259-277 | every character of a trace line: head, length, upper-case hex digits with single spaces, tail |
| Printers.FillTrace | platform/src/modem-shell/modem-shell.c:255-273 | a chunk of 1 to 64 bytes fills 3n - 1 characters and is never truncated |
| Printers.TraceChunk | platform/src/modem-shell/modem-shell.c:253-282 | the line shown is complete, length and all bytes |
| Printers.TraceSessionIsLossless | platform/src/modem-shell/modem-shell.c:253-282 | equal traces of whole sessions come from equal chunks: one line never runs into the next |
| Printers.TracedIsLossless | platform/src/modem-shell/modem-shell.c:341-345 | the trace of a session fits only one stream of bytes |
| Printers.RenderIsChunkInvariant | platform/src/modem-shell/modem-shell.c:284-309 | printing chunk by chunk shows what printing the whole stream would |
| Printers.TextInBytes | platform/src/modem-shell/modem-shell.c:292-305 | 9, 10, 13 and 32 to 126 are shown as they are, every other byte as '<', two upper-case hex digits, '>' |
| Printers.TextIsLosslessExactly | platform/src/modem-shell/modem-shell.c:289-306 | the decoder that reads every escape of an unprintable byte as that byte recovers the stream if and only if the stream does not itself spell such an escape |
| Printers.TextIsInjectiveWithoutOpen | platform/src/modem-shell/modem-shell.c:289-306 | streams without '<' are told apart by what is printed |
| Printers.SpelledEscapeCollides | platform/src/modem-shell/modem-shell.c:289-306 | every stream that spells such an escape prints like some other stream, so no decoder recovers both |
| Printers.DecoderIsBest | platform/src/modem-shell/modem-shell.c:289-306 | of all the streams with one print the decoder recovers one, and no function of the print recovers two |
| Printers.PrintIdentifiesExactly | platform/src/modem-shell/modem-shell.c:289-306 | the print tells a stream apart from all others if and only if the stream is all printable and spells no such escape |
| Printers.RenderOfUnrender | platform/src/modem-shell/modem-shell.c:289-306 | every printable text is the print of what the decoder makes of it |
| Printers.CollisionExample | platform/src/modem-shell/modem-shell.c:292-305 | two different streams that print alike, neither of them identified by its print |
| Printers.PrintTextChunk | platform/src/modem-shell/modem-shell.c:284-309 | a chunk of at most 64 bytes never overflows the text buffer and is shown whole |
| AtCommandLine.ScanAgreesWithParser | platform/src/modem-shell/modem-shell.c:172-199 | for every argument list the shell's early scan and the parser agree about debug |
| AtCommandLine.PlainCommandComesThrough | platform/src/modem-shell/modem-shell-core.c:96-117 | in byte values: behind any blanks (9 to 13, 32) a text that starts with none comes through as it stands, without debug, if and only if it does not open with "--debug" followed by a blank or the end and is not between two equal quotes |
| AtCommandLine.PlainCommandAfterDebug | platform/src/modem-shell/modem-shell-core.c:100-117 | the same behind "--debug" and a blank, with debug, if and only if it is not in quotes |
| AtCommandLine.QuotedTextIsTheCommand | platform/src/modem-shell/modem-shell-core.c:100-117 | what stands in quotes is the command without its leading blanks, or none, with and without debug |
| AtCommandLine.NothingToSend | platform/src/modem-shell/modem-shell-core.c:83-85 | no argument or blanks only give no command and no debug |
| AtCommandLine.OptionOnly | platform/src/modem-shell/modem-shell-core.c:87-112 | the option with nothing but blanks behind it gives debug and no command |
| AtCommandLine.SplitArguments | platform/src/modem-shell/modem-shell-core.c:87-98 | arguments already split are taken as they are: the one behind "--debug", or else the first |
| AtCommandLine.QuotedCommandComesThrough | platform/src/modem-shell/modem-shell-core.c:96-117 | blanks and a quoted c parse to (c, no debug), even if c starts with "--debug", if and only if c is not empty and does not start with a blank |
| AtCommandLine.DebugAndQuotedCommandComeThrough | platform/src/modem-shell/modem-shell-core.c:100-117 | the same behind "--debug" and at least one blank, with debug on |
| AtCommandLine.TrimLeadingSpaces | platform/src/modem-shell/modem-shell-core.c:51-58 | the pointer moves to the string without its leading blanks and stays in bounds |
| AtCommandLine.TrimMatchingQuotes | platform/src/modem-shell/modem-shell-core.c:60-75 | the string becomes what stood between matching quotes, else is unchanged |
| AtCommandLine.ParseAtCommand | platform/src/modem-shell/modem-shell-core.c:77-118 | the pointers and writes in place compute the parse of the original arguments, within one of their buffers |
| AtCommandLine.AtDebugRequested | platform/src/modem-shell/modem-shell.c:172-199 | the scan decides as the parse of the arguments does, changing nothing |
| ShellCore.FlowSucceedsExactly | platform/src/modem-shell/modem-shell-core.c:120-156 | the flow returns 0 exactly when some "AT" and the "AT+KSLEEP=2" were answered with 0; at most four commands; a successful "AT" is followed by at most one more |
| ShellCore.ShellOps.RunAtCommand | platform/src/modem-shell/modem-shell-core.c:33-49 | -ENOSYS without a sender; else one attempt whose answer is the selected sender's own: what an unknown function has written down, the outcome of the polling call or that of the interrupt-fed call, with the UART, transport and clock left as that sender leaves them; over the UART session from a free line never -EBUSY and ownership restored; by either AT call an answer of 0 implies that the command and its CR were written |
| ShellCore.AttemptIsDetermined | platform/src/modem-shell/modem-shell-core.c:33-49 | command and moment determine the answer and the moment after, for every kind of sender |
| ShellCore.ShellOps.SenderOrder | platform/src/modem-shell/modem-shell-core.c:19-31 | power-on falls back from its own sender to the runtime one to the plain one, runtime commands from the second to the third |
| ShellCore.ShellOps.DisableSleepAfterPowerOn | platform/src/modem-shell/modem-shell-core.c:120-156 | after at least 10 s: one to three "AT", only the last of them successful, then one "AT+KSLEEP=2", or three failed "AT" and nothing more; each attempt is answered by the sender itself, from the moment the one before left; no attempt from a free line finds it taken |
| ShellCore.ShellOps.CmdPower | platform/src/modem-shell/modem-shell-core.c:192-232 | the board goes through the requested call; nothing is sent for "off", an unknown word or a failed board call; else the result is that of the sleep-disabling flow |
| ShellCore.PowerWords | platform/src/modem-shell/modem-shell-core.c:203-216 | which bytes are "on", "off" and "cycle" |
| ShellCore.ShellOps.CmdAt | platform/src/modem-shell/modem-shell-core.c:234-295 | refused with its cause, or exactly one attempt with exactly the parsed command, answered by the selected sender itself |
| ShellCore.CmdModemPower | platform/src/modem-shell/modem-shell.c:411-423 | on and cycle are refused on an owned line without any effect; otherwise ownership is as before and no attempt finds the line taken |
| ShellCore.CmdModemAt | platform/src/modem-shell/modem-shell.c:425-439 | refused on an owned line without any effect; otherwise the command runs and ends on a free line, and the shell's logging equals the parser's debug flag |
| Board.Ops.PwrOnPulse | platform/src/modem-board/modem-board-core.c:14-23 | the operations attempted for every pattern of failures: nothing after a failed assertion |
| Board.Ops.PowerOnCore | platform/src/modem-board/modem-board-core.c:25-45 | the operations attempted, in order, up to the first failure |
| Board.Ops.PowerOffCore | platform/src/modem-board/modem-board-core.c:47-60 | the rail is switched only after a completed pulse |
| Board.Ops.PowerCycleCore | platform/src/modem-board/modem-board-core.c:62-71 | a power off, the pause, a power on; nothing after a failed off |
| Board.Ops.ResetPulseCore | platform/src/modem-board/modem-board-core.c:73-87 | a 200 ms pulse, abandoned at the first failure |
| Board.CallKeepsRules | platform/src/modem-board/modem-board-core.c:14-87 | from rest, any call with any failures keeps every rule (pulses of 250, 1500 or 200 ms, rail not even attempted with PWR_ON asserted, rail off only straight after a completed 1500 ms pulse), and ends with both pins released if and only if no release failed |
| Board.CallFromAnywhere | platform/src/modem-board/modem-board-core.c:14-87 | from any state: a call that asserts PWR_ON leaves it asserted exactly when its last operation is a failed release; only a power-on that finds it asserted, and whose rail operation works, switches the rail like that; no call mends a state that is not at rest |
| Board.PowerOnWhileAsserted | platform/src/modem-board/modem-board-core.c:25-45 | finding PWR_ON asserted, a power-on keeps the rules only if it stops at its readiness check |
| Board.RunsKeepRules | platform/src/modem-board/modem-board-core.c:14-87 | a run of calls with any failures has kept every rule and released both pins if and only if no release in it failed |
| Board.LeftAssertedIsThePin | platform/src/modem-board/modem-board-core.c:14-23 | PWR_ON is asserted after a run exactly when the last call that asserted it ended in a failed release |
| Board.RailSwitchedAssertedExactly | platform/src/modem-board/modem-board-core.c:25-60 | the rail is switched with PWR_ON asserted exactly in the runs with a power-on whose rail operation works while PWR_ON was left asserted |
| Board.FailedReleaseBreaksOrder | platform/src/modem-board/modem-board-core.c:25-60 | such a run: a power-off whose release fails, then a power-on in which everything works and the rail is switched with PWR_ON asserted |
| Board.CycleRestsTheRail | platform/src/modem-board/modem-board-core.c:62-71 | a successful cycle has at least 500 ms of sleep between rail off and rail on |

## Left out

- Zephyr itself (ring buffer, UART and GPIO drivers, shell, threads, sleep): present only as the small contracts above.
- Races inside one pass of the RX thread, and that pass against a ring reset: the code does not synchronise them, so one pass is one step.
- Bytes arriving while the RX interrupt is disabled are not in the schedule: what the hardware FIFO keeps of them shows up in a later interrupt.
- Time spent in `uart_poll_out` is not modelled, and the RX thread's sleeps only as turns it does not take.
- Printing, logging and message formatting, and registration of the commands.
- `modem status`, `modem reset` beyond the board call, and the reading of the board status, whose outcome is a parameter of the commands.
- platform/src/modem-board/modem-board.c: driver glue and the voltage scaling.
- `modem_at_uart_read_byte`, `modem_at_get_last_diagnostics` and `modem_at_exit_reason_str`: accessors.
- A transport other than the UART session: its open is taken to leave an empty string in the buffer, as the shell's does; time spent in its callbacks shows up at the next reading of the clock.
- NULL entries of a transport table: folded into the case of no transport, which returns the same error.
- Diagnostics of the interrupt-fed call: it records none, so nothing is stated about them.
- Board: a failed operation is taken to leave its pin as it was.
- Integer widths: lengths stay below the buffer sizes and uptime is 64 bits wide in the source, so nothing wraps.
- A sender other than the two AT calls may answer, write to the modem and wait as it likes, but is taken not to touch the receive ownership.
- ShellCore.ShellOps.CmdPower: what a failed attempt may have written to the modem is not restated there.
- Responses with NUL bytes: the receivers' statements hold with the C string reading of "contains"; trimming is characterised on NUL-free text.
