/**
 readerLoop of ril-telephone/atchannel.c, from the bytes of the AT channel to the dispatch of its lines,
 among the other threads' work on the channel. What they all do together is a run of `AtProtocol`.
 */
module ReaderThread {
  import opened CStrings
  import opened Framing
  import opened LineReading
  import opened AtProtocol
  import opened AtRuns
  import opened AtChannel

  predicate PrefixOk(p: Option<string>) {
    p.Some? ==> NUL !in p.value
  }

  /** What the reader relies on in the channel. */
  ghost predicate Ready(ch: Channel)
    reads ch, ch.Repr
  {
    ch.Valid() && PrefixOk(ch.responsePrefix)
  }

  // ---------------------------------------------------------------- the run that the threads are on

  /** The machine's state after `run`. */
  ghost function At(cfg: Config, run: seq<Event>): State
    requires After(cfg, run).Some?
  {
    After(cfg, run).value
  }

  /** The machine, after `run`, has the channel's variables; `call` is the last call registered. */
  ghost predicate On(ch: Channel, run: seq<Event>, call: Call)
    reads ch, ch.response
  {
    && After(ch.cfg, run).Some?
    && At(ch.cfg, run).chan == ch.Abs() && At(ch.cfg, run).call == call && !At(ch.cfg, run).readerGone
  }

  /** From `run` to `run'` the reader took these lines, and then held this SMS header. */
  ghost predicate Went(cfg: Config, run: seq<Event>, run': seq<Event>, lines: seq<string>, held: Option<string>) {
    && run <= run' && After(cfg, run).Some? && After(cfg, run').Some?
    && At(cfg, run').read == At(cfg, run).read + lines && At(cfg, run').held == held
  }

  lemma Taken(cfg: Config, run: seq<Event>, e: Event)
    requires After(cfg, run).Some? && Enabled(cfg, At(cfg, run), e)
    ensures After(cfg, run + [e]) == Some(Step(cfg, At(cfg, run), e))
  {
    hide Step, Enabled;
    assert (run + [e])[..|run|] == run;
  }

  lemma Onward(cfg: Config, a: seq<Event>, b: seq<Event>, c: seq<Event>, ls: seq<string>, held: Option<string>,
      ms: seq<string>, held': Option<string>)
    requires Went(cfg, a, b, ls, held) && Went(cfg, b, c, ms, held')
    ensures Went(cfg, a, c, ls + ms, held')
  {
    hide After;
  }

  // ---------------------------------------------------------------- the other threads

  /** at_close. */
  method CloseStep(ch: Channel, ghost call: Call, ghost run: seq<Event>) returns (ghost run': seq<Event>)
    requires Ready(ch) && On(ch, run, call)
    modifies ch`fdOpen, ch`readerClosed, ch`waiter
    ensures Ready(ch) && On(ch, run', call) && Went(ch.cfg, run, run', [], At(ch.cfg, run).held)
  {
    hide After;
    run' := run + [AtCloseCalled];
    Taken(ch.cfg, run, AtCloseCalled);
    ch.CloseChannel();
  }

  /** The wait of a sleeping command thread ends without a signal, or by its timer. */
  method WakeStep(ch: Channel, call: Call, ghost run: seq<Event>) returns (ghost run': seq<Event>)
    requires Ready(ch) && On(ch, run, call) && ch.waiter == Sleeping
    modifies ch`waiter
    ensures Ready(ch) && On(ch, run', call) && Went(ch.cfg, run, run', [], At(ch.cfg, run).held)
  {
    hide After;
    var timer: bool := *;
    ghost var e := if timer && call.msec != 0 then TimerExpires else SpuriousWakeup;
    run' := run + [e];
    Taken(ch.cfg, run, e);
    ch.waiter := if timer && call.msec != 0 then TimedOut else Signalled;
  }

  /** A command thread that is out of its wait: back into it, or the return of its call. */
  method ReturnStep(ch: Channel, call: Call, ghost run: seq<Event>) returns (ghost run': seq<Event>)
    requires Ready(ch) && On(ch, run, call) && ch.response != null
    requires ch.waiter == Signalled || ch.waiter == TimedOut || ch.waiter == Spinning
    modifies ch, ch.Repr
    ensures Ready(ch) && fresh(ch.Repr - old(ch.Repr))
    ensures On(ch, run', call) && Went(ch.cfg, run, run', [], At(ch.cfg, run).held)
  {
    hide After, Reverse, Rejects;
    ghost var e := if ch.waiter == Spinning then WaitRefused else TakeMutex;
    run' := run + [e];
    Taken(ch.cfg, run, e);
    var err, out := ch.ResumeCommand(call);
    if err.Some? {
      var err', out' := ch.CheckResponse(call, err.value, out);
    }
  }

  /** A new command, when none is under way. */
  method SendStep(ch: Channel, call: Call, ghost run: seq<Event>) returns (call': Call, ghost run': seq<Event>)
    requires Ready(ch) && On(ch, run, call) && ch.waiter == Idle
    modifies ch, ch.Repr
    ensures Ready(ch) && fresh(ch.Repr - old(ch.Repr))
    ensures On(ch, run', call') && Went(ch.cfg, run, run', [], At(ch.cfg, run).held)
  {
    hide After, Refused;
    call', run' := call, run;
    var next, writes, usec := *, *, *;
    if CallOk(next) && PrefixOk(next.prefix) && 0 <= usec < 1000000 {
      run' := run + [Send(next, writes, usec)];
      Taken(ch.cfg, run, Send(next, writes, usec));
      var err := ch.BeginCommand(next, writes, usec);
      if err.None? {
        call' := next;
      }
    }
  }

  /** Whatever one of the other threads does to the channel between two lines. */
  method OtherThreads(ch: Channel, call: Call, ghost run: seq<Event>) returns (call': Call, ghost run': seq<Event>)
    requires Ready(ch) && On(ch, run, call)
    modifies ch, ch.Repr
    ensures Ready(ch) && fresh(ch.Repr - old(ch.Repr))
    ensures On(ch, run', call') && Went(ch.cfg, run, run', [], At(ch.cfg, run).held)
  {
    hide On, Went, Ready, After;
    call' := call;
    if * {
      run' := CloseStep(ch, call, run);
    } else if ch.waiter == Idle {
      call', run' := SendStep(ch, call, run);
    } else if ch.waiter == Sleeping {
      run' := WakeStep(ch, call, run);
    } else if ch.response != null {
      run' := ReturnStep(ch, call, run);
    } else {
      run' := CloseStep(ch, call, run);
    }
  }

  /** Any number of such steps. */
  method Interleave(ch: Channel, call: Call, ghost run: seq<Event>) returns (call': Call, ghost run': seq<Event>)
    requires Ready(ch) && On(ch, run, call)
    modifies ch, ch.Repr
    ensures Ready(ch) && fresh(ch.Repr - old(ch.Repr))
    ensures On(ch, run', call') && Went(ch.cfg, run, run', [], At(ch.cfg, run).held)
  {
    hide Ready, After;
    call', run' := call, run;
    var steps: nat := *;
    while steps > 0
      invariant Ready(ch) && fresh(ch.Repr - old(ch.Repr))
      invariant On(ch, run', call') && Went(ch.cfg, run, run', [], At(ch.cfg, run).held)
    {
      call', run' := OtherThreads(ch, call', run');
      steps := steps - 1;
    }
  }

  // ---------------------------------------------------------------- lines

  /**
   `got` and what is left to read make up the lines of `all`, and a stream without prompts stays one.
   */
  ghost predicate Accounts(all: string, got: seq<string>, left: string) {
    && Framable(left) && Lines(all) == got + Lines(left)
    && (Promptless(all) ==> Promptless(left))
  }

  /** One line for the reader, or the end of its loop; the other threads run while it reads. */
  method NextLine(ch: Channel, r: LineReader, call: Call, ghost run: seq<Event>)
    returns (line: Option<string>, call': Call, eof: bool, ghost run': seq<Event>)
    requires Ready(ch) && On(ch, run, call) && r.InBuffer() && {r, r.buf, r.fd} !! ch.Repr
    modifies ch, ch.Repr, r, r.buf, r.fd
    ensures Ready(ch) && fresh(ch.Repr - old(ch.Repr))
    ensures On(ch, run', call') && Went(ch.cfg, run, run', [], At(ch.cfg, run).held)
    ensures r.Valid() || (r.PastPrompt() && line == Some(PROMPT))
    ensures line.Some? ==> NUL !in line.value && Progress(old(r.fd.input), old(r.cur), r.fd.input, r.cur)
    ensures eof ==> line.None?
    ensures r.fd.failed == old(r.fd.failed) + if line.None? && !eof then 1 else 0
    ensures Framable(old(r.Pending())) && line.Some? && r.Valid() ==>
      Accounts(old(r.Pending()), [line.value], r.Pending())
    ensures Framable(old(r.Pending())) && line.None? ==> Lines(old(r.Pending())) == Lines(r.Pending())
    ensures Framable(old(r.Pending())) && line.None? && eof ==> Lines(r.Pending()) == []
    ensures Framable(old(r.Pending())) && r.PastPrompt() ==> !Promptless(old(r.Pending()))
  {
    hide Framable, Promptless, FirstLine, Remainder, Complete, Run, Lines, After, Went;
    ghost var all := r.Pending();
    var p; ghost var text, looks;
    p, text, eof, looks := r.Readline();
    LinesSplit(all);
    line := None;
    if p.Some? {
      var copy := ReadCString(r.buf, p.value, text);
      line := Some(copy);
    }
    call', run' := Interleave(ch, call, run);
  }

  lemma AccountsLines(all: string, got: seq<string>, left: string)
    requires Accounts(all, got, left)
    ensures Framable(left) && Lines(all) == got + Lines(left) && (Promptless(all) ==> Promptless(left))
  {
  }

  lemma AccountsOn(all: string, mid: string, left: string, a: seq<string>, b: seq<string>)
    requires Accounts(all, a, mid) && Accounts(mid, b, left)
    ensures Accounts(all, a + b, left)
  {
    hide Framable, Promptless, Lines;
    assert a + b + Lines(left) == a + (b + Lines(left));
  }

  /** isSMSUnsolicited. */
  method IsHeader(line: string) returns (r: bool)
    requires NUL !in line
    ensures r <==> IsSmsUnsolicited(line)
  {
    r := StartsWithOneOf(line, SMS_UNSOLICITED);
  }

  /** A line took bytes from the input, or moved the cursor on. */
  predicate Progress(input: string, cur: nat, input': string, cur': nat) {
    |input'| < |input| || (|input'| == |input| && cur' > cur)
  }

  lemma LinesSplit(s: string)
    ensures Complete(s) ==> Lines(s) == [FirstLine(s)] + Lines(Remainder(s))
    ensures !Complete(s) ==> Lines(s) == []
    ensures Complete(s) && Framable(s) ==> Framable(Remainder(s))
    ensures Complete(s) && Promptless(s) ==> Promptless(Remainder(s))
  {
  }

  /** processLine, once it has the mutex. */
  method SingleLineOf(ch: Channel, line: string, ghost call: Call, ghost run: seq<Event>)
    returns (blocked: bool, ghost run': seq<Event>)
    requires Ready(ch) && On(ch, run, call) && NUL !in line && !IsSmsUnsolicited(line) && At(ch.cfg, run).held.None?
    modifies ch, ch.Repr
    ensures Ready(ch) && fresh(ch.Repr - old(ch.Repr)) && On(ch, run', call)
    ensures blocked <==> old(ch.waiter) == Spinning
    ensures blocked ==> ch.waiter == Spinning
    ensures Went(ch.cfg, run, run', if blocked then [] else [line], None)
  {
    hide Deliver, After, IsSmsUnsolicited;
    blocked, run' := ch.waiter == Spinning, run;
    if !blocked {
      var writes: bool := *;
      run' := run + [Line(line, writes)];
      Taken(ch.cfg, run, Line(line, writes));
      ch.ProcessLine(line, writes);
    }
  }

  /** The reader keeps an SMS header while it reads the line after it. */
  lemma HoldHeader(ch: Channel, line: string, call: Call, run: seq<Event>)
    requires On(ch, run, call) && IsSmsUnsolicited(line) && At(ch.cfg, run).held.None?
    ensures On(ch, run + [Line(line, false)], call)
    ensures Went(ch.cfg, run, run + [Line(line, false)], [line], Some(line))
  {
    hide After, IsSmsUnsolicited;
    Taken(ch.cfg, run, Line(line, false));
  }

  /** s_unsolHandler(line1, line2). */
  method UnsolicitedSms(ch: Channel, line1: string, line2: string, ghost call: Call, ghost run: seq<Event>)
    returns (ghost run': seq<Event>)
    requires Ready(ch) && On(ch, run, call) && At(ch.cfg, run).held == Some(line1)
    modifies ch`log
    ensures Ready(ch) && On(ch, run', call) && Went(ch.cfg, run, run', [line2], None)
  {
    hide After, Deliver;
    run' := run + [Line(line2, false)];
    Taken(ch.cfg, run, Line(line2, false));
    if ch.cfg.unsolicitedHandler {
      ch.log := ch.log + [SmsPair(line1, line2)];
    }
  }

  /** onReaderClosed, when it can have the mutex or does not want it. */
  method ReaderGone(ch: Channel, ghost call: Call, ghost run: seq<Event>)
    returns (blocked: bool, ghost run': seq<Event>)
    requires Ready(ch) && On(ch, run, call)
    modifies ch`readerClosed, ch`waiter
    ensures Ready(ch) && (blocked ==> ch.waiter == Spinning)
    ensures blocked ==> On(ch, run', call)
    ensures !blocked ==> After(ch.cfg, run').Some? && At(ch.cfg, run').chan == ch.Abs() && At(ch.cfg, run').readerGone
    ensures Went(ch.cfg, run, run', [], At(ch.cfg, run).held)
  {
    hide After;
    blocked, run' := ch.waiter == Spinning && ch.cfg.closedHandler && !ch.readerClosed, run;
    if !blocked {
      SpinsOpen(ch.cfg, run);
      run' := run + [Eof];
      Taken(ch.cfg, run, Eof);
      ch.OnReaderClosed();
    }
  }

  lemma SpinsOpen(cfg: Config, run: seq<Event>)
    requires After(cfg, run).Some?
    ensures At(cfg, run).chan.waiter.Spinning? ==> !At(cfg, run).chan.readerClosed
  {
    hide After, ResponseOk, LedgerOk, LogOk, OutcomesOk;
    RunsKeepInv(cfg, run);
  }

  // ---------------------------------------------------------------- the loop

  /**
   The lines read since `run`, and the one left undispatched, against the machine: it has taken them all
   and holds an SMS header without its PDU line (`lost`); or it has taken all but the last, for which
   processLine waits.
   */
  ghost predicate Served(cfg: Config, run: seq<Event>, run': seq<Event>, read: seq<string>, lost: Option<string>) {
    if lost.Some? && After(cfg, run').Some? && At(cfg, run').held.None? then
      read != [] && read[|read| - 1] == lost.value && Went(cfg, run, run', read[..|read| - 1], None)
    else
      Went(cfg, run, run', read, lost)
  }

  /** The line after an SMS header. */
  method PduLine(ch: Channel, r: LineReader, line1: string, call: Call, ghost run: seq<Event>)
    returns (gone: bool, call': Call, eof: bool, ghost got: seq<string>, ghost lost: Option<string>,
      ghost run': seq<Event>)
    requires Ready(ch) && On(ch, run, call) && At(ch.cfg, run).held.None? && IsSmsUnsolicited(line1)
    requires r.Valid() && {r, r.buf, r.fd} !! ch.Repr
    modifies ch, ch.Repr, r, r.buf, r.fd
    ensures Ready(ch) && fresh(ch.Repr - old(ch.Repr)) && On(ch, run', call')
    ensures r.Valid() || (r.PastPrompt() && !gone)
    ensures lost == if gone then Some(line1) else None
    ensures if gone then got == [line1] else |got| == 2 && got[0] == line1
    ensures Went(ch.cfg, run, run', got, lost)
    ensures !gone ==> Progress(old(r.fd.input), old(r.cur), r.fd.input, r.cur) && !eof
    ensures r.fd.failed == old(r.fd.failed) + if gone && !eof then 1 else 0
    ensures Framable(old(r.Pending())) && !gone && r.Valid() ==> Accounts(old(r.Pending()), got[1..], r.Pending())
    ensures Framable(old(r.Pending())) && gone ==> Lines(old(r.Pending())) == Lines(r.Pending())
    ensures Framable(old(r.Pending())) && gone && eof ==> Lines(r.Pending()) == []
    ensures Framable(old(r.Pending())) && r.PastPrompt() ==> !Promptless(old(r.Pending()))
  {
    hide Framable, Promptless, IsSmsUnsolicited, Lines, After, Ready, Accounts;
    HoldHeader(ch, line1, call, run);
    ghost var run1 := run + [Line(line1, false)];
    var line; ghost var run2;
    line, call', eof, run2 := NextLine(ch, r, call, run1);
    Onward(ch.cfg, run, run1, run2, [line1], Some(line1), [], Some(line1));
    assert [line1] + [] == [line1];
    if line.None? {
      gone, got, lost, run' := true, [line1], Some(line1), run2;
      return;
    }
    gone, got, lost := false, [line1, line.value], None;
    run' := UnsolicitedSms(ch, line1, line.value, call', run2);
    Onward(ch.cfg, run, run2, run', [line1], Some(line1), [line.value], None);
    assert [line1] + [line.value] == got && got[1..] == [line.value];
  }

  /**
   One turn of readerLoop: a line, or an SMS header and the line after it. `got` is what was read and
   `lost` a line left undispatched: a header without its PDU line, or a line that processLine cannot
   take because a command thread spins with the mutex (`blocked`).
   */
  method ReadOne(ch: Channel, r: LineReader, call: Call, ghost run: seq<Event>)
    returns (gone: bool, blocked: bool, call': Call, eof: bool, ghost got: seq<string>, ghost lost: Option<string>,
      ghost run': seq<Event>)
    requires Ready(ch) && On(ch, run, call) && At(ch.cfg, run).held.None?
    requires r.InBuffer() && {r, r.buf, r.fd} !! ch.Repr
    modifies ch, ch.Repr, r, r.buf, r.fd
    ensures Ready(ch) && fresh(ch.Repr - old(ch.Repr)) && On(ch, run', call')
    ensures r.Valid() || (r.PastPrompt() && (!gone || blocked))
    ensures Served(ch.cfg, run, run', got, lost)
    ensures lost.Some? ==> gone && (if At(ch.cfg, run').held.Some? then IsSmsUnsolicited(lost.value) else blocked)
    ensures blocked ==> gone && !eof && lost.Some? && At(ch.cfg, run').held.None? && ch.waiter == Spinning
    ensures !gone ==> Progress(old(r.fd.input), old(r.cur), r.fd.input, r.cur)
    ensures r.fd.failed == old(r.fd.failed) + if gone && !blocked && !eof then 1 else 0
    ensures Framable(old(r.Pending())) && !gone && r.Valid() ==> Accounts(old(r.Pending()), got, r.Pending())
    ensures Framable(old(r.Pending())) && gone && r.Valid() ==> Lines(old(r.Pending())) == got + Lines(r.Pending())
    ensures Framable(old(r.Pending())) && gone && eof ==> Lines(r.Pending()) == []
    ensures Framable(old(r.Pending())) && r.PastPrompt() ==> !Promptless(old(r.Pending()))
  {
    hide Framable, Promptless, IsSmsUnsolicited, Lines, After, Ready, Accounts, Served, On,
      LineReader.Pending, LineReader.Stop, LineReader.FirstNul;
    PromptIsNoHeader();
    ghost var all := r.Pending();
    gone, blocked, got, lost := false, false, [], None;
    var line;
    line, call', eof, run' := NextLine(ch, r, call, run);
    if line.None? {
      gone := true;
      AllServed(ch.cfg, run, run', got, lost);
      return;
    }
    got := [line.value];
    ghost var run1 := run';
    var sms := IsHeader(line.value);
    if r.Valid() && Framable(all) {
      AccountsLines(all, got, r.Pending());
    }
    if sms {
      ghost var mid := r.Pending();
      gone, call', eof, got, lost, run' := PduLine(ch, r, line.value, call', run');
      Onward(ch.cfg, run, run1, run', [], None, got, lost);
      assert [] + got == got;
      AllServed(ch.cfg, run, run', got, lost);
      if r.Valid() && !gone && Framable(all) {
        AccountsOn(all, mid, r.Pending(), [line.value], got[1..]);
        assert got == [line.value] + got[1..];
      }
      return;
    }
    blocked, run' := SingleLineOf(ch, line.value, call', run');
    Onward(ch.cfg, run, run1, run', [], None, if blocked then [] else [line.value], None);
    if blocked {
      gone, eof, lost := true, false, Some(line.value);
      OneWaits(ch.cfg, run, run', line.value);
    } else {
      AllServed(ch.cfg, run, run', got, lost);
    }
  }

  /**
   readerLoop, from a state after the run `before` of the protocol. The channel is always in the state of
   that run with these events (`run`) of the reader and of the other threads added, whatever those do: so
   all that holds on every run holds here, and each line went where the protocol sends it. The lines taken
   in these events are those that readline gave up, on any stream, in order and once; the one that can be
   missing (`lost`) is an SMS header whose PDU line never came, which the reader holds, or the line at
   which it waits for a mutex that a spinning command thread keeps (`blocked`).

   On a framable stream, however the bytes came in, these are the lines of the stream, unless a read
   ended right behind a prompt (`prompted`); a stream without prompts is never cut there. The loop ends
   at the end of input, with a failed read, with the reader blocked, or with the cursor out of the buffer
   (`overrun`) after a prompt that filled it.
   */
  method ReaderLoop(ch: Channel, r: LineReader, start: Call, ghost before: seq<Event>)
    returns (ghost read: seq<string>, ghost lost: Option<string>, eof: bool, ghost prompted: bool, overrun: bool,
      blocked: bool, ghost run: seq<Event>)
    requires Ready(ch) && On(ch, before, start) && At(ch.cfg, before).held.None?
    requires r.InBuffer() && {r, r.buf, r.fd} !! ch.Repr
    modifies ch, ch.Repr, r, r.buf, r.fd
    ensures Served(ch.cfg, before, run, read, lost) && At(ch.cfg, run).chan == ch.Abs()
    ensures At(ch.cfg, run).readerGone <==> !overrun && !blocked
    ensures ch.cfg.unsolicitedHandler ==> Flatten(ch.log) + Optional(lost) == Flatten(old(ch.log)) + read
    ensures lost.Some? ==> blocked || IsSmsUnsolicited(lost.value)
    ensures blocked ==> ch.waiter == Spinning
    ensures eof || blocked || overrun || r.fd.failed > old(r.fd.failed)
    ensures r.PastPrompt() ==> overrun || blocked
    ensures !r.PastPrompt() ==> r.Valid() && !overrun
    ensures overrun ==> prompted && r.end == MAX_AT_RESPONSE
    ensures Framable(old(r.Pending())) && Promptless(old(r.Pending())) ==> !prompted
    ensures Framable(old(r.Pending())) && !prompted ==>
      r.Valid() && read + Lines(r.Pending()) == Lines(old(r.Pending()))
    ensures Framable(old(r.Pending())) && !prompted && eof ==> read == Lines(old(r.Pending()))
  {
    hide Framable, Promptless, Flatten, Lines, IsSmsUnsolicited, After, Inv;
    ghost var all := r.Pending();
    ghost var framed := Framable(all);
    read, lost, prompted, run := [], None, false, before;
    var call := start;
    var gone := false;
    eof, blocked := false, false;
    while !gone && r.cur <= MAX_AT_RESPONSE
      invariant Ready(ch) && fresh(ch.Repr - old(ch.Repr)) && On(ch, run, call)
      invariant r.Valid() || (r.PastPrompt() && (!gone || blocked) && (prompted || r.InBuffer()))
      invariant Served(ch.cfg, before, run, read, lost) && (!gone ==> lost.None?)
      invariant lost.Some? ==> if At(ch.cfg, run).held.Some? then IsSmsUnsolicited(lost.value) else blocked
      invariant blocked ==> gone && !eof && lost.Some? && At(ch.cfg, run).held.None? && ch.waiter == Spinning
      invariant gone ==> eof || blocked || r.fd.failed > old(r.fd.failed)
      invariant r.fd.failed >= old(r.fd.failed)
      invariant framed && !prompted && !gone ==> Accounts(all, read, r.Pending())
      invariant framed && !prompted && gone ==> r.Valid() && read + Lines(r.Pending()) == Lines(all)
      invariant framed && !prompted && gone && eof ==> Lines(r.Pending()) == []
      invariant framed && Promptless(all) ==> !prompted
      decreases !gone, |r.fd.input|, MAX_AT_RESPONSE + 1 - r.cur
    {
      ghost var got, from := [], run;
      gone, blocked, call, eof, got, lost, run := ReadOne(ch, r, call, run);
      assert r.Valid() ==> read + got + Lines(r.Pending()) == read + (got + Lines(r.Pending()));
      ServedOn(ch.cfg, before, from, run, read, got, lost);
      read := read + got;
      prompted := prompted || r.PastPrompt();
    }
    overrun := !gone;
    if gone && !blocked {
      ghost var from := run;
      blocked, run := ReaderGone(ch, call, run);
      ServedStill(ch.cfg, before, from, run, read, lost);
    }
    LogsServed(ch.cfg, before, run, read, lost);
  }

  lemma AllServed(cfg: Config, run: seq<Event>, run': seq<Event>, read: seq<string>, lost: Option<string>)
    requires Went(cfg, run, run', read, lost)
    ensures Served(cfg, run, run', read, lost)
  {
  }

  lemma OneWaits(cfg: Config, run: seq<Event>, run': seq<Event>, line: string)
    requires Went(cfg, run, run', [], None)
    ensures Served(cfg, run, run', [line], Some(line))
  {
    assert [line][..0] == [];
  }

  lemma ServedOn(cfg: Config, a: seq<Event>, b: seq<Event>, c: seq<Event>, read: seq<string>, got: seq<string>,
      lost: Option<string>)
    requires Went(cfg, a, b, read, None) && Served(cfg, b, c, got, lost)
    ensures Served(cfg, a, c, read + got, lost)
  {
    hide After;
    if lost.Some? && At(cfg, c).held.None? {
      Onward(cfg, a, b, c, read, None, got[..|got| - 1], None);
      assert (read + got)[..|read + got| - 1] == read + got[..|got| - 1];
    } else {
      Onward(cfg, a, b, c, read, None, got, lost);
    }
  }

  lemma ServedStill(cfg: Config, a: seq<Event>, b: seq<Event>, c: seq<Event>, read: seq<string>, lost: Option<string>)
    requires Served(cfg, a, b, read, lost) && Went(cfg, b, c, [], At(cfg, b).held)
    ensures Served(cfg, a, c, read, lost)
  {
    hide After;
  }

  /** So the dispatch log accounts for what was read. */
  lemma LogsServed(cfg: Config, run: seq<Event>, run': seq<Event>, read: seq<string>, lost: Option<string>)
    requires Served(cfg, run, run', read, lost) && At(cfg, run).held.None?
    ensures cfg.unsolicitedHandler ==>
      Flatten(At(cfg, run').chan.log) + Optional(lost) == Flatten(At(cfg, run).chan.log) + read
  {
    hide After, Flatten, ChanOk, LedgerOk, OutcomesOk;
    RunsKeepInv(cfg, run);
    RunsKeepInv(cfg, run');
    var log, log' := Flatten(At(cfg, run).chan.log), Flatten(At(cfg, run').chan.log);
    if cfg.unsolicitedHandler {
      assert log + [] == log && log' + [] == log';
      if lost.Some? && At(cfg, run').held.None? {
        assert read == read[..|read| - 1] + [lost.value];
      }
    }
  }
}
