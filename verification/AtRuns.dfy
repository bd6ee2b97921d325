/** What holds on every run of the AT protocol machine. */
module AtRuns {
  import opened CStrings
  import opened AtProtocol

  // ---------------------------------------------------------------- the response a window asks for

  function Last(w: seq<string>): string
    requires w != []
  {
    w[|w| - 1]
  }

  function Front(w: seq<string>): seq<string>
    requires w != []
  {
    w[..|w| - 1]
  }

  /** The last final line. */
  function LastFinal(w: seq<string>): Option<string> {
    if w == [] then None else if IsFinal(Last(w)) then Some(Last(w)) else LastFinal(Front(w))
  }

  /** The lines that are not final. */
  function Body(w: seq<string>): seq<string> {
    if w == [] then [] else if IsFinal(Last(w)) then Body(Front(w)) else Body(Front(w)) + [Last(w)]
  }

  /** `w` without the first prompt in it. */
  function WithoutPrompt(w: seq<string>): seq<string> {
    if w == [] then []
    else if PROMPT in Front(w) then WithoutPrompt(Front(w)) + [Last(w)]
    else if Last(w) == PROMPT then Front(w)
    else w
  }

  /** Whether a line is of the kind a command asks for. */
  predicate Fits(call: Call, line: string) {
    match call.kind
    case NoResult => false
    case Numeric => line != "" && IsDigit(line[0])
    case SingleLine => call.prefix.Some? && call.prefix.value <= line
    case MultiLine => call.prefix.Some? && call.prefix.value <= line
  }

  function Fitting(call: Call, w: seq<string>): seq<string> {
    if w == [] then []
    else if Fits(call, Last(w)) then Fitting(call, Front(w)) + [Last(w)]
    else Fitting(call, Front(w))
  }

  /** The lines left once finals and, for an SMS command, the first prompt are taken out. */
  function Offered(call: Call, w: seq<string>): seq<string> {
    if call.pdu.Some? then WithoutPrompt(Body(w)) else Body(w)
  }

  /**
   The intermediate lines a command is owed out of the lines processed during its window: all that
   fit for a multi-line command, the first that fits otherwise.
   */
  function Owed(call: Call, w: seq<string>): seq<string> {
    var fit := Fitting(call, Offered(call, w));
    if call.kind.MultiLine? || fit == [] then fit else [fit[0]]
  }

  /** The reply is the one its window asks for. */
  predicate Answers(reply: Reply, call: Call, w: seq<string>) {
    && reply.lines == Owed(call, w)
    && reply.final == LastFinal(w)
    && (reply.success <==> reply.final.Some? && IsFinalSuccess(reply.final.value))
  }

  // ---------------------------------------------------------------- the invariant

  /** The pending response against the window so far. */
  predicate ResponseOk(c: Chan, call: Call, w: seq<string>)
    requires c.response.Some?
  {
    var r := c.response.value;
    && c.kind == call.kind && c.prefix == call.prefix
    && Answers(Reply(r.id, r.success, r.final, Reverse(r.stack)), call, w)
    && c.pdu == (if PROMPT in Body(w) then None else call.pdu)
    && (c.pduWrites == [] || (PROMPT in Body(w) && call.pdu.Some? && c.pduWrites == [call.pdu.value]))
  }

  /** The condition variable: a waiter has a response; one asleep and not signalled has nothing to take. */
  predicate WaiterOk(c: Chan) {
    && (c.waiter.Idle? <==> c.response.None?)
    && (c.response.None? ==> c.prefix.None? && c.pdu.None?)
    && (c.waiter.Sleeping? || c.waiter.Spinning? ==> c.response.value.final.None? && !c.readerClosed)
  }

  function Ids(n: nat): seq<nat> {
    if n == 0 then [] else Ids(n - 1) + [n - 1]
  }

  /** The responses left with callers. */
  function Kept(os: seq<Outcome>): seq<nat> {
    if os == [] then []
    else
      var o := os[|os| - 1];
      Kept(os[..|os| - 1]) + if o.ret.reply.Some? then [o.ret.reply.value.id] else []
  }

  function PendingId(c: Chan): seq<nat> {
    if c.response.Some? then [c.response.value.id] else []
  }

  /** Freed, left with a caller or pending: every response allocated, and none of them twice. */
  predicate LedgerOk(freed: seq<nat>, kept: seq<nat>, pending: seq<nat>, issued: nat) {
    multiset(freed + kept + pending) == multiset(Ids(issued))
  }

  /** The lines a dispatch log accounts for. */
  function Flatten(log: seq<Dispatch>): seq<string> {
    if log == [] then []
    else
      var d := log[|log| - 1];
      Flatten(log[..|log| - 1]) + if d.SmsPair? then [d.header, d.pdu] else [d.line]
  }

  function Optional(o: Option<string>): seq<string> {
    if o.Some? then [o.value] else []
  }

  predicate LogOk(cfg: Config, log: seq<Dispatch>, held: Option<string>, read: seq<string>) {
    cfg.unsolicitedHandler ==> Flatten(log) + Optional(held) == read
  }

  predicate OutcomeOk(o: Outcome) {
    && !o.ret.err.CommandPending?
    && (o.ret.reply.Some? ==> Answers(o.ret.reply.value, o.call, o.window) && o.call.wantsOut)
    && (o.ret.err.Ok? ==> LastFinal(o.window).Some?)
    && (o.ret.err.Ok? && o.call.wantsOut ==> o.ret.reply.Some? && !Rejects(o.call, o.ret))
    && (o.ret.err.InvalidResponse? ==>
          && o.ret.reply.None? && o.call.wantsOut && (o.call.kind.Numeric? || o.call.kind.SingleLine?)
          && LastFinal(o.window).Some? && IsFinalSuccess(LastFinal(o.window).value)
          && Owed(o.call, o.window) == [])
  }

  predicate OutcomesOk(os: seq<Outcome>) {
    forall i | 0 <= i < |os| :: OutcomeOk(os[i])
  }

  predicate ChanOk(c: Chan, call: Call, w: seq<string>) {
    WaiterOk(c) && (c.response.Some? ==> ResponseOk(c, call, w))
  }

  predicate Inv(cfg: Config, s: State) {
    && ChanOk(s.chan, s.call, s.window)
    && LedgerOk(s.chan.freed, Kept(s.outcomes), PendingId(s.chan), s.chan.issued)
    && LogOk(cfg, s.chan.log, s.held, s.read)
    && OutcomesOk(s.outcomes)
  }

  // ---------------------------------------------------------------- one more line

  lemma {:induction false} FittingSnoc(call: Call, w: seq<string>, line: string)
    ensures Fitting(call, w + [line]) == Fitting(call, w) + if Fits(call, line) then [line] else []
  {
  }

  lemma BodySnoc(w: seq<string>, line: string)
    ensures Body(w + [line]) == if IsFinal(line) then Body(w) else Body(w) + [line]
    ensures LastFinal(w + [line]) == if IsFinal(line) then Some(line) else LastFinal(w)
  {
  }

  lemma WithoutPromptSnoc(w: seq<string>, line: string)
    ensures WithoutPrompt(w + [line]) ==
      if PROMPT !in w && line == PROMPT then WithoutPrompt(w) else WithoutPrompt(w) + [line]
  {
    assert Front(w + [line]) == w;
    NoPromptInside(w);
  }

  lemma {:induction false} NoPromptInside(w: seq<string>)
    ensures PROMPT !in w ==> WithoutPrompt(w) == w
  {
    if w != [] {
      assert w == Front(w) + [Last(w)];
    }
  }

  /** How the lines owed grow when one more line is processed. */
  lemma OwedSnoc(call: Call, w: seq<string>, line: string)
    ensures IsFinal(line) || (call.pdu.Some? && PROMPT !in Body(w) && line == PROMPT) ==>
      Owed(call, w + [line]) == Owed(call, w)
    ensures !IsFinal(line) && !(call.pdu.Some? && PROMPT !in Body(w) && line == PROMPT) ==>
      Owed(call, w + [line]) == Owed(call, w)
        + if Accepts(call.kind, call.prefix, Owed(call, w) == [], line) then [line] else []
  {
    hide IsFinal, WithoutPrompt, Body, Fitting;
    BodySnoc(w, line);
    WithoutPromptSnoc(Body(w), line);
    FittingSnoc(call, Offered(call, w), line);
  }

  lemma ReverseCons(line: string, s: seq<string>)
    ensures Reverse([line] + s) == Reverse(s) + [line]
  {
  }

  /** processLine keeps the pending response what its window asks for. */
  lemma DeliverKeepsResponse(cfg: Config, c: Chan, call: Call, w: seq<string>, line: string, writes: bool)
    requires c.response.Some? && ResponseOk(c, call, w)
    ensures Deliver(cfg, c, line, writes).response.Some?
    ensures ResponseOk(Deliver(cfg, c, line, writes), call, w + [line])
  {
    hide IsFinalSuccess, IsFinalError, Owed, Body, LastFinal;
    OwedSnoc(call, w, line);
    BodySnoc(w, line);
    ClassesDisjoint(line);
    ReverseCons(line, c.response.value.stack);
  }

  lemma FlattenSnoc(log: seq<Dispatch>, d: Dispatch)
    ensures Flatten(log + [d]) == Flatten(log) + if d.SmsPair? then [d.header, d.pdu] else [d.line]
  {
  }

  /** processLine dispatches the line exactly once, and leaves everything else as it was. */
  lemma DeliverLogs(cfg: Config, c: Chan, line: string, writes: bool)
    ensures var d := Deliver(cfg, c, line, writes);
      && d.issued == c.issued && d.freed == c.freed && PendingId(d) == PendingId(c)
      && (cfg.unsolicitedHandler ==> Flatten(d.log) == Flatten(c.log) + [line])
  {
    hide IsFinalSuccess, IsFinalError, Accepts, Flatten, StartsWithAny, Reverse;
    FlattenSnoc(c.log, Unsolicited(line));
    FlattenSnoc(c.log, Final(line));
    FlattenSnoc(c.log, Prompt(line));
    FlattenSnoc(c.log, Intermediate(line));
  }

  /**
   Where processLine sends a line shows in what else it does. A final line of a pending command is logged
   as such, with the flag of its class; a prompt is logged if and only if it took the PDU; an
   intermediate line if and only if it joined the lines of the pending command. All others change
   nothing but the log, and go to the unsolicited handler if and only if one is installed.
   */
  lemma DispatchShows(cfg: Config, c: Chan, line: string, writes: bool)
    ensures var d := Deliver(cfg, c, line, writes);
      if c.response.Some? && IsFinal(line) then
        && d.log == c.log + [Final(line)] && d.response.Some? && d.response.value.final == Some(line)
        && (d.response.value.success <==> IsFinalSuccess(line))
      else if d.pdu != c.pdu then
        d.log == c.log + [Prompt(line)] && c.pdu.Some? && d.pdu.None? && d.response == c.response
      else if d.response != c.response then
        && d.log == c.log + [Intermediate(line)] && c.response.Some?
        && d.response == Some(c.response.value.(stack := [line] + c.response.value.stack))
      else
        d == c.(log := if cfg.unsolicitedHandler then c.log + [Unsolicited(line)] else c.log)
  {
    hide IsFinalSuccess, IsFinalError, Accepts;
    ClassesDisjoint(line);
    if c.response.Some? {
      var s := c.response.value.stack;
      assert |[line] + s| == |s| + 1;
    }
  }

  /** A final line signals the waiter; no other line has to. */
  lemma DeliverSignals(cfg: Config, c: Chan, line: string, writes: bool)
    requires WaiterOk(c) && !c.waiter.Spinning?
    ensures WaiterOk(Deliver(cfg, c, line, writes))
  {
    hide IsFinalSuccess, IsFinalError, Accepts;
  }

  // ---------------------------------------------------------------- one step

  lemma KeptSnoc(os: seq<Outcome>, o: Outcome)
    ensures Kept(os + [o]) == Kept(os) + if o.ret.reply.Some? then [o.ret.reply.value.id] else []
  {
  }

  lemma LineKeepsInv(cfg: Config, s: State, line: string, writes: bool)
    requires Inv(cfg, s) && Enabled(cfg, s, Line(line, writes))
    ensures Inv(cfg, OnLine(cfg, s, line, writes))
  {
    hide Deliver, ResponseOk, OutcomesOk, LedgerOk, IsSmsUnsolicited, Kept, PendingId, WaiterOk, LogOk;
    LineKeepsLog(cfg, s, line, writes);
    LineKeepsChan(cfg, s, line, writes);
    DeliverLogs(cfg, s.chan, line, writes);
  }

  lemma LineKeepsLog(cfg: Config, s: State, line: string, writes: bool)
    requires LogOk(cfg, s.chan.log, s.held, s.read)
    ensures var t := OnLine(cfg, s, line, writes); LogOk(cfg, t.chan.log, t.held, t.read)
  {
    hide Deliver, IsSmsUnsolicited, WaiterOk, Flatten;
    DeliverLogs(cfg, s.chan, line, writes);
    if s.held.Some? {
      FlattenSnoc(s.chan.log, SmsPair(s.held.value, line));
    }
  }

  lemma LineKeepsChan(cfg: Config, s: State, line: string, writes: bool)
    requires ChanOk(s.chan, s.call, s.window) && Enabled(cfg, s, Line(line, writes))
    ensures var t := OnLine(cfg, s, line, writes);
      ChanOk(t.chan, t.call, t.window) && PendingId(t.chan) == PendingId(s.chan)
  {
    hide Deliver, IsSmsUnsolicited, Flatten, Answers, Body;
    DeliverLogs(cfg, s.chan, line, writes);
    if !s.chan.waiter.Spinning? {
      DeliverSignals(cfg, s.chan, line, writes);
    }
    if s.chan.response.Some? {
      DeliverKeepsResponse(cfg, s.chan, s.call, s.window, line, writes);
    }
  }

  lemma OutcomesSnoc(os: seq<Outcome>, o: Outcome)
    requires OutcomesOk(os) && OutcomeOk(o)
    ensures OutcomesOk(os + [o])
  {
  }

  /** Sending: refused before anything is registered, or registered with an empty window. */
  lemma SendKeepsInv(cfg: Config, s: State, call: Call, writes: bool, usec: int)
    requires Inv(cfg, s) && Enabled(cfg, s, Send(call, writes, usec))
    ensures Inv(cfg, Step(cfg, s, Send(call, writes, usec)))
  {
    hide OutcomesOk, LogOk, Kept, LedgerOk, ResponseOk, OutcomeOk, Finish;
    var (c, err) := Begin(s.chan, call, writes, usec);
    if err.Some? {
      var o := Outcome(call, Return(err.value, None), []);
      RefusedOk(o, c.freed);
      KeptSnoc(s.outcomes, o);
      OutcomesSnoc(s.outcomes, o);
      assert Kept(s.outcomes) + [] == Kept(s.outcomes);
    } else {
      NewResponseOk(c, call);
      NewId(s.chan.freed, Kept(s.outcomes), s.chan.issued);
    }
  }

  lemma RefusedOk(o: Outcome, freed: seq<nat>)
    requires o.ret.err.ChannelClosed? || o.ret.err.Generic?
    requires o.ret.reply.None?
    ensures OutcomeOk(o) && Finish(o.call, o.ret, freed) == (o.ret, freed)
  {
    hide Answers, Owed, LastFinal, IsFinalSuccess;
  }

  lemma NewResponseOk(c: Chan, call: Call)
    requires c.kind == call.kind && c.prefix == call.prefix && c.pdu == call.pdu && c.pduWrites == []
    requires c.response.Some?
    requires var r := c.response.value; !r.success && r.final.None? && r.stack == []
    ensures ResponseOk(c, call, [])
  {
  }

  lemma NewId(freed: seq<nat>, kept: seq<nat>, issued: nat)
    requires LedgerOk(freed, kept, [], issued)
    ensures LedgerOk(freed, kept, [issued], issued + 1)
  {
  }

  /** A pending response is freed, or left with the caller. */
  lemma SettleId(freed: seq<nat>, kept: seq<nat>, id: nat, issued: nat)
    requires LedgerOk(freed, kept, [id], issued)
    ensures LedgerOk(freed + [id], kept, [], issued)
    ensures LedgerOk(freed, kept + [id], [], issued)
  {
  }

  /** The command thread has the mutex again: it sleeps on, or returns what its window asks for. */
  lemma TakeMutexKeepsInv(cfg: Config, s: State)
    requires Inv(cfg, s) && Enabled(cfg, s, TakeMutex)
    ensures Inv(cfg, Step(cfg, s, TakeMutex))
  {
    hide OutcomesOk, LogOk, Kept, LedgerOk, Owed, LastFinal, Body, IsFinalSuccess;
    var (c, ret) := Resume(s.chan, s.call);
    if ret.Some? {
      var o := Outcome(s.call, Finish(s.call, ret.value, c.freed).0, s.window);
      SettleId(s.chan.freed, Kept(s.outcomes), s.chan.response.value.id, s.chan.issued);
      KeptSnoc(s.outcomes, o);
      assert OutcomeOk(o);
      OutcomesSnoc(s.outcomes, o);
      assert Kept(s.outcomes) + [] == Kept(s.outcomes);
    }
  }

  /** A refused wait comes straight back, with nothing to take. */
  lemma RefusedChangesNothing(cfg: Config, s: State)
    requires Inv(cfg, s) && Enabled(cfg, s, WaitRefused)
    ensures Step(cfg, s, WaitRefused) == s
  {
  }

  lemma OtherKeepsInv(cfg: Config, s: State, e: Event)
    requires Inv(cfg, s) && Enabled(cfg, s, e)
    requires e.Eof? || e.AtCloseCalled? || e.SpuriousWakeup? || e.TimerExpires?
    ensures Inv(cfg, Step(cfg, s, e))
  {
  }

  lemma StepKeepsInv(cfg: Config, s: State, e: Event)
    requires Inv(cfg, s) && Enabled(cfg, s, e)
    ensures Inv(cfg, Step(cfg, s, e))
  {
    hide Inv;
    match e
    case Send(call, writes, usec) => SendKeepsInv(cfg, s, call, writes, usec);
    case Line(line, writes) => LineKeepsInv(cfg, s, line, writes);
    case TakeMutex => TakeMutexKeepsInv(cfg, s);
    case WaitRefused => RefusedChangesNothing(cfg, s);
    case _ => OtherKeepsInv(cfg, s, e);
  }

  /** Every reachable state of every interleaving satisfies the invariant. */
  lemma {:induction false} RunsKeepInv(cfg: Config, es: seq<Event>)
    requires After(cfg, es).Some?
    ensures Inv(cfg, After(cfg, es).value)
  {
    hide Step, Inv, Enabled;
    if es == [] {
      InitOk(cfg);
    } else {
      RunsKeepInv(cfg, es[..|es| - 1]);
      StepKeepsInv(cfg, After(cfg, es[..|es| - 1]).value, es[|es| - 1]);
    }
  }

  lemma InitOk(cfg: Config)
    ensures Inv(cfg, Init())
  {
  }

  // ---------------------------------------------------------------- what callers may rely on

  /**
   Every response handed back, on every run: it holds exactly the lines its kind accepts among those
   processed between its registration and its return, in order of arrival; its final line is the
   last one of that window, and the success flag is that line's class.
   */
  lemma HandedBack(cfg: Config, es: seq<Event>, i: nat)
    requires After(cfg, es).Some? && i < |After(cfg, es).value.outcomes|
    ensures var o := After(cfg, es).value.outcomes[i];
      o.ret.reply.Some? ==> Answers(o.ret.reply.value, o.call, o.window)
  {
    RunsKeepInv(cfg, es);
  }

  // ---------------------------------------------------------------- the window, read off the run

  function LinesIn(es: seq<Event>): seq<string> {
    if es == [] then []
    else
      var e := es[|es| - 1];
      LinesIn(es[..|es| - 1]) + if e.Line? then [e.line] else []
  }

  /** Whether the next line is the PDU line of an SMS header; `pairing` says so for the first line. */
  predicate Pairing(lines: seq<string>, pairing: bool) {
    if lines == [] then pairing else !Pairing(Front(lines), pairing) && IsSmsUnsolicited(Last(lines))
  }

  /** The lines that go to processLine: all but SMS headers and the lines right after them. */
  function Processed(lines: seq<string>, pairing: bool): seq<string> {
    if lines == [] then []
    else if Pairing(Front(lines), pairing) || IsSmsUnsolicited(Last(lines)) then Processed(Front(lines), pairing)
    else Processed(Front(lines), pairing) + [Last(lines)]
  }

  lemma OneLine(lines: seq<string>, line: string, pairing: bool)
    ensures Pairing(lines + [line], pairing) == (!Pairing(lines, pairing) && IsSmsUnsolicited(line))
    ensures Processed(lines + [line], pairing) == Processed(lines, pairing)
      + if Pairing(lines, pairing) || IsSmsUnsolicited(line) then [] else [line]
  {
  }

  /** While no command is sent, the window grows by the lines processed, and nothing else. */
  lemma {:induction false} WindowGrows(cfg: Config, s: State, es: seq<Event>)
    requires From(cfg, s, es).Some? && forall i | 0 <= i < |es| :: !es[i].Send?
    ensures var t := From(cfg, s, es).value;
      && t.window == s.window + Processed(LinesIn(es), s.held.Some?)
      && t.held.Some? == Pairing(LinesIn(es), s.held.Some?)
      && t.call == s.call
  {
    hide Step, Enabled, IsSmsUnsolicited;
    if es != [] {
      var e := es[|es| - 1];
      var front := es[..|es| - 1];
      WindowGrows(cfg, s, front);
      OneEvent(cfg, From(cfg, s, front).value, e);
      if e.Line? {
        OneLine(LinesIn(front), e.line, s.held.Some?);
      } else {
        assert LinesIn(es) == LinesIn(front);
      }
    }
  }

  lemma OneEvent(cfg: Config, t: State, e: Event)
    requires Enabled(cfg, t, e) && !e.Send?
    ensures var u := Step(cfg, t, e);
      && u.call == t.call
      && u.window == t.window + (if e.Line? && t.held.None? && !IsSmsUnsolicited(e.line) then [e.line] else [])
      && u.held.Some? == (if e.Line? then t.held.None? && IsSmsUnsolicited(e.line) else t.held.Some?)
  {
  }

  /** A run in two parts. */
  lemma {:induction false} FromConcat(cfg: Config, s: State, a: seq<Event>, b: seq<Event>)
    requires From(cfg, s, a).Some?
    ensures From(cfg, s, a + b) == From(cfg, From(cfg, s, a).value, b)
    decreases |b|
  {
    hide Step, Enabled;
    if b == [] {
      assert a + b == a;
    } else {
      assert (a + b)[..|a + b| - 1] == a + b[..|b| - 1];
      FromConcat(cfg, s, a, b[..|b| - 1]);
    }
  }

  lemma {:induction false} PrefixRuns(cfg: Config, s: State, a: seq<Event>, b: seq<Event>)
    requires From(cfg, s, a + b).Some?
    ensures From(cfg, s, a).Some?
    decreases |b|
  {
    hide Step, Enabled;
    if b == [] {
      assert a + b == a;
    } else {
      assert (a + b)[..|a + b| - 1] == a + b[..|b| - 1];
      PrefixRuns(cfg, s, a, b[..|b| - 1]);
    }
  }

  /**
   One call from its registration to its return. Whatever happened before (`before`) and whatever
   happens meanwhile (`meanwhile`), the response it is handed is the one asked for by the lines the
   reader processed in between.
   */
  lemma CallIsAnswered(cfg: Config, before: seq<Event>, call: Call, usec: int, meanwhile: seq<Event>)
    requires var run := before + [Send(call, true, usec)] + meanwhile;
      After(cfg, before + [Send(call, true, usec)]).Some? && After(cfg, run).Some?
    requires After(cfg, before + [Send(call, true, usec)]).value.chan.response.Some?
    requires forall i | 0 <= i < |meanwhile| :: !meanwhile[i].Send?
    requires var t := After(cfg, before + [Send(call, true, usec)] + meanwhile).value;
      Enabled(cfg, t, TakeMutex) && |Step(cfg, t, TakeMutex).outcomes| > |t.outcomes|
    ensures var s := After(cfg, before + [Send(call, true, usec)]).value;
      var t := After(cfg, before + [Send(call, true, usec)] + meanwhile).value;
      var o := Step(cfg, t, TakeMutex).outcomes[|t.outcomes|];
      o.call == call
      && (o.ret.reply.Some? ==> Answers(o.ret.reply.value, call, Processed(LinesIn(meanwhile), s.held.Some?)))
  {
    hide Inv, Answers, Processed, LinesIn, Pairing;
    var start := before + [Send(call, true, usec)];
    var s := After(cfg, start).value;
    JustSent(cfg, before, call, usec);
    FromConcat(cfg, Init(), start, meanwhile);
    WindowGrows(cfg, s, meanwhile);
    assert s.window + Processed(LinesIn(meanwhile), s.held.Some?) == Processed(LinesIn(meanwhile), s.held.Some?);
    var run := start + meanwhile;
    var t := After(cfg, run).value;
    assert (run + [TakeMutex])[..|run|] == run;
    HandedBack(cfg, run + [TakeMutex], |t.outcomes|);
    OutcomeIs(cfg, t);
  }

  lemma JustSent(cfg: Config, before: seq<Event>, call: Call, usec: int)
    requires After(cfg, before + [Send(call, true, usec)]).Some?
    requires After(cfg, before + [Send(call, true, usec)]).value.chan.response.Some?
    ensures After(cfg, before + [Send(call, true, usec)]).value.window == []
    ensures After(cfg, before + [Send(call, true, usec)]).value.call == call
    ensures After(cfg, before + [Send(call, true, usec)]).value.chan.waiter
      == if Refused(call, usec) then Spinning else Sleeping
  {
  }

  lemma OutcomeIs(cfg: Config, t: State)
    requires Enabled(cfg, t, TakeMutex) && |Step(cfg, t, TakeMutex).outcomes| > |t.outcomes|
    ensures var o := Step(cfg, t, TakeMutex).outcomes[|t.outcomes|]; o.call == t.call && o.window == t.window
  {
  }

  /**
   A send for one line that returns 0 with the success flag set: a success line came last, and there
   is exactly one intermediate line, which is of the kind asked for and not final.
   */
  lemma SingleResponse(cfg: Config, es: seq<Event>, i: nat)
    requires After(cfg, es).Some? && i < |After(cfg, es).value.outcomes|
    ensures var o := After(cfg, es).value.outcomes[i];
      o.call.wantsOut && o.ret.err.Ok? && (o.call.kind.Numeric? || o.call.kind.SingleLine?) ==>
        && o.ret.reply.Some? && o.ret.reply.value.final.Some?
        && (o.ret.reply.value.success ==>
              && IsFinalSuccess(o.ret.reply.value.final.value)
              && |o.ret.reply.value.lines| == 1
              && Fits(o.call, o.ret.reply.value.lines[0])
              && !IsFinal(o.ret.reply.value.lines[0])
              && var line := o.ret.reply.value.lines[0];
              if o.call.kind.Numeric? then line != "" && '0' <= line[0] <= '9'
              else o.call.prefix.Some? && o.call.prefix.value <= line)
  {
    hide Step, IsFinalSuccess, IsFinalError, IsFinal;
    RunsKeepInv(cfg, es);
    var o := After(cfg, es).value.outcomes[i];
    assert OutcomeOk(o);
    OwedFitsAll(o.call, o.window);
  }

  /** A send is told its response is invalid only after a success line with no line of its kind before it. */
  lemma RejectedHadNothing(cfg: Config, es: seq<Event>, i: nat)
    requires After(cfg, es).Some? && i < |After(cfg, es).value.outcomes|
    ensures var o := After(cfg, es).value.outcomes[i];
      o.ret.err.InvalidResponse? ==>
        && o.ret.reply.None? && (o.call.kind.Numeric? || o.call.kind.SingleLine?)
        && LastFinal(o.window).Some? && IsFinalSuccess(LastFinal(o.window).value)
        && Owed(o.call, o.window) == []
  {
    RunsKeepInv(cfg, es);
    assert OutcomeOk(After(cfg, es).value.outcomes[i]);
  }

  lemma {:induction false} NoneFits(call: Call, w: seq<string>)
    requires forall j | 0 <= j < |w| :: IsFinal(w[j]) || !Fits(call, w[j])
    ensures Fitting(call, Body(w)) == []
  {
    hide Fits, IsFinal;
    if w != [] {
      NoneFits(call, Front(w));
      BodySnoc(Front(w), Last(w));
      FittingSnoc(call, Body(Front(w)), Last(w));
    }
  }

  lemma {:induction false} FirstFits(call: Call, w: seq<string>, i: nat)
    requires i < |w| && !IsFinal(w[i]) && Fits(call, w[i])
    requires forall j | 0 <= j < i :: IsFinal(w[j]) || !Fits(call, w[j])
    ensures var fit := Fitting(call, Body(w)); fit != [] && fit[0] == w[i]
    decreases |w|
  {
    hide Fits, IsFinal;
    assert w == Front(w) + [Last(w)];
    BodySnoc(Front(w), Last(w));
    FittingSnoc(call, Body(Front(w)), Last(w));
    if i == |w| - 1 {
      NoneFits(call, Front(w));
    } else {
      FirstFits(call, Front(w), i);
    }
  }

  lemma {:induction false} AllFit(call: Call, w: seq<string>, i: nat)
    requires i < |w| && !IsFinal(w[i]) && Fits(call, w[i])
    ensures w[i] in Fitting(call, Body(w))
    decreases |w|
  {
    hide Fits, IsFinal;
    assert w == Front(w) + [Last(w)];
    BodySnoc(Front(w), Last(w));
    FittingSnoc(call, Body(Front(w)), Last(w));
    if i < |w| - 1 {
      AllFit(call, Front(w), i);
    }
  }

  /**
   What a command without a PDU is owed, read off its window by index: for one line the first line that is
   not final and is a number or has the prefix, if there is one; otherwise every line with the prefix.
   */
  lemma OwedByIndex(call: Call, w: seq<string>, i: nat)
    requires call.pdu.None? && i < |w| && !IsFinal(w[i])
    ensures call.kind.Numeric? && w[i] != "" && '0' <= w[i][0] <= '9' ==>
      (forall j | 0 <= j < i :: IsFinal(w[j]) || w[j] == "" || !('0' <= w[j][0] <= '9')) ==>
      Owed(call, w) == [w[i]]
    ensures call.kind.SingleLine? && call.prefix.Some? && call.prefix.value <= w[i] ==>
      (forall j | 0 <= j < i :: IsFinal(w[j]) || !(call.prefix.value <= w[j])) ==>
      Owed(call, w) == [w[i]]
    ensures call.kind.MultiLine? && call.prefix.Some? && call.prefix.value <= w[i] ==> w[i] in Owed(call, w)
    ensures call.kind.NoResult? ==> Owed(call, w) == []
  {
    hide IsFinal, Fitting, Body;
    if call.kind.NoResult? {
      NoneFits(call, w);
    } else if Fits(call, w[i]) {
      AllFit(call, w, i);
      if forall j | 0 <= j < i :: IsFinal(w[j]) || !Fits(call, w[j]) {
        FirstFits(call, w, i);
      }
    }
  }

  /** A call for one line, or an SMS, that wants its response and is told of success without a line. */
  predicate EmptyHanded(call: Call, w: seq<string>) {
    && (call.kind.Numeric? || call.kind.SingleLine?) && call.wantsOut
    && LastFinal(w).Some? && IsFinalSuccess(LastFinal(w).value) && Owed(call, w) == []
  }

  /**
   What every return of every call says, on every run. A wait that ended by its timer is a timeout,
   whatever came meanwhile. A wait that ended by a signal goes on while there is neither a final line nor
   a close; otherwise the call returns, with the error that these and its window ask for, and with its
   response if and only if it wanted one and is not told that it is invalid.
   */
  lemma CallReturns(cfg: Config, es: seq<Event>)
    requires After(cfg, es).Some?
    requires var w := After(cfg, es).value.chan.waiter; w.Signalled? || w.TimedOut?
    ensures var s := After(cfg, es).value;
      Enabled(cfg, s, TakeMutex) &&
      var t := Step(cfg, s, TakeMutex);
      if s.chan.waiter.TimedOut? then
        t.chan.waiter.Idle? && t.outcomes == s.outcomes + [Outcome(s.call, Return(Timeout, None), s.window)]
      else if LastFinal(s.window).None? && !s.chan.readerClosed then
        t.chan.waiter.Sleeping? && t.outcomes == s.outcomes
      else
        && t.chan.waiter.Idle? && |t.outcomes| == |s.outcomes| + 1 && t.outcomes[..|s.outcomes|] == s.outcomes
        && var o := t.outcomes[|s.outcomes|];
        && o.call == s.call && o.window == s.window
        && o.ret.err == (if s.chan.readerClosed then ChannelClosed
                         else if EmptyHanded(s.call, s.window) then InvalidResponse
                         else Ok)
        && (o.ret.reply.Some? <==> s.call.wantsOut && !o.ret.err.InvalidResponse?)
  {
    hide Owed, LastFinal, IsFinalSuccess, Body, LedgerOk, LogOk, OutcomesOk;
    RunsKeepInv(cfg, es);
  }

  lemma {:induction false} FittingFits(call: Call, w: seq<string>)
    ensures forall x | x in Fitting(call, w) :: Fits(call, x) && x in w
  {
    if w != [] {
      FittingFits(call, Front(w));
    }
  }

  lemma {:induction false} BodyNotFinal(w: seq<string>)
    ensures forall x | x in Body(w) :: !IsFinal(x) && x in w
  {
    hide IsFinal;
    if w != [] {
      BodyNotFinal(Front(w));
    }
  }

  lemma {:induction false} WithoutPromptWithin(w: seq<string>)
    ensures forall x | x in WithoutPrompt(w) :: x in w
  {
    if w != [] {
      WithoutPromptWithin(Front(w));
    }
  }

  lemma OwedFitsAll(call: Call, w: seq<string>)
    ensures forall x | x in Owed(call, w) :: Fits(call, x) && !IsFinal(x) && x in w
  {
    hide Fitting, Body, WithoutPrompt, IsFinal, Fits;
    FittingFits(call, Offered(call, w));
    WithoutPromptWithin(Body(w));
    BodyNotFinal(w);
  }

  /**
   Ownership, on every run: each response ever allocated is at this moment freed once, or left with a
   caller once, or pending, and only one of the three.
   */
  lemma Ownership(cfg: Config, es: seq<Event>, id: nat)
    requires After(cfg, es).Some?
    ensures var s := After(cfg, es).value;
      multiset(s.chan.freed)[id] + multiset(Kept(s.outcomes))[id] + multiset(PendingId(s.chan))[id]
        == if id < s.chan.issued then 1 else 0
  {
    hide Step, Ids;
    RunsKeepInv(cfg, es);
    IdsOnce(After(cfg, es).value.chan.issued, id);
  }

  lemma {:induction false} IdsOnce(n: nat, id: nat)
    ensures multiset(Ids(n))[id] == if id < n then 1 else 0
  {
    if n > 0 {
      IdsOnce(n - 1, id);
    }
  }

  /** With no command under way nothing of one is left: no response, no prefix, no PDU. */
  lemma IdleIsClear(cfg: Config, es: seq<Event>)
    requires After(cfg, es).Some?
    ensures var c := After(cfg, es).value.chan;
      c.waiter.Idle? ==> c.response.None? && c.prefix.None? && c.pdu.None?
    ensures var c := After(cfg, es).value.chan; !c.waiter.Idle? ==> c.response.Some?
  {
    RunsKeepInv(cfg, es);
  }

  /** The channel was closed: by at_close, or by the reader with a handler installed. */
  predicate ClosedIn(cfg: Config, es: seq<Event>) {
    es != [] &&
    var e := es[|es| - 1];
    e.AtCloseCalled? || (e.Eof? && cfg.closedHandler) || ClosedIn(cfg, es[..|es| - 1])
  }

  /** The last command sent is this one, and its response was registered. */
  predicate SentLast(es: seq<Event>, call: Call) {
    es != [] &&
    var e := es[|es| - 1];
    if e.Send? then e.call == call && e.writes else SentLast(es[..|es| - 1], call)
  }

  /** A timer has expired since the last command was sent. */
  predicate ExpiredSince(es: seq<Event>) {
    es != [] &&
    var e := es[|es| - 1];
    !e.Send? && (e.TimerExpires? || ExpiredSince(es[..|es| - 1]))
  }

  /** Why a call ended as it did, with event `e` after the run `es`. */
  predicate Caused(cfg: Config, es: seq<Event>, e: Event, o: Outcome) {
    && (if e.Send? then e.call == o.call else e.TakeMutex? && SentLast(es, o.call))
    && match o.ret.err
       case Timeout => e.TakeMutex? && o.call.msec != 0 && ExpiredSince(es)
       case ChannelClosed => ClosedIn(cfg, es)
       case Generic => e.Send? && !e.writes && !ClosedIn(cfg, es)
       case CommandPending => false
       case _ => e.TakeMutex? && !ClosedIn(cfg, es)
  }

  /** No outcome is added, or one with its cause. */
  predicate AddsCaused(cfg: Config, es: seq<Event>, e: Event, os: seq<Outcome>, os': seq<Outcome>) {
    os' == os || (|os'| == |os| + 1 && os'[..|os|] == os && Caused(cfg, es, e, os'[|os|]))
  }

  predicate Closed(c: Chan) {
    c.readerClosed || !c.open
  }

  /** What the events so far say of the channel and of the call under way. */
  predicate CausesOk(cfg: Config, es: seq<Event>, s: State) {
    && (Closed(s.chan) <==> ClosedIn(cfg, es))
    && (!s.chan.open ==> s.chan.readerClosed || s.chan.waiter.Spinning?)
    && (s.chan.response.Some? ==> SentLast(es, s.call))
    && (s.chan.waiter.TimedOut? ==> s.call.msec != 0 && ExpiredSince(es))
  }

  lemma {:induction false} CausesKept(cfg: Config, es: seq<Event>)
    requires After(cfg, es).Some?
    ensures CausesOk(cfg, es, After(cfg, es).value)
  {
    hide CausesOk, Step, Enabled, Inv;
    if es == [] {
      NoCausesYet(cfg);
    } else {
      var front := es[..|es| - 1];
      CausesKept(cfg, front);
      RunsKeepInv(cfg, front);
      OneMoreCause(cfg, front, After(cfg, front).value, es[|es| - 1]);
      assert es == front + [es[|es| - 1]];
    }
  }

  lemma NoCausesYet(cfg: Config)
    ensures CausesOk(cfg, [], Init())
  {
  }

  /** What one more event adds to the causes. */
  lemma CauseSnoc(cfg: Config, es: seq<Event>, e: Event, call: Call)
    ensures ClosedIn(cfg, es + [e]) <==> ClosedIn(cfg, es) || e.AtCloseCalled? || (e.Eof? && cfg.closedHandler)
    ensures SentLast(es + [e], call) <==> if e.Send? then e.call == call && e.writes else SentLast(es, call)
    ensures ExpiredSince(es + [e]) <==> !e.Send? && (e.TimerExpires? || ExpiredSince(es))
  {
    assert (es + [e])[..|es|] == es;
  }

  lemma OneMoreCause(cfg: Config, es: seq<Event>, s: State, e: Event)
    requires Enabled(cfg, s, e) && Inv(cfg, s) && CausesOk(cfg, es, s)
    ensures CausesOk(cfg, es + [e], Step(cfg, s, e))
    ensures AddsCaused(cfg, es, e, s.outcomes, Step(cfg, s, e).outcomes)
  {
    hide CausesOk, Inv, Caused;
    match e
    case Send(_, _, _) => SendHasCause(cfg, es, s, e);
    case TakeMutex => ReturnHasCause(cfg, es, s, e);
    case WaitRefused =>
      RefusedChangesNothing(cfg, s);
      NoOutcome(cfg, es, s, e);
    case Line(line, writes) =>
      LineCausesNothing(cfg, s, line, writes);
      NoOutcome(cfg, es, s, e);
    case _ => NoOutcome(cfg, es, s, e);
  }

  lemma SendHasCause(cfg: Config, es: seq<Event>, s: State, e: Event)
    requires e.Send? && Enabled(cfg, s, e) && Inv(cfg, s) && CausesOk(cfg, es, s)
    ensures CausesOk(cfg, es + [e], Step(cfg, s, e))
    ensures AddsCaused(cfg, es, e, s.outcomes, Step(cfg, s, e).outcomes)
  {
    hide ClosedIn, SentLast, ExpiredSince, ResponseOk, LedgerOk, LogOk, OutcomesOk, Refused;
    CauseSnoc(cfg, es, e, e.call);
  }

  lemma ReturnHasCause(cfg: Config, es: seq<Event>, s: State, e: Event)
    requires e.TakeMutex? && Enabled(cfg, s, e) && Inv(cfg, s) && CausesOk(cfg, es, s)
    ensures CausesOk(cfg, es + [e], Step(cfg, s, e))
    ensures AddsCaused(cfg, es, e, s.outcomes, Step(cfg, s, e).outcomes)
  {
    hide ClosedIn, SentLast, ExpiredSince, ResponseOk, LedgerOk, LogOk, OutcomesOk, Reverse;
    CauseSnoc(cfg, es, e, s.call);
  }

  lemma LineCausesNothing(cfg: Config, s: State, line: string, writes: bool)
    ensures var t := OnLine(cfg, s, line, writes);
      && t.outcomes == s.outcomes && t.call == s.call
      && t.chan.open == s.chan.open && t.chan.readerClosed == s.chan.readerClosed
      && t.chan.response.Some? == s.chan.response.Some?
      && (t.chan.waiter == s.chan.waiter || (s.chan.waiter.Sleeping? && t.chan.waiter.Signalled?))
  {
    hide IsFinalSuccess, IsFinalError, IsSmsUnsolicited, Accepts;
  }

  lemma NoOutcome(cfg: Config, es: seq<Event>, s: State, e: Event)
    requires Enabled(cfg, s, e) && CausesOk(cfg, es, s) && !e.Send? && !e.TakeMutex?
    requires e.WaitRefused? ==> Step(cfg, s, e) == s
    requires e.Line? ==>
      var t := Step(cfg, s, e);
      && t.outcomes == s.outcomes && t.call == s.call
      && t.chan.open == s.chan.open && t.chan.readerClosed == s.chan.readerClosed
      && t.chan.response.Some? == s.chan.response.Some?
      && (t.chan.waiter == s.chan.waiter || (s.chan.waiter.Sleeping? && t.chan.waiter.Signalled?))
    ensures CausesOk(cfg, es + [e], Step(cfg, s, e))
    ensures Step(cfg, s, e).outcomes == s.outcomes
  {
    hide ClosedIn, SentLast, ExpiredSince, OnLine, Waited;
    CauseSnoc(cfg, es, e, s.call);
  }

  /**
   No error without its cause, on every run: each outcome was added by the event `es[k]`, for the call
   last sent; a timeout because that call is timed and its timer expired after it was sent, a closed
   channel because something had closed it, a generic error because this very command could not be
   written; and no call returned normally on a channel that had been closed.
   */
  lemma {:induction false} ErrorsHaveCauses(cfg: Config, es: seq<Event>, i: nat) returns (k: nat)
    requires After(cfg, es).Some? && i < |After(cfg, es).value.outcomes|
    ensures k < |es| && After(cfg, es[..k]).Some? && After(cfg, es[..k + 1]).Some?
    ensures |After(cfg, es[..k]).value.outcomes| == i
    ensures After(cfg, es[..k + 1]).value.outcomes == After(cfg, es).value.outcomes[..i + 1]
    ensures Caused(cfg, es[..k], es[k], After(cfg, es).value.outcomes[i])
  {
    hide CausesOk, Step, Enabled, Inv, Caused;
    assert es != [];
    var n := |es| - 1;
    var front := es[..n];
    var s := After(cfg, front).value;
    RunsKeepInv(cfg, front);
    CausesKept(cfg, front);
    OneMoreCause(cfg, front, s, es[n]);
    if i < |s.outcomes| {
      k := ErrorsHaveCauses(cfg, front, i);
      assert front[..k] == es[..k] && front[..k + 1] == es[..k + 1];
    } else {
      k := n;
      assert es[..n + 1] == es;
    }
  }

  /** Serialised callers are never told that a command is pending. */
  lemma NeverPending(cfg: Config, es: seq<Event>, i: nat)
    requires After(cfg, es).Some? && i < |After(cfg, es).value.outcomes|
    ensures After(cfg, es).value.outcomes[i].ret.err != CommandPending
  {
    RunsKeepInv(cfg, es);
  }

  /**
   No lost wakeup: a command thread that sleeps without a signal has no final line to take and no
   closed reader to notice; as soon as it has either, it only needs the mutex to return.
   */
  lemma NoLostWakeup(cfg: Config, es: seq<Event>)
    requires After(cfg, es).Some?
    ensures var s := After(cfg, es).value;
      s.chan.response.Some? && (s.chan.response.value.final.Some? || s.chan.readerClosed) ==>
        && Enabled(cfg, s, TakeMutex)
        && |Step(cfg, s, TakeMutex).outcomes| == |s.outcomes| + 1
        && Step(cfg, s, TakeMutex).chan.waiter.Idle?
  {
    RunsKeepInv(cfg, es);
  }

  /**
   The end of input wakes a sleeping command thread if and only if a reader-closed handler is
   installed; then the call returns that the channel is closed.
   */
  lemma EofWakes(cfg: Config, es: seq<Event>)
    requires After(cfg, es).Some? && !After(cfg, es).value.readerGone
    requires After(cfg, es).value.chan.waiter.Sleeping?
    ensures var s := After(cfg, es).value;
      var t := Step(cfg, s, Eof);
      && (t.chan.waiter.Signalled? <==> cfg.closedHandler)
      && (cfg.closedHandler ==>
            && Enabled(cfg, t, TakeMutex) && |Step(cfg, t, TakeMutex).outcomes| == |s.outcomes| + 1
            && Step(cfg, t, TakeMutex).outcomes[|s.outcomes|].ret.err.ChannelClosed?)
  {
    hide ResponseOk, LedgerOk, LogOk, OutcomesOk, Reverse;
    RunsKeepInv(cfg, es);
  }

  /** An untimed call with no final line, the reader gone and the channel not closed. */
  predicate Stranded(s: State) {
    && s.readerGone && !s.chan.readerClosed && s.call.msec == 0
    && (s.chan.waiter.Sleeping? || s.chan.waiter.Signalled?)
    && s.chan.response.Some? && s.chan.response.value.final.None?
  }

  lemma StrandedStays(cfg: Config, s: State, e: Event)
    requires Stranded(s) && Enabled(cfg, s, e) && !e.AtCloseCalled?
    ensures Stranded(Step(cfg, s, e)) && Step(cfg, s, e).outcomes == s.outcomes
  {
  }

  lemma {:induction false} StrandedForGood(cfg: Config, s: State, more: seq<Event>)
    requires Stranded(s) && From(cfg, s, more).Some? && AtCloseCalled !in more
    ensures Stranded(From(cfg, s, more).value) && From(cfg, s, more).value.outcomes == s.outcomes
  {
    hide Stranded, Step, Enabled;
    if more != [] {
      StrandedForGood(cfg, s, more[..|more| - 1]);
      StrandedStays(cfg, From(cfg, s, more[..|more| - 1]).value, more[|more| - 1]);
    }
  }

  /**
   Without a handler the end of input strands an untimed call that sleeps: however the run goes on, the
   call never returns unless at_close is called.
   */
  lemma EofStrands(cfg: Config, es: seq<Event>, more: seq<Event>)
    requires After(cfg, es).Some? && !After(cfg, es).value.readerGone && !cfg.closedHandler
    requires After(cfg, es).value.chan.waiter.Sleeping? && After(cfg, es).value.call.msec == 0
    requires From(cfg, Step(cfg, After(cfg, es).value, Eof), more).Some? && AtCloseCalled !in more
    ensures var t := From(cfg, Step(cfg, After(cfg, es).value, Eof), more).value;
      t.outcomes == After(cfg, es).value.outcomes && !t.chan.waiter.Idle?
  {
    hide ResponseOk, LedgerOk, LogOk, OutcomesOk, From;
    RunsKeepInv(cfg, es);
    StrandedForGood(cfg, Step(cfg, After(cfg, es).value, Eof), more);
  }

  predicate Spins(s: State) {
    s.chan.waiter.Spinning? && s.chan.response.Some? && WaiterOk(s.chan) && s.window == []
  }

  lemma SpinsOn(cfg: Config, s: State, e: Event)
    requires Spins(s) && Enabled(cfg, s, e)
    ensures Spins(Step(cfg, s, e)) && Step(cfg, s, e).outcomes == s.outcomes
  {
    hide Deliver, IsSmsUnsolicited, Finish, Begin;
  }

  lemma {:induction false} SpinsForGood(cfg: Config, s: State, more: seq<Event>)
    requires Spins(s) && From(cfg, s, more).Some?
    ensures Spins(From(cfg, s, more).value) && From(cfg, s, more).value.outcomes == s.outcomes
  {
    hide Spins, Step, Enabled;
    if more != [] {
      SpinsForGood(cfg, s, more[..|more| - 1]);
      SpinsOn(cfg, From(cfg, s, more[..|more| - 1]).value, more[|more| - 1]);
    }
  }

  /**
   A timed call whose deadline the wait refuses spins with the mutex: however the run goes on, at_close
   included, the call never returns, no further one is ever sent, and no line is ever processed.
   */
  lemma RefusedNeverReturns(cfg: Config, before: seq<Event>, call: Call, usec: int, more: seq<Event>)
    requires After(cfg, before + [Send(call, true, usec)]).Some? && Refused(call, usec)
    requires After(cfg, before + [Send(call, true, usec)]).value.chan.response.Some?
    requires From(cfg, After(cfg, before + [Send(call, true, usec)]).value, more).Some?
    ensures var s := After(cfg, before + [Send(call, true, usec)]).value;
      var t := From(cfg, s, more).value;
      t.outcomes == s.outcomes && t.window == [] && t.chan.waiter.Spinning?
  {
    hide ResponseOk, LedgerOk, LogOk, OutcomesOk, From, Refused;
    JustSent(cfg, before, call, usec);
    RunsKeepInv(cfg, before + [Send(call, true, usec)]);
    SpinsForGood(cfg, After(cfg, before + [Send(call, true, usec)]).value, more);
  }

  /**
   The reader loses and reorders nothing: with a handler installed, its dispatch log gives back the
   lines it read, in order, but for an SMS header still waiting for its PDU line.
   */
  lemma NothingLost(cfg: Config, es: seq<Event>)
    requires After(cfg, es).Some? && cfg.unsolicitedHandler
    ensures var s := After(cfg, es).value; Flatten(s.chan.log) + Optional(s.held) == s.read
  {
    RunsKeepInv(cfg, es);
  }

  /** The PDU of an SMS command is written at most once, and not before a prompt has come. */
  lemma PduAtMostOnce(cfg: Config, es: seq<Event>)
    requires After(cfg, es).Some?
    ensures var s := After(cfg, es).value;
      s.chan.response.Some? && s.chan.pduWrites != [] ==>
        s.call.pdu.Some? && s.chan.pduWrites == [s.call.pdu.value] && PROMPT in Body(s.window)
  {
    hide Answers, LedgerOk, LogOk, OutcomesOk, Body;
    RunsKeepInv(cfg, es);
  }

  /** Once the PDU is off the channel's hands, no event but a new registration writes anything. */
  lemma {:induction false} NoMorePdu(cfg: Config, s: State, more: seq<Event>)
    requires s.chan.pdu.None? && From(cfg, s, more).Some? && forall i | 0 <= i < |more| :: !more[i].Send?
    ensures var t := From(cfg, s, more).value; t.chan.pdu.None? && t.chan.pduWrites == s.chan.pduWrites
  {
    hide Step, Enabled;
    if more != [] {
      NoMorePdu(cfg, s, more[..|more| - 1]);
      NoPduNow(cfg, From(cfg, s, more[..|more| - 1]).value, more[|more| - 1]);
    }
  }

  lemma NoPduNow(cfg: Config, s: State, e: Event)
    requires s.chan.pdu.None? && Enabled(cfg, s, e) && !e.Send?
    ensures var t := Step(cfg, s, e); t.chan.pdu.None? && t.chan.pduWrites == s.chan.pduWrites
  {
    hide IsFinalSuccess, IsFinalError, IsSmsUnsolicited, Accepts, Finish, Reverse;
  }

  /**
   The first prompt during an SMS command decides: the PDU is written, once and for all, if and only if
   the channel has not been closed by then and the descriptor takes it.
   */
  lemma PduGoesOut(cfg: Config, es: seq<Event>, writes: bool, more: seq<Event>)
    requires After(cfg, es).Some? && After(cfg, es + [Line(PROMPT, writes)] + more).Some?
    requires var s := After(cfg, es).value;
      && s.chan.response.Some? && s.call.pdu.Some? && s.held.None?
      && PROMPT !in Body(s.window)
    requires forall i | 0 <= i < |more| :: !more[i].Send?
    ensures After(cfg, es + [Line(PROMPT, writes)] + more).value.chan.pduWrites
      == if writes && !ClosedIn(cfg, es) then [After(cfg, es).value.call.pdu.value] else []
  {
    hide Inv, Step, Enabled, ClosedIn, CausesOk, Body;
    var s := After(cfg, es).value;
    RunsKeepInv(cfg, es);
    CausesKept(cfg, es);
    assert (es + [Line(PROMPT, writes)])[..|es|] == es;
    PrefixRuns(cfg, Init(), es + [Line(PROMPT, writes)], more);
    OnFirstPrompt(cfg, es, s, writes);
    FromConcat(cfg, Init(), es + [Line(PROMPT, writes)], more);
    NoMorePdu(cfg, Step(cfg, s, Line(PROMPT, writes)), more);
  }

  lemma OnFirstPrompt(cfg: Config, es: seq<Event>, s: State, writes: bool)
    requires Inv(cfg, s) && CausesOk(cfg, es, s)
    requires s.chan.response.Some? && s.call.pdu.Some? && s.held.None? && Enabled(cfg, s, Line(PROMPT, writes))
    requires PROMPT !in Body(s.window)
    ensures var t := Step(cfg, s, Line(PROMPT, writes));
      && t.chan.pdu.None?
      && t.chan.pduWrites == if writes && !ClosedIn(cfg, es) then [s.call.pdu.value] else []
  {
    hide Answers, LedgerOk, LogOk, OutcomesOk, Body, ClosedIn, Caused, IsFinalSuccess, IsFinalError;
    ClassesDisjoint(PROMPT);
    PromptIsNoHeader();
  }

  /**
   Why callers have to be serialised: starting a command keeps the waiter and its response together
   if and only if no other response is pending; otherwise the other caller's is freed under it.
   */
  lemma SecondCaller(c: Chan, call: Call, writes: bool, usec: int)
    requires WaiterOk(c)
    ensures WaiterOk(Begin(c, call, writes, usec).0) <==> c.response.None?
    ensures c.response.Some? ==>
      && Begin(c, call, writes, usec).0.freed == c.freed + [c.response.value.id]
      && Begin(c, call, writes, usec).1 == Some(CommandPending)
  {
  }
}
