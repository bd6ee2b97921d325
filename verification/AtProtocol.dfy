/**
 The request/response protocol of ril-telephone/atchannel.c as a state machine.

 A reader thread takes lines off the AT channel and a command thread sends a command, sleeps on a
 condition variable and takes the response. Each step of the machine is one stretch of code under
 `s_commandmutex` (or, for the reader's own variables, on the reader thread), so a run of the machine
 is an interleaving of the threads. The functions from `Deliver` to `Resume` say what each stretch
 does to the channel's variables; the class `AtChannel.Channel` is proved to do the same.
 */
module AtProtocol {
  import opened CStrings

  // ---------------------------------------------------------------- classes of lines

  const FINAL_ERRORS: seq<string> :=
    ["ERROR", "+CMS ERROR:", "+CME ERROR:", "NO CARRIER", "NO ANSWER", "NO DIALTONE"]

  const FINAL_SUCCESSES: seq<string> := ["OK", "CONNECT"]

  const SMS_UNSOLICITED: seq<string> := ["+CMT:", "+CDS:", "+CBM:"]

  predicate StartsWithAny(line: string, prefixes: seq<string>) {
    exists i | 0 <= i < |prefixes| :: prefixes[i] <= line
  }

  predicate IsFinalError(line: string) {
    StartsWithAny(line, FINAL_ERRORS)
  }

  predicate IsFinalSuccess(line: string) {
    StartsWithAny(line, FINAL_SUCCESSES)
  }

  predicate IsFinal(line: string) {
    IsFinalSuccess(line) || IsFinalError(line)
  }

  predicate IsSmsUnsolicited(line: string) {
    StartsWithAny(line, SMS_UNSOLICITED)
  }

  /** The prompt for an SMS PDU (section 4.3 of 3GPP TS 27.005). */
  const PROMPT := "> "

  lemma FinalLetters(line: string)
    ensures IsFinalSuccess(line) ==> line != "" && (line[0] == 'O' || line[0] == 'C')
    ensures IsFinalError(line) ==> line != "" && (line[0] == 'E' || line[0] == 'N' || line[0] == '+')
    ensures IsFinalError(line) && line[0] == '+' ==>
      |line| > 3 && line[2] == 'M' && (line[3] == 'S' || line[3] == 'E')
  {
  }

  /** No line is of two classes, so the order in which the code asks does not matter. */
  lemma ClassesDisjoint(line: string)
    ensures !(IsFinalSuccess(line) && IsFinalError(line))
    ensures !(IsFinal(line) && IsSmsUnsolicited(line))
    ensures line == PROMPT ==> !IsFinal(line)
  {
    hide IsFinalSuccess, IsFinalError;
    FinalLetters(line);
    if IsSmsUnsolicited(line) {
      assert line[0] == '+' && |line| > 4;
      assert line[2] == 'M' ==> line[3] == 'T';
    }
  }

  lemma PromptIsNoHeader()
    ensures !IsSmsUnsolicited(PROMPT)
  {
  }

  // ---------------------------------------------------------------- the channel's variables

  datatype Kind = NoResult | Numeric | SingleLine | MultiLine

  /** The arguments of a send; `wantsOut` is `pp_outResponse != NULL`, and `msec` 0 waits for ever. */
  datatype Call = Call(kind: Kind, prefix: Option<string>, pdu: Option<string>, wantsOut: bool, msec: nat)

  /** Callers of the prefix kinds pass a prefix. */
  predicate CallOk(call: Call) {
    call.kind.SingleLine? || call.kind.MultiLine? ==> call.prefix.Some?
  }

  /** The pending `ATResponse`; intermediate lines newest first. `id` numbers the allocations. */
  datatype Response = Response(id: nat, success: bool, final: Option<string>, stack: seq<string>)

  /** What the reader did with a line, or with an SMS header and its PDU line. */
  datatype Dispatch =
    | Unsolicited(line: string)
    | SmsPair(header: string, pdu: string)
    | Intermediate(line: string)
    | Final(line: string)
    | Prompt(line: string)

  /**
   The command thread at the condition variable; `TimedOut` has left the wait with ETIMEDOUT, and
   `Spinning` is in its loop with the mutex, since the wait refuses its deadline.
   */
  datatype Waiter = Idle | Sleeping | Signalled | TimedOut | Spinning

  /** `pduWrites` holds the PDUs written whole since the last registration. */
  datatype Chan = Chan(
    kind: Kind,
    prefix: Option<string>,
    pdu: Option<string>,
    response: Option<Response>,
    readerClosed: bool,
    open: bool,
    waiter: Waiter,
    log: seq<Dispatch>,
    pduWrites: seq<string>,
    issued: nat,
    freed: seq<nat>)

  /** Which callbacks the client installed. */
  datatype Config = Config(unsolicitedHandler: bool, closedHandler: bool)

  datatype Error = Ok | Generic | CommandPending | ChannelClosed | Timeout | InvalidResponse

  /** A response as the caller sees it: intermediate lines in order of arrival. */
  datatype Reply = Reply(id: nat, success: bool, final: Option<string>, lines: seq<string>)

  /** The command thread's error code and `*pp_outResponse`. */
  datatype Return = Return(err: Error, reply: Option<Reply>)

  // ---------------------------------------------------------------- the deadline of a timed wait

  /** setTimespecRelative: seconds and nanoseconds of the deadline, `msec` from the given time of day. */
  function Deadline(sec: int, usec: int, msec: nat): (int, int) {
    (sec + msec / 1000, (usec + msec % 1000 * 1000) * 1000)
  }

  /**
   Nothing is carried from the nanoseconds to the seconds, so the deadline is one that the wait accepts
   if and only if the microseconds do not overflow their second; it is always the instant meant.
   */
  lemma DeadlineIsValid(sec: int, usec: int, msec: nat)
    requires 0 <= usec < 1000000
    ensures var d := Deadline(sec, usec, msec);
      && (0 <= d.1 < 1000000000 <==> usec + msec % 1000 * 1000 < 1000000)
      && d.0 * 1000000000 + d.1 == (sec * 1000000 + usec + msec * 1000) * 1000
  {
  }

  /**
   Whether the wait refuses the deadline of a call whose response is registered at `usec` microseconds
   past a second: it returns EINVAL at once, with the mutex never released (pthread_cond_timedwait of
   IEEE Std 1003.1).
   */
  predicate Refused(call: Call, usec: int) {
    call.msec != 0 && !(0 <= Deadline(0, usec, call.msec).1 < 1000000000)
  }

  /** That is so exactly for a timed call whose microseconds overflow their second. */
  lemma RefusedExactly(call: Call, usec: int)
    requires 0 <= usec < 1000000
    ensures Refused(call, usec) <==> call.msec != 0 && usec + call.msec % 1000 * 1000 >= 1000000
  {
    DeadlineIsValid(0, usec, call.msec);
  }

  const HANDSHAKE_TIMEOUT_MSEC: nat := 250

  /** The handshake's own deadline is one the wait refuses in the last quarter of every second. */
  lemma HandshakeDeadline(sec: int, usec: int)
    requires 0 <= usec < 1000000
    ensures Deadline(sec, usec, HANDSHAKE_TIMEOUT_MSEC).1 >= 1000000000 <==> usec >= 750000
    ensures Deadline(sec, 750000, HANDSHAKE_TIMEOUT_MSEC) == (sec, 1000000000)
  {
    DeadlineIsValid(sec, usec, HANDSHAKE_TIMEOUT_MSEC);
  }

  // ---------------------------------------------------------------- stretches under the mutex

  predicate Accepts(kind: Kind, prefix: Option<string>, none: bool, line: string) {
    match kind
    case NoResult => false
    case Numeric => none && line != "" && IsDigit(line[0])
    case SingleLine => none && prefix.Some? && prefix.value <= line
    case MultiLine => prefix.Some? && prefix.value <= line
  }

  /** pthread_cond_signal: wakes the waiter if it sleeps, and is forgotten otherwise. */
  function Signal(w: Waiter): Waiter {
    if w.Sleeping? then Signalled else w
  }

  function HandleUnsolicited(cfg: Config, c: Chan, line: string): Chan {
    if cfg.unsolicitedHandler then c.(log := c.log + [Unsolicited(line)]) else c
  }

  function HandleFinal(c: Chan, line: string, success: bool): Chan
    requires c.response.Some?
  {
    c.(response := Some(c.response.value.(success := success, final := Some(line))),
       waiter := Signal(c.waiter),
       log := c.log + [Final(line)])
  }

  /** writeCtrlZ: nothing is written on a closed channel, nor when `write` fails (`writes`). */
  function WritePdu(c: Chan, pdu: string, writes: bool): Chan {
    if c.open && !c.readerClosed && writes then c.(pduWrites := c.pduWrites + [pdu]) else c
  }

  /** processLine; `writes` says whether the descriptor would take a PDU. */
  function Deliver(cfg: Config, c: Chan, line: string, writes: bool): Chan {
    if c.response.None? then HandleUnsolicited(cfg, c, line)
    else if IsFinalSuccess(line) then HandleFinal(c, line, true)
    else if IsFinalError(line) then HandleFinal(c, line, false)
    else if c.pdu.Some? && line == PROMPT then
      WritePdu(c, c.pdu.value, writes).(pdu := None, log := c.log + [Prompt(line)])
    else if Accepts(c.kind, c.prefix, c.response.value.stack == [], line) then
      var r := c.response.value;
      c.(response := Some(r.(stack := [line] + r.stack)), log := c.log + [Intermediate(line)])
    else HandleUnsolicited(cfg, c, line)
  }

  /** onReaderClosed: nothing at all unless a handler is installed. */
  function ReaderClosed(cfg: Config, c: Chan): Chan {
    if cfg.closedHandler && !c.readerClosed then Close(c) else c
  }

  function Close(c: Chan): Chan {
    c.(readerClosed := true, waiter := Signal(c.waiter))
  }

  /** at_close; it gets no further than the descriptor when the mutex is never released. */
  function AtClose(c: Chan): Chan {
    if c.waiter.Spinning? then c.(open := false) else Close(c.(open := false))
  }

  /** clearPendingCommand. */
  function Clear(c: Chan): Chan {
    c.(response := None, prefix := None, pdu := None,
       freed := if c.response.Some? then c.freed + [c.response.value.id] else c.freed)
  }

  /** A fresh response is pending and the command thread sleeps, or spins. */
  function Registered(c: Chan, call: Call, usec: int): Chan {
    c.(kind := call.kind, prefix := call.prefix, pdu := call.pdu,
       response := Some(Response(c.issued, false, None, [])),
       waiter := if Refused(call, usec) then Spinning else Sleeping, pduWrites := [], issued := c.issued + 1)
  }

  /**
   at_send_command_full_nolock up to its first wait. `None` means the command thread waits; otherwise it
   returned with an error. `writes` says whether the descriptor took the command, and `usec` is what the
   clock showed past the second.
   */
  function Begin(c: Chan, call: Call, writes: bool, usec: int): (Chan, Option<Error>) {
    if c.response.Some? then (Clear(c), Some(CommandPending))
    else if !c.open || c.readerClosed then (Clear(c), Some(ChannelClosed))
    else if !writes then (Clear(c), Some(Generic))
    else (Registered(c, call, usec), None)
  }

  function Reverse(s: seq<string>): (r: seq<string>)
    ensures |r| == |s|
  {
    if s == [] then [] else Reverse(s[1..]) + [s[0]]
  }

  /** The wait loop and the return, once the command thread is out of a wait and has the mutex. */
  function Resume(c: Chan, call: Call): (Chan, Option<Return>)
    requires c.response.Some?
  {
    var r := c.response.value;
    if c.waiter.TimedOut? then
      (Clear(c).(waiter := Idle), Some(Return(Timeout, None)))
    else if r.final.None? && !c.readerClosed then
      (c.(waiter := if c.waiter.Spinning? then Spinning else Sleeping), None)
    else
      var err := if c.readerClosed then ChannelClosed else Ok;
      if call.wantsOut then
        (Clear(c.(response := None)).(waiter := Idle),
         Some(Return(err, Some(Reply(r.id, r.success, r.final, Reverse(r.stack))))))
      else
        (Clear(c).(waiter := Idle), Some(Return(err, None)))
  }

  /** The check of the singleline, numeric and SMS wrappers: success needs an intermediate line. */
  predicate Rejects(call: Call, ret: Return) {
    && (call.kind.Numeric? || call.kind.SingleLine?)
    && ret.err.Ok? && ret.reply.Some? && ret.reply.value.success && ret.reply.value.lines == []
  }

  /** What the wrapper returns, and the responses freed once it has. */
  function Finish(call: Call, ret: Return, freed: seq<nat>): (Return, seq<nat>) {
    if Rejects(call, ret) then (Return(InvalidResponse, None), freed + [ret.reply.value.id])
    else (ret, freed)
  }

  // ---------------------------------------------------------------- the machine

  /** A finished call, with the lines processed between its registration and its return. */
  datatype Outcome = Outcome(call: Call, ret: Return, window: seq<string>)

  datatype State = State(
    chan: Chan,
    call: Call,
    held: Option<string>,
    readerGone: bool,
    read: seq<string>,
    window: seq<string>,
    outcomes: seq<Outcome>)

  datatype Event =
    | Send(call: Call, writes: bool, usec: int)
    | Line(line: string, writes: bool)
    | Eof
    | AtCloseCalled
    | SpuriousWakeup
    | TimerExpires
    | WaitRefused
    | TakeMutex

  /**
   What may happen next. Callers are serialised: a command is sent only when none is under way. The
   wait may end without a signal, and a timed wait may end by its timer. While the command thread spins
   with the mutex, the reader gets as far as the next line for processLine or onReaderClosed's lock.
   */
  predicate Enabled(cfg: Config, s: State, e: Event) {
    match e
    case Send(call, _, usec) => s.chan.waiter.Idle? && CallOk(call) && 0 <= usec < 1000000
    case Line(line, _) => !s.readerGone && (s.chan.waiter.Spinning? ==> s.held.Some? || IsSmsUnsolicited(line))
    case Eof => !s.readerGone && (s.chan.waiter.Spinning? ==> !cfg.closedHandler)
    case AtCloseCalled => true
    case SpuriousWakeup => s.chan.waiter.Sleeping?
    case TimerExpires => s.chan.waiter.Sleeping? && s.call.msec != 0
    case WaitRefused => s.chan.waiter.Spinning? && s.chan.response.Some?
    case TakeMutex => (s.chan.waiter.Signalled? || s.chan.waiter.TimedOut?) && s.chan.response.Some?
  }

  /** readerLoop's treatment of one line. */
  function OnLine(cfg: Config, s: State, line: string, writes: bool): State {
    if s.held.Some? then
      s.(held := None, read := s.read + [line],
         chan := if cfg.unsolicitedHandler
                 then s.chan.(log := s.chan.log + [SmsPair(s.held.value, line)]) else s.chan)
    else if IsSmsUnsolicited(line) then
      s.(held := Some(line), read := s.read + [line])
    else
      s.(chan := Deliver(cfg, s.chan, line, writes), read := s.read + [line], window := s.window + [line])
  }

  function Returned(s: State, c: Chan, call: Call, ret: Return, window: seq<string>): State {
    var (out, freed) := Finish(call, ret, c.freed);
    s.(chan := c.(freed := freed), outcomes := s.outcomes + [Outcome(call, out, window)])
  }

  function Step(cfg: Config, s: State, e: Event): State
    requires Enabled(cfg, s, e)
  {
    match e
    case Send(call, writes, usec) =>
      var (c, err) := Begin(s.chan, call, writes, usec);
      if err.Some? then Returned(s, c, call, Return(err.value, None), [])
      else s.(chan := c, call := call, window := [])
    case Line(line, writes) => OnLine(cfg, s, line, writes)
    case Eof => s.(readerGone := true, chan := ReaderClosed(cfg, s.chan))
    case AtCloseCalled => s.(chan := AtClose(s.chan))
    case SpuriousWakeup => s.(chan := s.chan.(waiter := Signalled))
    case TimerExpires => s.(chan := s.chan.(waiter := TimedOut))
    case WaitRefused => Waited(s)
    case TakeMutex => Waited(s)
  }

  function Waited(s: State): State
    requires s.chan.response.Some?
  {
    var (c, ret) := Resume(s.chan, s.call);
    if ret.None? then s.(chan := c) else Returned(s, c, s.call, ret.value, s.window)
  }

  /** After at_open. */
  function Init(): State {
    var c := Chan(NoResult, None, None, None, false, true, Idle, [], [], 0, []);
    State(c, Call(NoResult, None, None, false, 0), None, false, [], [], [])
  }

  /** The state these events lead to from `s`, if each of them was enabled in its turn. */
  function From(cfg: Config, s: State, es: seq<Event>): Option<State> {
    if es == [] then Some(s)
    else
      var t := From(cfg, s, es[..|es| - 1]);
      var e := es[|es| - 1];
      if t.Some? && Enabled(cfg, t.value, e) then Some(Step(cfg, t.value, e)) else None
  }

  /** The state after a run. */
  function After(cfg: Config, es: seq<Event>): Option<State> {
    From(cfg, Init(), es)
  }
}
