/**
 The echo reference of upil_audio/audio_utils/echo_reference.c as a state machine: a writer and a reader
 share a buffer of frames under a lock, which a waiting read lets go of. The functions say what each
 stretch under the lock does; the class in `EchoReference` is proved to do the same.
 */
module EchoRuns {
  import opened Subsequences
  import opened EchoTiming

  /**
   The shared state. `written` is all frames ever put into the buffer and `delivered` all frames ever
   handed to the reader, zero-filled ones included.
   */
  datatype Echo = Echo(
    reading: bool,
    writing: bool,
    frames: seq<Frame>,
    renderTime: TimeSpec,
    playbackDelay: int,
    written: seq<Frame>,
    delivered: seq<Frame>)

  const NO_TIME := TimeSpec(0, 0)

  /** A read's buffer: how many frames, the capture delay and its time stamp. */
  datatype Request = Request(count: nat, delay: int, time: TimeSpec)

  /** echo_reference_reset_l */
  function Reset(e: Echo): Echo {
    e.(frames := [], renderTime := NO_TIME)
  }

  /** Stereo frames as the reader wants them: as they are, or both channels averaged. */
  function Convert(raw: seq<(int, int)>, mono: bool): (s: seq<Frame>)
    ensures |s| == |raw|
  {
    seq(|raw|, i requires 0 <= i < |raw| =>
      if mono then Mono((raw[i].0 + raw[i].1) / 2) else Stereo(raw[i].0, raw[i].1))
  }

  /** echo_reference_write with a buffer. */
  function Write(e: Echo, raw: seq<(int, int)>, mono: bool, time: TimeSpec, delay: int): Echo {
    if time == NO_TIME && e.renderTime == NO_TIME then e
    else if !e.reading then e.(writing := true)
    else
      e.(writing := true, renderTime := time, playbackDelay := delay,
         frames := e.frames + Convert(raw, mono), written := e.written + Convert(raw, mono))
  }

  function StopWrite(e: Echo): Echo {
    Reset(e.(writing := false))
  }

  function StopRead(e: Echo): Echo {
    e.(reading := false)
  }

  /** The head of echo_reference_read: a first read starts afresh, and without a writer there is silence. */
  function BeginRead(e: Echo, count: nat): Echo {
    var e1 := if e.reading then e else Reset(e).(reading := true);
    if e1.writing then e1 else e1.(delivered := e1.delivered + Zeros(count))
  }

  /** Whether a read goes on past its head, and whether it waits for frames first. */
  predicate GoesOn(e: Echo) {
    e.writing
  }

  predicate Waits(e: Echo, count: nat) {
    |e.frames| < count
  }

  function Min(a: nat, b: nat): nat {
    if a < b then a else b
  }

  /** The buffer after the realignment step. */
  function Aligned(e: Echo, req: Request, rate: nat): seq<Frame>
    requires rate > 0
  {
    var count := Min(req.count, |e.frames|);
    if e.renderTime == NO_TIME || req.time == NO_TIME then e.frames
    else Realign(e.frames, count, e.playbackDelay + req.delay - TimeDiff(req.time, e.renderTime), rate)
  }

  lemma AlignedEnough(e: Echo, req: Request, rate: nat)
    requires rate > 0
    ensures |Aligned(e, req, rate)| >= Min(req.count, |e.frames|)
  {
    hide Realign, TimeDiff, Realigns, Target;
    if e.renderTime != NO_TIME && req.time != NO_TIME {
      var expected := e.playbackDelay + req.delay - TimeDiff(req.time, e.renderTime);
      RealignLength(e.frames, Min(req.count, |e.frames|), expected, rate);
    }
  }

  /** The rest of echo_reference_read, after any wait: as many frames as asked for and there are. */
  function EndRead(e: Echo, req: Request, rate: nat): Echo
    requires rate > 0
  {
    AlignedEnough(e, req, rate);
    var count := Min(req.count, |e.frames|);
    var frames := Aligned(e, req, rate);
    e.(delivered := e.delivered + frames[..count], frames := frames[count..])
  }

  lemma EndReadIs(e: Echo, req: Request, rate: nat)
    requires rate > 0
    ensures var count := Min(req.count, |e.frames|);
      var frames := Aligned(e, req, rate);
      && count <= |frames|
      && EndRead(e, req, rate) == e.(delivered := e.delivered + frames[..count], frames := frames[count..])
  {
    hide Aligned;
    AlignedEnough(e, req, rate);
  }

  // ---------------------------------------------------------------- runs

  /** `waiting` is the request of a read that waits with the lock released. */
  datatype State = State(echo: Echo, waiting: seq<Request>)

  datatype Event =
    | Writing(raw: seq<(int, int)>, time: TimeSpec, delay: int)
    | WriteStopped
    | ReadStopped
    | Reading(req: Request)
    | WaitOver

  /** One reader: no read starts while one waits. */
  predicate Enabled(s: State, ev: Event) {
    match ev
    case Reading(_) => s.waiting == []
    case WaitOver => s.waiting != []
    case _ => true
  }

  function Step(s: State, ev: Event, mono: bool, rate: nat): State
    requires rate > 0 && Enabled(s, ev)
  {
    match ev
    case Writing(raw, time, delay) => s.(echo := Write(s.echo, raw, mono, time, delay))
    case WriteStopped => s.(echo := StopWrite(s.echo))
    case ReadStopped => s.(echo := StopRead(s.echo))
    case Reading(req) =>
      var e := BeginRead(s.echo, req.count);
      if !GoesOn(e) then s.(echo := e)
      else if Waits(e, req.count) then State(e, [req])
      else s.(echo := EndRead(e, req, rate))
    case WaitOver => State(EndRead(s.echo, s.waiting[0], rate), [])
  }

  /** create_echo_reference */
  function Init(): State {
    State(Echo(false, false, [], NO_TIME, 0, [], []), [])
  }

  ghost predicate Run(s: State, events: seq<Event>, t: State, mono: bool, rate: nat)
    requires rate > 0
    decreases |events|
  {
    if events == [] then t == s
    else Enabled(s, events[0]) && Run(Step(s, events[0], mono, rate), events[1..], t, mono, rate)
  }

  // ---------------------------------------------------------------- nothing duplicated, nothing reordered

  /** The frames that are not inserted silence. */
  function Sound(s: seq<Frame>): seq<Frame> {
    if s == [] then []
    else if s[|s| - 1] == Silence then Sound(s[..|s| - 1])
    else Sound(s[..|s| - 1]) + [s[|s| - 1]]
  }

  lemma {:induction false} SoundConcat(a: seq<Frame>, b: seq<Frame>)
    ensures Sound(a + b) == Sound(a) + Sound(b)
    decreases |b|
  {
    if b == [] {
      assert a + b == a;
    } else {
      var n := |b| - 1;
      assert (a + b)[..|a + b| - 1] == a + b[..n];
      SoundConcat(a, b[..n]);
    }
  }

  lemma {:induction false} SoundOfZeros(n: nat)
    ensures Sound(Zeros(n)) == []
  {
    if n > 0 {
      assert Zeros(n)[..n - 1] == Zeros(n - 1);
      SoundOfZeros(n - 1);
    }
  }

  lemma {:induction false} SoundOfSound(s: seq<Frame>)
    requires Silence !in s
    ensures Sound(s) == s
  {
    if s != [] {
      SoundOfSound(s[..|s| - 1]);
    }
  }

  lemma SoundSplit(s: seq<Frame>, i: nat, j: nat)
    requires i <= j <= |s|
    ensures Sound(s) == Sound(s[..i]) + Sound(s[i..j]) + Sound(s[j..])
  {
    hide Sound;
    assert s[..j] == s[..i] + s[i..j];
    assert s == s[..j] + s[j..];
    SoundConcat(s[..i], s[i..j]);
    SoundConcat(s[..j], s[j..]);
  }

  /** The part of a buffer. */
  lemma SoundOfSlice(s: seq<Frame>, i: nat, j: nat)
    requires i <= j <= |s|
    ensures Subsequence(Sound(s[i..j]), Sound(s))
  {
    hide Sound, Subsequence;
    var x, y, z := Sound(s[..i]), Sound(s[i..j]), Sound(s[j..]);
    SoundSplit(s, i, j);
    Slice(x + y + z, |x|, |x| + |y|);
    assert (x + y + z)[|x|..|x| + |y|] == y;
  }

  /** The first `n` frames, and silence. */
  lemma SoundOfPadded(s: seq<Frame>, n: nat, zeros: nat)
    requires n <= |s|
    ensures Subsequence(Sound(s[..n] + Zeros(zeros)), Sound(s))
  {
    hide Sound, Subsequence;
    SoundOfSlice(s, 0, n);
    assert s[0..n] == s[..n];
    SoundConcat(s[..n], Zeros(zeros));
    SoundOfZeros(zeros);
    assert Sound(s[..n]) + [] == Sound(s[..n]);
  }

  /** Realignment takes frames out or puts silence in; it never copies or moves one past another. */
  lemma RealignKeepsOrder(frames: seq<Frame>, count: nat, expected: int, rate: nat)
    requires rate > 0 && count <= |frames|
    ensures Subsequence(Sound(Realign(frames, count, expected, rate)), Sound(frames))
  {
    hide Realigns, Excess, Target, Sound, Subsequence, Zeros;
    Itself(Sound(frames));
    if Realigns(|frames|, expected, rate) {
      var n := PositiveTarget(|frames|, expected, rate);
      if Excess(|frames|, expected, rate) < 0 {
        TargetNotBelow(|frames|, expected, rate);
        SoundOfPadded(frames, |frames|, n - |frames|);
        assert frames[..|frames|] == frames;
      } else if n < count {
        SoundOfPadded(frames, n, count - n);
        SoundOfSlice(frames, 0, count);
        assert frames[0..count] == frames[..count];
      } else {
        TargetNotAbove(|frames|, expected, rate);
        SoundOfSlice(frames, |frames| - n, |frames|);
        assert frames[|frames| - n..|frames|] == frames[|frames| - n..];
      }
    }
  }

  /** Delivered, then still buffered: in the order written, and nothing twice. */
  ghost predicate InOrder(e: Echo) {
    Subsequence(Sound(e.delivered + e.frames), e.written)
  }

  lemma ConvertHasNoSilence(raw: seq<(int, int)>, mono: bool)
    ensures Silence !in Convert(raw, mono)
  {
  }

  lemma WriteKeepsOrder(e: Echo, raw: seq<(int, int)>, mono: bool, time: TimeSpec, delay: int)
    requires InOrder(e)
    ensures InOrder(Write(e, raw, mono, time, delay))
  {
    hide Sound, Subsequence, Convert;
    var c := Convert(raw, mono);
    ConvertHasNoSilence(raw, mono);
    SoundOfSound(c);
    assert e.delivered + (e.frames + c) == e.delivered + e.frames + c;
    SoundConcat(e.delivered + e.frames, c);
    Itself(c);
    Concat(Sound(e.delivered + e.frames), e.written, c, c);
  }

  lemma ResetKeepsOrder(e: Echo)
    requires InOrder(e)
    ensures InOrder(Reset(e))
  {
    hide Sound, Subsequence;
    var all := e.delivered + e.frames;
    SoundOfSlice(all, 0, |e.delivered|);
    assert all[0..|e.delivered|] == e.delivered + [];
    Transitive(Sound(e.delivered + []), Sound(all), e.written);
  }

  lemma SilenceKeepsOrder(e: Echo, count: nat)
    requires InOrder(e)
    ensures InOrder(e.(delivered := e.delivered + Zeros(count)))
  {
    hide Sound, Subsequence;
    SoundConcat(e.delivered + Zeros(count), e.frames);
    SoundConcat(e.delivered, Zeros(count));
    SoundConcat(e.delivered, e.frames);
    SoundOfZeros(count);
    assert Sound(e.delivered) + [] == Sound(e.delivered);
  }

  lemma EndReadKeepsOrder(e: Echo, req: Request, rate: nat)
    requires rate > 0 && InOrder(e)
    ensures InOrder(EndRead(e, req, rate))
  {
    hide Sound, Subsequence, Realign, TimeDiff;
    AlignedEnough(e, req, rate);
    var count := Min(req.count, |e.frames|);
    var frames := Aligned(e, req, rate);
    Itself(Sound(e.frames));
    if e.renderTime != NO_TIME && req.time != NO_TIME {
      RealignKeepsOrder(e.frames, count, e.playbackDelay + req.delay - TimeDiff(req.time, e.renderTime), rate);
    }
    assert e.delivered + frames[..count] + frames[count..] == e.delivered + frames;
    SoundConcat(e.delivered, frames);
    SoundConcat(e.delivered, e.frames);
    Itself(Sound(e.delivered));
    Concat(Sound(e.delivered), Sound(e.delivered), Sound(frames), Sound(e.frames));
    Transitive(Sound(e.delivered + frames), Sound(e.delivered + e.frames), e.written);
  }

  lemma StepKeepsOrder(s: State, ev: Event, mono: bool, rate: nat)
    requires rate > 0 && Enabled(s, ev) && InOrder(s.echo)
    ensures InOrder(Step(s, ev, mono, rate).echo)
  {
    hide Sound, Subsequence, Write, EndRead;
    match ev
    case Writing(raw, time, delay) => WriteKeepsOrder(s.echo, raw, mono, time, delay);
    case WriteStopped => ResetKeepsOrder(s.echo.(writing := false));
    case ReadStopped =>
    case Reading(req) =>
      if !s.echo.reading {
        ResetKeepsOrder(s.echo);
      }
      var e1 := if s.echo.reading then s.echo else Reset(s.echo).(reading := true);
      assert InOrder(e1);
      if e1.writing {
        EndReadKeepsOrder(e1, req, rate);
      } else {
        SilenceKeepsOrder(e1, req.count);
      }
    case WaitOver => EndReadKeepsOrder(s.echo, s.waiting[0], rate);
  }

  lemma {:induction false} RunKeepsOrder(s: State, events: seq<Event>, t: State, mono: bool, rate: nat)
    requires rate > 0 && Run(s, events, t, mono, rate) && InOrder(s.echo)
    ensures InOrder(t.echo)
    decreases |events|
  {
    hide InOrder, Step, Enabled;
    if events != [] {
      StepKeepsOrder(s, events[0], mono, rate);
      RunKeepsOrder(Step(s, events[0], mono, rate), events[1..], t, mono, rate);
    }
  }

  /**
   On every interleaving of writes, reads, waits and resets: leave out the inserted silence, and the
   frames delivered so far, followed by those still buffered, are a subsequence of the frames
   written. None is delivered twice, and none out of order.
   */
  lemma NothingDuplicatedOrReordered(events: seq<Event>, t: State, mono: bool, rate: nat)
    requires rate > 0 && Run(Init(), events, t, mono, rate)
    ensures Subsequence(Sound(t.echo.delivered + t.echo.frames), t.echo.written)
  {
    hide Run;
    Nothing(Init().echo.written);
    RunKeepsOrder(Init(), events, t, mono, rate);
  }

  // ---------------------------------------------------------------- without time stamps, nothing lost

  /** A read without a time stamp is never realigned; and nobody stops. */
  predicate Plain(ev: Event) {
    match ev
    case Writing(_, _, _) => true
    case Reading(req) => req.time == NO_TIME
    case WaitOver => true
    case _ => false
  }

  /** Every frame written is delivered or still buffered. */
  predicate Lossless(s: State) {
    && s.echo.reading
    && (forall i | 0 <= i < |s.waiting| :: s.waiting[i].time == NO_TIME)
    && Sound(s.echo.delivered + s.echo.frames) == s.echo.written
  }

  lemma PlainStepKeepsAll(s: State, ev: Event, mono: bool, rate: nat)
    requires rate > 0 && Enabled(s, ev) && Plain(ev) && Lossless(s)
    ensures Lossless(Step(s, ev, mono, rate))
  {
    hide Sound, Convert, Realign;
    var e := s.echo;
    match ev
    case Writing(raw, time, delay) =>
      var c := Convert(raw, mono);
      ConvertHasNoSilence(raw, mono);
      SoundOfSound(c);
      assert e.delivered + (e.frames + c) == e.delivered + e.frames + c;
      SoundConcat(e.delivered + e.frames, c);
    case Reading(req) =>
      SoundConcat(e.delivered + Zeros(req.count), e.frames);
      SoundConcat(e.delivered, Zeros(req.count));
      SoundConcat(e.delivered, e.frames);
      SoundOfZeros(req.count);
      assert Sound(e.delivered) + [] == Sound(e.delivered);
      Rejoin(e, Min(req.count, |e.frames|));
    case WaitOver =>
      Rejoin(e, Min(s.waiting[0].count, |e.frames|));
  }

  lemma Rejoin(e: Echo, count: nat)
    requires count <= |e.frames|
    ensures e.delivered + e.frames[..count] + e.frames[count..] == e.delivered + e.frames
  {
  }

  /**
   Once reading, and while nobody stops and reads carry no time stamps, the echo reference is a lossless
   queue: the frames delivered, less inserted silence, and those buffered are exactly those written.
   */
  lemma {:induction false} LosslessWithoutTimeStamps(s: State, events: seq<Event>, t: State, mono: bool, rate: nat)
    requires rate > 0 && Run(s, events, t, mono, rate)
    requires Lossless(s) && forall i | 0 <= i < |events| :: Plain(events[i])
    ensures Lossless(t)
    decreases |events|
  {
    hide Step, Enabled, Plain, Lossless;
    if events != [] {
      PlainStepKeepsAll(s, events[0], mono, rate);
      LosslessWithoutTimeStamps(Step(s, events[0], mono, rate), events[1..], t, mono, rate);
    }
  }

  // ---------------------------------------------------------------- the state, read off the events

  function Front(events: seq<Event>): seq<Event>
    requires events != []
  {
    events[..|events| - 1]
  }

  /** Somebody reads: the last read was not followed by a stop. */
  predicate IsReading(events: seq<Event>) {
    events != [] &&
    match events[|events| - 1]
    case Reading(_) => true
    case ReadStopped => false
    case _ => IsReading(Front(events))
  }

  /** The buffers were dropped by this event: a writer stopped, or a reader started. */
  predicate Drops(before: seq<Event>, ev: Event) {
    ev.WriteStopped? || (ev.Reading? && !IsReading(before))
  }

  /** The time stamp of the last write for a reader, if any since the buffers were last dropped. */
  function StampOf(events: seq<Event>): TimeSpec {
    if events == [] then NO_TIME
    else
      var ev := events[|events| - 1];
      if Drops(Front(events), ev) then NO_TIME
      else if ev.Writing? && IsReading(Front(events)) then ev.time
      else StampOf(Front(events))
  }

  /** A write counts once it, or one before it, carries a time stamp. */
  predicate Stamped(before: seq<Event>, ev: Event)
    requires ev.Writing?
  {
    ev.time != NO_TIME || StampOf(before) != NO_TIME
  }

  predicate IsWriting(events: seq<Event>) {
    events != [] &&
    var ev := events[|events| - 1];
    !ev.WriteStopped? && ((ev.Writing? && Stamped(Front(events), ev)) || IsWriting(Front(events)))
  }

  /** The playback delay of the last write that counted and had a reader. */
  function DelayOf(events: seq<Event>): int {
    if events == [] then 0
    else
      var ev := events[|events| - 1];
      if ev.Writing? && IsReading(Front(events)) && Stamped(Front(events), ev) then ev.delay
      else DelayOf(Front(events))
  }

  /** The frames of all writes that counted and had a reader. */
  function WrittenBy(events: seq<Event>, mono: bool): seq<Frame> {
    if events == [] then [] else WrittenBy(Front(events), mono) + Put(Front(events), events[|events| - 1], mono)
  }

  /** Those since the buffers were last dropped. */
  function WrittenSince(events: seq<Event>, mono: bool): seq<Frame> {
    if events == [] || Drops(Front(events), events[|events| - 1]) then []
    else WrittenSince(Front(events), mono) + Put(Front(events), events[|events| - 1], mono)
  }

  function Put(before: seq<Event>, ev: Event, mono: bool): seq<Frame> {
    if ev.Writing? && IsReading(before) && Stamped(before, ev) then Convert(ev.raw, mono) else []
  }

  /** Averaged frames are means, rounded down; others are as they were. */
  lemma ConvertIs(raw: seq<(int, int)>, i: nat)
    requires i < |raw|
    ensures var f := Convert(raw, true)[i]; f.Mono? && 2 * f.sample <= raw[i].0 + raw[i].1 <= 2 * f.sample + 1
    ensures Convert(raw, false)[i] == Stereo(raw[i].0, raw[i].1)
  {
  }

  /** A run without its last event. */
  lemma {:induction false} RunFront(s: State, events: seq<Event>, t: State, mono: bool, rate: nat) returns (m: State)
    requires rate > 0 && events != [] && Run(s, events, t, mono, rate)
    ensures Run(s, Front(events), m, mono, rate)
    ensures Enabled(m, events[|events| - 1]) && t == Step(m, events[|events| - 1], mono, rate)
    decreases |events|
  {
    hide Step, Enabled;
    if |events| == 1 {
      m := s;
    } else {
      var s1 := Step(s, events[0], mono, rate);
      m := RunFront(s1, events[1..], t, mono, rate);
      assert Front(events[1..]) == Front(events)[1..];
    }
  }

  /** What the events so far say of the state, and of the frames it holds. */
  ghost predicate AsEventsSay(events: seq<Event>, e: Echo, mono: bool) {
    && e.reading == IsReading(events) && e.writing == IsWriting(events)
    && e.renderTime == StampOf(events) && e.playbackDelay == DelayOf(events)
    && e.written == WrittenBy(events, mono)
    && Subsequence(Sound(e.frames), WrittenSince(events, mono))
  }

  /**
   On every run from creation: who reads and writes, the time stamp and delay that a read reckons with,
   and the frames ever put in are those of the writes that counted; and a buffered frame that is not
   silence comes from a write since the buffers were last dropped.
   */
  lemma {:induction false} EventsSay(events: seq<Event>, t: State, mono: bool, rate: nat)
    requires rate > 0 && Run(Init(), events, t, mono, rate)
    ensures AsEventsSay(events, t.echo, mono)
    decreases |events|
  {
    hide AsEventsSay, Step, Enabled, Run;
    if events == [] {
      NothingYet(t, mono, rate);
    } else {
      var m := RunFront(Init(), events, t, mono, rate);
      EventsSay(Front(events), m, mono, rate);
      OneEvent(events, m, mono, rate);
    }
  }

  lemma NothingYet(t: State, mono: bool, rate: nat)
    requires rate > 0 && Run(Init(), [], t, mono, rate)
    ensures AsEventsSay([], t.echo, mono)
  {
    Nothing<Frame>([]);
  }

  lemma OneEvent(events: seq<Event>, m: State, mono: bool, rate: nat)
    requires rate > 0 && events != [] && Enabled(m, events[|events| - 1])
    requires AsEventsSay(Front(events), m.echo, mono)
    ensures AsEventsSay(events, Step(m, events[|events| - 1], mono, rate).echo, mono)
  {
    hide Sound, Subsequence, Convert, EndRead;
    var e := m.echo;
    var since := WrittenSince(Front(events), mono);
    assert since + [] == since && e.written + [] == e.written;
    match events[|events| - 1]
    case Writing(raw, time, delay) =>
      var c := Convert(raw, mono);
      ConvertHasNoSilence(raw, mono);
      SoundOfSound(c);
      SoundConcat(e.frames, c);
      Itself(c);
      Concat(Sound(e.frames), since, c, c);
    case WriteStopped =>
      SoundOfNothing();
    case ReadStopped =>
    case Reading(req) =>
      SoundOfNothing();
      LeftBySubsequence(if e.reading then e else Reset(e).(reading := true), req, rate, since);
      if !e.reading {
        LeftBySubsequence(Reset(e).(reading := true), req, rate, []);
      }
    case WaitOver =>
      LeftBySubsequence(e, m.waiting[0], rate, since);
  }

  lemma SoundOfNothing()
    ensures Sound([]) == [] && forall b: seq<Frame> :: Subsequence([], b)
  {
    forall b: seq<Frame>
      ensures Subsequence([], b)
    {
      Nothing(b);
    }
  }

  /** What a read leaves in the buffer comes from what was there. */
  lemma LeftBySubsequence(e: Echo, req: Request, rate: nat, all: seq<Frame>)
    requires rate > 0
    ensures Subsequence(Sound(e.frames), all) ==> Subsequence(Sound(EndRead(e, req, rate).frames), all)
    ensures var r := EndRead(e, req, rate); r == e.(delivered := r.delivered, frames := r.frames)
  {
    hide Sound, Subsequence, Realign, TimeDiff;
    AlignedEnough(e, req, rate);
    var count := Min(req.count, |e.frames|);
    var frames := Aligned(e, req, rate);
    Itself(Sound(e.frames));
    if e.renderTime != NO_TIME && req.time != NO_TIME {
      RealignKeepsOrder(e.frames, count, e.playbackDelay + req.delay - TimeDiff(req.time, e.renderTime), rate);
    }
    SoundOfSlice(frames, count, |frames|);
    assert frames[count..|frames|] == frames[count..];
    Transitive(Sound(frames[count..]), Sound(frames), Sound(e.frames));
    if Subsequence(Sound(e.frames), all) {
      Transitive(Sound(frames[count..]), Sound(e.frames), all);
    }
  }

  /**
   What the reader is given: as many frames as it asked for and there are, the first of the buffer once
   that is realigned to the playback and capture delays less the time from render to capture; and the
   buffer keeps the others.
   */
  lemma ReadGives(e: Echo, req: Request, rate: nat)
    requires rate > 0
    ensures var count := if req.count < |e.frames| then req.count else |e.frames|;
      var expected := e.playbackDelay + req.delay - (Nanos(req.time) - Nanos(e.renderTime));
      var aligned := if e.renderTime == NO_TIME || req.time == NO_TIME then e.frames
                     else Realign(e.frames, count, expected, rate);
      var r := EndRead(e, req, rate);
      && |r.delivered| == |e.delivered| + count
      && r.delivered + r.frames == e.delivered + aligned
  {
    hide Realign, TimeDiff, Nanos;
    AlignedEnough(e, req, rate);
    TimeDiffIs(req.time, e.renderTime);
    var count := Min(req.count, |e.frames|);
    var frames := Aligned(e, req, rate);
    assert e.delivered + frames[..count] + frames[count..] == e.delivered + frames;
  }
}
