/**
 The timers of upil_event/upil_event.c: `timeval` arithmetic, the sorted timer list and, over whole
 runs of the event loop, when and in which order timers fire.
 */
module EventTimers {

  // ---------------------------------------------------------------- timevals

  datatype TimeVal = TimeVal(sec: int, usec: int)

  predicate Normal(t: TimeVal) {
    0 <= t.sec && 0 <= t.usec < 1000000
  }

  function Micros(t: TimeVal): int {
    t.sec * 1000000 + t.usec
  }

  /** timeradd */
  function TimerAdd(a: TimeVal, b: TimeVal): TimeVal {
    var t := TimeVal(a.sec + b.sec, a.usec + b.usec);
    if t.usec >= 1000000 then TimeVal(t.sec + 1, t.usec - 1000000) else t
  }

  /** timercmp(a, b, <) */
  predicate TimerLess(a: TimeVal, b: TimeVal) {
    if a.sec == b.sec then a.usec < b.usec else a.sec < b.sec
  }

  /** timersub */
  function TimerSub(a: TimeVal, b: TimeVal): TimeVal {
    var t := TimeVal(a.sec - b.sec, a.usec - b.usec);
    if t.usec < 0 then TimeVal(t.sec - 1, t.usec + 1000000) else t
  }

  /** On normalised timevals the macros compute in microseconds, and stay normalised. */
  lemma MacrosAreArithmetic(a: TimeVal, b: TimeVal)
    requires Normal(a) && Normal(b)
    ensures Normal(TimerAdd(a, b)) && Micros(TimerAdd(a, b)) == Micros(a) + Micros(b)
    ensures TimerLess(a, b) <==> Micros(a) < Micros(b)
    ensures TimerLess(b, a) ==> Normal(TimerSub(a, b)) && Micros(TimerSub(a, b)) == Micros(a) - Micros(b)
  {
  }

  // ---------------------------------------------------------------- the sorted list

  /** A call of upil_timer_add: its number, the clock it read, and the timeout its caller passed. */
  datatype Arming = Arming(serial: nat, now: TimeVal, tv: TimeVal)

  /** An armed timer. */
  datatype Timer<E> = Timer(ev: E, deadline: TimeVal, arming: Arming)

  /** The instant the caller asked for, in microseconds. */
  function Asked(a: Arming): int {
    Micros(a.now) + Micros(a.tv)
  }

  /** The deadlines are those asked for. */
  predicate AsAsked<E>(ts: seq<Timer<E>>) {
    forall i | 0 <= i < |ts| :: Micros(ts[i].deadline) == Asked(ts[i].arming)
  }

  predicate Sorted<E>(ts: seq<Timer<E>>) {
    forall i, j | 0 <= i < j < |ts| :: Micros(ts[i].deadline) <= Micros(ts[j].deadline)
  }

  predicate AllNormal<E>(ts: seq<Timer<E>>) {
    forall i | 0 <= i < |ts| :: Normal(ts[i].deadline)
  }

  /**
   How many timers from the head on are due before `d`: where upil_timer_add's walk stops, and, with
   the time for `d`, processTimeouts'.
   */
  function Earlier<E>(ts: seq<Timer<E>>, d: TimeVal): (k: nat)
    ensures k <= |ts| && (k < |ts| ==> !TimerLess(ts[k].deadline, d))
    ensures forall i | 0 <= i < k :: TimerLess(ts[i].deadline, d)
  {
    if ts == [] || !TimerLess(ts[0].deadline, d) then 0 else 1 + Earlier(ts[1..], d)
  }

  lemma EarlierIs<E>(ts: seq<Timer<E>>, d: TimeVal, k: nat)
    requires k <= |ts| && (k < |ts| ==> !TimerLess(ts[k].deadline, d))
    requires forall i | 0 <= i < k :: TimerLess(ts[i].deadline, d)
    ensures Earlier(ts, d) == k
  {
    var n := Earlier(ts, d);
  }

  function Insert<E>(ts: seq<Timer<E>>, t: Timer<E>): seq<Timer<E>> {
    var k := Earlier(ts, t.deadline);
    ts[..k] + [t] + ts[k..]
  }

  lemma EarlierSplits<E>(ts: seq<Timer<E>>, d: TimeVal)
    requires Sorted(ts) && AllNormal(ts) && Normal(d)
    ensures forall i | 0 <= i < Earlier(ts, d) :: Micros(ts[i].deadline) < Micros(d)
    ensures forall i | Earlier(ts, d) <= i < |ts| ::
      Micros(d) <= Micros(ts[i].deadline) && !TimerLess(ts[i].deadline, d)
  {
    forall i | 0 <= i < |ts|
      ensures TimerLess(ts[i].deadline, d) <==> Micros(ts[i].deadline) < Micros(d)
    {
      MacrosAreArithmetic(ts[i].deadline, d);
    }
  }

  lemma InsertKeepsSorted<E>(ts: seq<Timer<E>>, t: Timer<E>)
    requires Sorted(ts) && AllNormal(ts) && Normal(t.deadline)
    ensures Sorted(Insert(ts, t)) && AllNormal(Insert(ts, t))
    ensures multiset(Insert(ts, t)) == multiset(ts) + multiset{t}
  {
    hide Earlier, TimerLess, Normal, Micros;
    EarlierSplits(ts, t.deadline);
    var k := Earlier(ts, t.deadline);
    assert ts == ts[..k] + ts[k..];
  }

  /** Of timers with one deadline, the one armed last comes first. */
  lemma TiesGoFirst<E>(ts: seq<Timer<E>>, t: Timer<E>, i: nat)
    requires Sorted(ts) && AllNormal(ts) && Normal(t.deadline)
    requires i < |ts| && ts[i].deadline == t.deadline
    ensures Earlier(ts, t.deadline) <= i
    ensures Insert(ts, t)[Earlier(ts, t.deadline)] == t && Insert(ts, t)[i + 1] == ts[i]
  {
  }

  /** Every timer due before `now`, wherever it stands, in list order. */
  function DueBefore<E>(ts: seq<Timer<E>>, now: TimeVal): seq<Timer<E>> {
    if ts == [] then []
    else if TimerLess(ts[0].deadline, now) then [ts[0]] + DueBefore(ts[1..], now)
    else DueBefore(ts[1..], now)
  }

  /** The walk may stop early: on a sorted list it moves all that is due, and nothing else. */
  lemma {:induction false} WalkFindsAllDue<E>(ts: seq<Timer<E>>, now: TimeVal)
    requires Sorted(ts) && AllNormal(ts) && Normal(now)
    ensures ts[..Earlier(ts, now)] == DueBefore(ts, now)
    ensures DueBefore(ts[Earlier(ts, now)..], now) == []
  {
    if ts != [] {
      WalkFindsAllDue(ts[1..], now);
      if TimerLess(ts[0].deadline, now) {
        assert ts[..Earlier(ts, now)] == [ts[0]] + ts[1..][..Earlier(ts[1..], now)];
      } else {
        EarlierSplits(ts, now);
        EarlierIs(ts[1..], now, 0);
      }
    }
  }

  /** processTimeouts cuts the list in two: all that lies before `now` is moved, in order, and nothing else. */
  lemma ExpirySplits<E>(s: Sched<E>, now: TimeVal, i: nat)
    requires Sorted(s.timers) && AllNormal(s.timers) && Enabled(s, ProcessTimeouts(now))
    ensures var t := Step(s, ProcessTimeouts(now));
      var k := |t.pending| - |s.pending|;
      && 0 <= k <= |s.timers| && t.timers == s.timers[k..] && t.pending[..|s.pending|] == s.pending
      && t.clock == now
      && (i < |s.timers| ==>
            if Micros(s.timers[i].deadline) < Micros(now) then
              i < k && t.pending[|s.pending| + i] == TimerItem(s.timers[i])
            else i >= k)
  {
    hide TimerLess, Micros;
    EarlierSplits(s.timers, now);
  }

  // ---------------------------------------------------------------- how long to sleep

  datatype Sleep = Forever | For(tv: TimeVal)

  /** calcNextTimeout */
  function NextTimeout<E>(ts: seq<Timer<E>>, now: TimeVal): Sleep {
    if ts == [] then Forever
    else if TimerLess(now, ts[0].deadline) then For(TimerSub(ts[0].deadline, now))
    else For(TimeVal(0, 0))
  }

  /**
   The sleep is normalised and ends at the smallest deadline of all queued timers, or at once when
   that is not ahead; up to that instant, when it lies ahead, no timer is moved.
   */
  lemma SleepIsExact<E>(ts: seq<Timer<E>>, now: TimeVal)
    requires Sorted(ts) && AllNormal(ts) && Normal(now)
    ensures NextTimeout(ts, now).Forever? <==> ts == []
    ensures ts != [] ==> Normal(NextTimeout(ts, now).tv)
    ensures ts != [] ==>
      var wake := Micros(now) + Micros(NextTimeout(ts, now).tv);
      && (forall i | 0 <= i < |ts| :: wake <= Micros(ts[i].deadline) || wake == Micros(now))
      && (wake > Micros(now) ==> wake == Micros(ts[0].deadline))
      && (wake == Micros(now) <==> Micros(ts[0].deadline) <= Micros(now))
  {
    if ts != [] {
      MacrosAreArithmetic(now, ts[0].deadline);
      MacrosAreArithmetic(ts[0].deadline, now);
    }
  }

  lemma NothingMovesWhileAsleep<E>(ts: seq<Timer<E>>, now: TimeVal, later: TimeVal)
    requires Sorted(ts) && AllNormal(ts) && Normal(now) && Normal(later)
    requires ts != [] && TimerLess(now, ts[0].deadline)
    requires Micros(later) <= Micros(now) + Micros(NextTimeout(ts, now).tv)
    ensures Earlier(ts, later) == 0
  {
  }

  // ---------------------------------------------------------------- whole runs

  /** An event on the pending list: an expired timer or a descriptor ready to read. */
  datatype Item<E> = TimerItem(timer: Timer<E>) | ReadItem(ev: E)

  /** A callback made, and the last clock reading before it. */
  datatype Firing<E> = Firing(item: Item<E>, at: int)

  /** The lists, the last clock reading, and the callbacks made so far. */
  datatype Sched<E> = Sched(
    clock: TimeVal,
    timers: seq<Timer<E>>,
    pending: seq<Item<E>>,
    fired: seq<Firing<E>>,
    adds: nat)

  datatype Op<E> =
    | AddTimer(ev: E, now: TimeVal, tv: TimeVal)
    | DeleteTimer(index: nat)
    | ProcessTimeouts(now: TimeVal)
    | ProcessReady(evs: seq<E>)
    | FireOne

  /** The clock never runs backwards, and timevals are normalised. */
  predicate Enabled<E>(s: Sched<E>, op: Op<E>) {
    match op
    case AddTimer(_, now, tv) => Normal(now) && Normal(tv) && Micros(s.clock) <= Micros(now)
    case DeleteTimer(index) => index < |s.timers|
    case ProcessTimeouts(now) => Normal(now) && Micros(s.clock) <= Micros(now)
    case ProcessReady(_) => true
    case FireOne => s.pending != []
  }

  function AsItems<E>(ts: seq<Timer<E>>): (r: seq<Item<E>>)
    ensures |r| == |ts|
  {
    seq(|ts|, i requires 0 <= i < |ts| => TimerItem(ts[i]))
  }

  function ReadItems<E>(evs: seq<E>): (r: seq<Item<E>>)
    ensures |r| == |evs|
  {
    seq(|evs|, i requires 0 <= i < |evs| => ReadItem(evs[i]))
  }

  function Step<E>(s: Sched<E>, op: Op<E>): Sched<E>
    requires Enabled(s, op)
  {
    match op
    case AddTimer(ev, now, tv) =>
      var t := Timer(ev, TimerAdd(now, tv), Arming(s.adds, now, tv));
      s.(clock := now, timers := Insert(s.timers, t), adds := s.adds + 1)
    case DeleteTimer(i) =>
      s.(timers := s.timers[..i] + s.timers[i + 1..])
    case ProcessTimeouts(now) =>
      var k := Earlier(s.timers, now);
      s.(clock := now, timers := s.timers[k..], pending := s.pending + AsItems(s.timers[..k]))
    case ProcessReady(evs) =>
      s.(pending := s.pending + ReadItems(evs))
    case FireOne =>
      s.(pending := s.pending[1..], fired := s.fired + [Firing(s.pending[0], Micros(s.clock))])
  }

  ghost predicate Steps<E>(s: Sched<E>, op: Op<E>, t: Sched<E>) {
    Enabled(s, op) && t == Step(s, op)
  }

  function Start<E>(): Sched<E> {
    Sched(TimeVal(0, 0), [], [], [], 0)
  }

  ghost predicate Run<E>(s: Sched<E>, ops: seq<Op<E>>, t: Sched<E>)
    decreases |ops|
  {
    if ops == [] then t == s
    else Enabled(s, ops[0]) && Run(Step(s, ops[0]), ops[1..], t)
  }

  /** The timers among the items, in order. */
  function TimersOf<E>(items: seq<Item<E>>): seq<Timer<E>> {
    if items == [] then []
    else
      var x := items[|items| - 1];
      TimersOf(items[..|items| - 1]) + if x.TimerItem? then [x.timer] else []
  }

  function ItemsOf<E>(fired: seq<Firing<E>>): (r: seq<Item<E>>)
    ensures |r| == |fired|
  {
    seq(|fired|, i requires 0 <= i < |fired| => fired[i].item)
  }

  /** The timers found due so far: fired, then pending. */
  function Due<E>(s: Sched<E>): seq<Timer<E>> {
    TimersOf(ItemsOf(s.fired) + s.pending)
  }

  predicate Distinct<E>(ts: seq<Timer<E>>, adds: nat) {
    && (forall i | 0 <= i < |ts| :: ts[i].arming.serial < adds)
    && forall i, j | 0 <= i < j < |ts| :: ts[i].arming.serial != ts[j].arming.serial
  }

  predicate OnTime<E>(fired: seq<Firing<E>>) {
    forall i | 0 <= i < |fired| && fired[i].item.TimerItem? ::
      Asked(fired[i].item.timer.arming) < fired[i].at
  }

  /** What was found due lies before the horizon (the last expiry pass), what is queued does not. */
  predicate Split<E>(due: seq<Timer<E>>, queued: seq<Timer<E>>, horizon: int) {
    && (forall i | 0 <= i < |due| :: Micros(due[i].deadline) < horizon)
    && forall i | 0 <= i < |queued| :: horizon <= Micros(queued[i].deadline)
  }

  predicate SchedOk<E>(s: Sched<E>, horizon: int) {
    var due := Due(s);
    && Normal(s.clock) && horizon <= Micros(s.clock)
    && Sorted(s.timers) && AllNormal(s.timers) && Sorted(due)
    && Split(due, s.timers, horizon)
    && Distinct(due + s.timers, s.adds)
    && AsAsked(due + s.timers)
    && OnTime(s.fired)
  }

  lemma {:induction false} TimersOfConcat<E>(a: seq<Item<E>>, b: seq<Item<E>>)
    ensures TimersOf(a + b) == TimersOf(a) + TimersOf(b)
    decreases |b|
  {
    if b == [] {
      assert a + b == a;
    } else {
      var n := |b| - 1;
      assert (a + b)[..|a + b| - 1] == a + b[..n];
      TimersOfConcat(a, b[..n]);
    }
  }

  lemma {:induction false} TimersOfTimers<E>(ts: seq<Timer<E>>)
    ensures TimersOf(AsItems(ts)) == ts
  {
    if ts != [] {
      var n := |ts| - 1;
      assert AsItems(ts)[..n] == AsItems(ts[..n]);
      TimersOfTimers(ts[..n]);
    }
  }

  lemma {:induction false} TimersOfReads<E>(evs: seq<E>)
    ensures TimersOf(ReadItems(evs)) == []
  {
    if evs != [] {
      var n := |evs| - 1;
      assert ReadItems(evs)[..n] == ReadItems(evs[..n]);
      TimersOfReads(evs[..n]);
    }
  }

  /** A new timer is due after everything found due so far: the clock has only moved on. */
  lemma AddKeepsOk<E>(s: Sched<E>, horizon: int, ev: E, now: TimeVal, tv: TimeVal)
    requires SchedOk(s, horizon) && Enabled(s, AddTimer(ev, now, tv))
    ensures SchedOk(Step(s, AddTimer(ev, now, tv)), horizon)
  {
    hide TimersOf, OnTime, Earlier, TimerLess, AsAsked;
    var t := Timer(ev, TimerAdd(now, tv), Arming(s.adds, now, tv));
    MacrosAreArithmetic(now, tv);
    InsertKeepsSorted(s.timers, t);
    var due := Due(s);
    InsertKeepsSplit(due, s.timers, horizon, t);
    InsertKeepsDistinct(due, s.timers, t);
    InsertKeepsAsAsked(due, s.timers, t);
  }

  lemma InsertKeepsAsAsked<E>(due: seq<Timer<E>>, ts: seq<Timer<E>>, t: Timer<E>)
    requires AsAsked(due + ts) && Micros(t.deadline) == Asked(t.arming)
    ensures AsAsked(due + Insert(ts, t))
  {
    hide Earlier, Micros, Asked;
    var all := due + ts;
    var k := Earlier(ts, t.deadline);
    assert due + Insert(ts, t) == all[..|due| + k] + [t] + all[|due| + k..];
  }

  lemma InsertKeepsSplit<E>(due: seq<Timer<E>>, ts: seq<Timer<E>>, horizon: int, t: Timer<E>)
    requires Split(due, ts, horizon) && horizon <= Micros(t.deadline)
    ensures Split(due, Insert(ts, t), horizon)
  {
  }

  lemma InsertKeepsDistinct<E>(due: seq<Timer<E>>, ts: seq<Timer<E>>, t: Timer<E>)
    requires Distinct(due + ts, t.arming.serial)
    ensures Distinct(due + Insert(ts, t), t.arming.serial + 1)
  {
    hide Earlier;
    var k := Earlier(ts, t.deadline);
    var all := due + ts;
    var m := |due| + k;
    var new' := due + Insert(ts, t);
    forall i | 0 <= i < |new'|
      ensures i != m ==> new'[i] == all[if i < m then i else i - 1]
      ensures i == m ==> new'[i] == t
    {
    }
  }

  lemma DueAfterExpiry<E>(s: Sched<E>, now: TimeVal)
    requires Enabled(s, ProcessTimeouts(now))
    ensures Due(Step(s, ProcessTimeouts(now))) == Due(s) + s.timers[..Earlier(s.timers, now)]
  {
    hide TimersOf, Earlier, Enabled;
    var k := Earlier(s.timers, now);
    TimersOfTimers(s.timers[..k]);
    TimersOfConcat(ItemsOf(s.fired) + s.pending, AsItems(s.timers[..k]));
    assert ItemsOf(s.fired) + (s.pending + AsItems(s.timers[..k]))
      == ItemsOf(s.fired) + s.pending + AsItems(s.timers[..k]);
  }

  /** Found due now means due before now, and nothing left is. */
  lemma ExpireKeepsOk<E>(s: Sched<E>, horizon: int, now: TimeVal)
    requires SchedOk(s, horizon) && Enabled(s, ProcessTimeouts(now))
    ensures SchedOk(Step(s, ProcessTimeouts(now)), Micros(now))
  {
    hide Due, OnTime, Earlier, TimerLess, Distinct, Split, Sorted, AsItems, Micros;
    var k := Earlier(s.timers, now);
    EarlierSplits(s.timers, now);
    DueAfterExpiry(s, now);
    assert Due(s) + s.timers[..k] + s.timers[k..] == Due(s) + s.timers;
    MovePrefix(Due(s), s.timers, k, horizon, Micros(now));
  }

  lemma MovePrefix<E>(due: seq<Timer<E>>, ts: seq<Timer<E>>, k: nat, horizon: int, now: int)
    requires Sorted(due) && Sorted(ts) && Split(due, ts, horizon) && horizon <= now
    requires k <= |ts|
    requires forall i | 0 <= i < k :: Micros(ts[i].deadline) < now
    requires forall i | k <= i < |ts| :: now <= Micros(ts[i].deadline)
    ensures Sorted(due + ts[..k]) && Sorted(ts[k..])
    ensures Split(due + ts[..k], ts[k..], now)
  {
  }

  lemma FireKeepsOk<E>(s: Sched<E>, horizon: int)
    requires SchedOk(s, horizon) && Enabled(s, FireOne)
    ensures SchedOk(Step(s, FireOne), horizon)
  {
    hide TimersOf, Sorted, Distinct;
    var x := s.pending[0];
    var t := Step(s, FireOne);
    assert ItemsOf(t.fired) + t.pending == ItemsOf(s.fired) + s.pending;
    if x.TimerItem? {
      IsDue(ItemsOf(s.fired), x.timer, s.pending[1..]);
      DueAsAsked(s, x.timer);
      assert ItemsOf(s.fired) + [TimerItem(x.timer)] + s.pending[1..] == ItemsOf(s.fired) + s.pending;
    }
  }

  lemma DueAsAsked<E>(s: Sched<E>, t: Timer<E>)
    requires AsAsked(Due(s) + s.timers)
    ensures t in Due(s) ==> Micros(t.deadline) == Asked(t.arming)
  {
    hide Due, Micros, Asked;
    if t in Due(s) {
      var k :| 0 <= k < |Due(s)| && Due(s)[k] == t;
      assert (Due(s) + s.timers)[k] == t;
    }
  }

  /** A timer item among the items is one of their timers. */
  lemma IsDue<E>(a: seq<Item<E>>, t: Timer<E>, b: seq<Item<E>>)
    ensures t in TimersOf(a + [TimerItem(t)] + b)
  {
    TimersOfConcat(a + [TimerItem(t)], b);
    assert (a + [TimerItem(t)])[..|a|] == a;
  }

  lemma ReadyKeepsOk<E>(s: Sched<E>, horizon: int, evs: seq<E>)
    requires SchedOk(s, horizon)
    ensures SchedOk(Step(s, ProcessReady(evs)), horizon)
  {
    hide TimersOf, Sorted, Distinct, OnTime;
    var t := Step(s, ProcessReady(evs));
    TimersOfReads(evs);
    TimersOfConcat(ItemsOf(s.fired) + s.pending, ReadItems(evs));
    assert ItemsOf(t.fired) + t.pending == ItemsOf(s.fired) + s.pending + ReadItems(evs);
    assert Due(s) + [] == Due(s);
  }

  lemma DeleteKeepsOk<E>(s: Sched<E>, horizon: int, i: nat)
    requires SchedOk(s, horizon) && Enabled(s, DeleteTimer(i))
    ensures SchedOk(Step(s, DeleteTimer(i)), horizon)
  {
    hide TimersOf, OnTime, Micros;
    var all := Due(s) + s.timers;
    var t := Step(s, DeleteTimer(i));
    var m := |Due(s)| + i;
    assert Due(t) + t.timers == all[..m] + all[m + 1..];
  }

  lemma StepKeepsOk<E>(s: Sched<E>, horizon: int, op: Op<E>) returns (horizon': int)
    requires SchedOk(s, horizon) && Enabled(s, op)
    ensures SchedOk(Step(s, op), horizon')
  {
    horizon' := horizon;
    match op
    case AddTimer(ev, now, tv) => AddKeepsOk(s, horizon, ev, now, tv);
    case DeleteTimer(i) => DeleteKeepsOk(s, horizon, i);
    case ProcessTimeouts(now) =>
      ExpireKeepsOk(s, horizon, now);
      horizon' := Micros(now);
    case ProcessReady(evs) => ReadyKeepsOk(s, horizon, evs);
    case FireOne => FireKeepsOk(s, horizon);
  }

  /** What every operation keeps, for some horizon. */
  ghost predicate Orderly<E>(s: Sched<E>) {
    exists h :: SchedOk(s, h)
  }

  lemma OrderlyStep<E>(s: Sched<E>, op: Op<E>)
    requires Orderly(s) && Enabled(s, op)
    ensures Orderly(Step(s, op))
  {
    hide SchedOk, Step, Enabled;
    var h :| SchedOk(s, h);
    var h' := StepKeepsOk(s, h, op);
  }

  /** And what it means for the callbacks made so far. */
  lemma OrderlyFires<E>(s: Sched<E>)
    requires Orderly(s)
    ensures FiredInOrder(s)
  {
    hide TimersOf;
    var h :| SchedOk(s, h);
    TimersOfConcat(ItemsOf(s.fired), s.pending);
    var fired := TimersOf(ItemsOf(s.fired));
    assert fired <= Due(s) + s.timers;
    assert forall i | 0 <= i < |fired| :: fired[i] == (Due(s) + s.timers)[i];
  }

  /**
   Timers fired in order of their deadlines, across all batches; none before the timeout its caller passed
   had passed since it was armed; and none twice for one upil_timer_add.
   */
  ghost predicate FiredInOrder<E>(s: Sched<E>) {
    && Sorted(TimersOf(ItemsOf(s.fired)))
    && OnTime(s.fired)
    && AsAsked(TimersOf(ItemsOf(s.fired)))
    && Distinct(TimersOf(ItemsOf(s.fired)), s.adds)
  }

  lemma {:induction false} RunKeepsOrderly<E>(s: Sched<E>, ops: seq<Op<E>>, t: Sched<E>)
    requires Orderly(s) && Run(s, ops, t)
    ensures Orderly(t)
    decreases |ops|
  {
    hide Orderly, Step, Enabled;
    if ops != [] {
      OrderlyStep(s, ops[0]);
      RunKeepsOrderly(Step(s, ops[0]), ops[1..], t);
    }
  }

  /** Over every run of these operations. */
  lemma TimersFireInOrder<E>(ops: seq<Op<E>>, t: Sched<E>)
    requires Run(Start(), ops, t)
    ensures FiredInOrder(t)
  {
    hide SchedOk, Run, FiredInOrder;
    StartOk<E>();
    RunKeepsOrderly(Start(), ops, t);
    OrderlyFires(t);
  }

  lemma StartOk<E>()
    ensures Orderly(Start<E>())
  {
    assert SchedOk(Start<E>(), 0);
  }
}
