/**
 The event loop context of upil_event/upil_event.c: two rings, the watch table with its cached fd set
 and `nfds`, and the operations on them. `View` is the context as `EventTimers` sees it.
 */
module EventLoop {
  import opened EventTimers
  import opened EventRings
  import opened EventWatch

  ghost function AsTimer(ev: Event): Timer<Event>
    reads ev`timeout, ev`arming
  {
    Timer(ev, ev.timeout, ev.arming)
  }

  ghost function AsTimers(evs: seq<Event>): (ts: seq<Timer<Event>>)
    reads evs`timeout, evs`arming
    ensures |ts| == |evs|
  {
    if evs == [] then [] else AsTimers(evs[..|evs| - 1]) + [AsTimer(evs[|evs| - 1])]
  }

  /** upil_timer_add clears the descriptor of a timer; watched descriptors are not negative. */
  ghost function AsItem(ev: Event): Item<Event>
    reads ev`fd, ev`timeout, ev`arming
  {
    if ev.fd < 0 then TimerItem(AsTimer(ev)) else ReadItem(ev)
  }

  ghost function AsItemList(evs: seq<Event>): (r: seq<Item<Event>>)
    reads evs`fd, evs`timeout, evs`arming
    ensures |r| == |evs|
  {
    if evs == [] then [] else AsItemList(evs[..|evs| - 1]) + [AsItem(evs[|evs| - 1])]
  }

  ghost predicate NoDescriptor(evs: seq<Event>)
    reads evs`fd
  {
    forall i | 0 <= i < |evs| :: evs[i].fd == -1
  }

  lemma {:induction false} AsTimersAt(evs: seq<Event>)
    ensures forall i | 0 <= i < |evs| :: AsTimers(evs)[i] == AsTimer(evs[i])
  {
    if evs != [] {
      AsTimersAt(evs[..|evs| - 1]);
    }
  }

  lemma {:induction false} AsItemsAt(evs: seq<Event>)
    ensures forall i | 0 <= i < |evs| :: AsItemList(evs)[i] == AsItem(evs[i])
  {
    if evs != [] {
      AsItemsAt(evs[..|evs| - 1]);
    }
  }

  lemma AsTimersConcat(a: seq<Event>, b: seq<Event>)
    ensures AsTimers(a + b) == AsTimers(a) + AsTimers(b)
  {
    AsTimersAt(a);
    AsTimersAt(b);
    AsTimersAt(a + b);
  }

  lemma AsTimersSplit(evs: seq<Event>, k: nat)
    requires k <= |evs|
    ensures AsTimers(evs[..k]) == AsTimers(evs)[..k] && AsTimers(evs[k..]) == AsTimers(evs)[k..]
  {
    AsTimersConcat(evs[..k], evs[k..]);
    assert evs == evs[..k] + evs[k..];
  }

  lemma NoDescriptorInsert(evs: seq<Event>, n: nat, ev: Event)
    requires n <= |evs| && NoDescriptor(evs) && ev.fd == -1
    ensures NoDescriptor(evs[..n] + [ev] + evs[n..])
  {
  }

  lemma AsTimersInsert(evs: seq<Event>, n: nat, ev: Event)
    requires n <= |evs|
    ensures AsTimers(evs[..n] + [ev] + evs[n..]) == AsTimers(evs)[..n] + [AsTimer(ev)] + AsTimers(evs)[n..]
  {
    AsTimersSplit(evs, n);
    AsTimersConcat(evs[..n] + [ev], evs[n..]);
    AsTimersConcat(evs[..n], [ev]);
    assert AsTimers([ev]) == [AsTimer(ev)];
  }

  lemma AsItemsConcat(a: seq<Event>, b: seq<Event>)
    ensures AsItemList(a + b) == AsItemList(a) + AsItemList(b)
  {
    AsItemsAt(a);
    AsItemsAt(b);
    AsItemsAt(a + b);
  }

  lemma TimersAreItems(evs: seq<Event>)
    requires NoDescriptor(evs)
    ensures AsItemList(evs) == AsItems(AsTimers(evs))
  {
  }

  ghost function AsSlot(ev: Event): Slot<Event>
    reads ev`fd, ev`persist
  {
    Watched(ev, ev.fd, ev.persist)
  }

  ghost function AsSlots(table: seq<Event?>): (slots: seq<Slot<Event>>)
    reads table`fd, table`persist
    ensures |slots| == |table|
  {
    if table == [] then []
    else
      var last := table[|table| - 1];
      AsSlots(table[..|table| - 1]) + [if last == null then Empty else AsSlot(last)]
  }

  lemma {:induction false} AsSlotsAt(table: seq<Event?>)
    ensures forall i | 0 <= i < |table| ::
      AsSlots(table)[i] == if table[i] == null then Empty else AsSlot(table[i])
  {
    if table != [] {
      AsSlotsAt(table[..|table| - 1]);
    }
  }

  class Context {
    var readFds: set<int>
    var nfds: int
    const watchTable: array<Event?>
    const timerList: Event
    const pendingList: Event
    /** The two rings, each from its head on. */
    ghost var timerRing: seq<Event>
    ghost var pendingRing: seq<Event>
    /** The events that are or have been on them, or that were deleted from the table. */
    var Repr: set<Event>
    /** The last reading of the clock. */
    var clock: TimeVal
    ghost var adds: nat
    ghost var fired: seq<Firing<Event>>
    /** What the callbacks returned. */
    ghost var results: seq<int>

    // -------------------------------------------------------------- the rings

    /** Both rings are well formed, and no event is on both. */
    ghost predicate Rings()
      reads `timerRing, `pendingRing, `Repr, Repr`next, Repr`prev
    {
      && (forall i | 0 <= i < |timerRing| :: timerRing[i] in Repr)
      && (forall i | 0 <= i < |pendingRing| :: pendingRing[i] in Repr)
      && Ring(timerRing) && Ring(pendingRing)
      && timerRing != [] && timerRing[0] == timerList && pendingRing != [] && pendingRing[0] == pendingList
      && forall i, j | 0 <= i < |timerRing| && 0 <= j < |pendingRing| :: timerRing[i] != pendingRing[j]
    }

    /** The queued timers and the pending events, in list order. */
    ghost function Timers(): seq<Event>
      reads `timerRing
    {
      if timerRing == [] then [] else timerRing[1..]
    }

    ghost function Pending(): seq<Event>
      reads `pendingRing
    {
      if pendingRing == [] then [] else pendingRing[1..]
    }

    ghost predicate Lists()
      reads this, timerList, pendingList, Repr, Timers()
    {
      && Rings() && timerList.fd == -1 && pendingList.fd == -1
      && NoDescriptor(Timers())
      && Sorted(AsTimers(Timers())) && AllNormal(AsTimers(Timers()))
    }

    ghost function Slots(): seq<Slot<Event>>
      reads watchTable, watchTable[..]`fd, watchTable[..]`persist
    {
      AsSlots(watchTable[..])
    }

    /** Every watched event knows its slot, and the caches go with the table. */
    ghost predicate Watch()
      reads `readFds, `nfds, watchTable, watchTable[..]`fd, watchTable[..]`persist, watchTable[..]`index
    {
      && watchTable.Length == MAX_FD_EVENTS
      && (forall i | 0 <= i < watchTable.Length && watchTable[i] != null :: watchTable[i].index == i)
      && CachesOk(Slots(), readFds, nfds)
    }

    ghost function View(): Sched<Event>
      reads this, Timers(), Pending()
    {
      Sched(clock, AsTimers(Timers()), AsItemList(Pending()), fired, adds)
    }

    constructor ()
      ensures timerList != pendingList && watchTable.Length == MAX_FD_EVENTS
      ensures fresh(timerList) && fresh(pendingList) && fresh(watchTable)
    {
      timerList := new Event(-1, false);
      pendingList := new Event(-1, false);
      watchTable := new Event?[MAX_FD_EVENTS](_ => null);
      Repr := {};
    }

    /** upil_event_init */
    method Init()
      requires timerList != pendingList && watchTable.Length == MAX_FD_EVENTS
      modifies this, timerList, pendingList, watchTable
      ensures Lists() && Watch() && View() == Start() && Orderly(View()) && Repr == {timerList, pendingList}
      ensures forall i | 0 <= i < MAX_FD_EVENTS :: watchTable[i] == null
    {
      hide Ring, Rings, Sorted, AllNormal, CachesOk, AsTimers, AsItemList, AsSlots, Orderly;
      readFds := {};
      InitList(timerList);
      InitList(pendingList);
      forall i | 0 <= i < MAX_FD_EVENTS {
        watchTable[i] := null;
      }
      nfds := 0;
      timerRing, pendingRing, Repr := [timerList], [pendingList], {timerList, pendingList};
      clock, adds, fired, results := TimeVal(0, 0), 0, [], [];
      EmptyLists();
      EmptyWatch();
      StartOk<Event>();
    }

    lemma EmptyLists()
      requires timerRing == [timerList] && pendingRing == [pendingList] && timerList != pendingList
      requires Repr == {timerList, pendingList} && Ring(timerRing) && Ring(pendingRing)
      requires timerList.fd == -1 && pendingList.fd == -1
      ensures Lists() && AsTimers(Timers()) == [] && AsItemList(Pending()) == []
    {
    }

    lemma EmptyWatch()
      requires watchTable.Length == MAX_FD_EVENTS && forall i | 0 <= i < MAX_FD_EVENTS :: watchTable[i] == null
      requires readFds == {} && nfds == 0
      ensures Watch()
    {
      AsSlotsAt(watchTable[..]);
      FdsOfEmpty(Slots());
    }

    /** The first timer goes from the head of its ring to the end of the pending ring. */
    method Move(tev: Event)
      requires Rings() && Timers() != [] && tev == Timers()[0]
      modifies `timerRing, `pendingRing, Repr`next, Repr`prev
      ensures Rings()
      ensures Timers() == old(Timers())[1..] && Pending() == old(Pending()) + [tev]
    {
      hide Rings, Ring;
      assert tev == timerRing[1] by { TimerAt(0); }
      OnOneRing(1);
      TakenOut(timerRing, 1);
      Unlink(tev, 1);
      AddPending(tev);
    }

    lemma TimerAt(i: nat)
      requires i < |Timers()|
      ensures i + 1 < |timerRing| && Timers()[i] == timerRing[i + 1]
    {
    }

    lemma OnOneRing(k: nat)
      requires Rings() && k < |timerRing|
      ensures timerRing[k] in Repr && timerRing[k] !in pendingRing
      ensures forall i, j | 0 <= i < j < |timerRing| :: timerRing[i] != timerRing[j]
    {
      hide Ring;
      RingDistinct(timerRing);
    }

    /** `timer_list.next` */
    method FirstTimer() returns (ev: Event)
      requires Rings()
      ensures if Timers() == [] then ev == timerList else ev == Timers()[0] && ev != timerList
    {
      assert timerRing[0] == timerList;
      ev := timerList.next;
    }

    /** processTimeouts' walk: it moves timers from the head until one is not due. */
    method MoveExpired(now: TimeVal) returns (ghost k: nat)
      requires Rings()
      modifies `timerRing, `pendingRing, Repr`next, Repr`prev
      ensures Rings()
      ensures k == Earlier(old(AsTimers(Timers())), now)
      ensures Timers() == old(Timers())[k..] && Pending() == old(Pending()) + old(Timers())[..k]
    {
      hide TimerLess, Ring, Rings, Timers, Pending, AsTimers, Earlier;
      ghost var ts := Timers();
      ghost var ds := AsTimers(ts);
      AsTimersAt(ts);
      k := 0;
      var tev := FirstTimer();
      while tev != timerList && TimerLess(tev.timeout, now)
        invariant Rings() && AsTimers(ts) == ds
        invariant k <= |ts| && Timers() == ts[k..] && Pending() == old(Pending()) + ts[..k]
        invariant if Timers() == [] then tev == timerList else tev == Timers()[0] && tev != timerList
        invariant k < |ts| ==> tev.timeout == ds[k].deadline
        invariant forall i | 0 <= i < k :: TimerLess(ds[i].deadline, now)
        decreases |ts| - k
      {
        Move(tev);
        tev := FirstTimer();
        k := k + 1;
        AsTimersAt(ts);
      }
      EarlierIs(ds, now, k);
    }

    /** processTimeouts */
    method ProcessExpired(now: TimeVal)
      requires Lists() && Enabled(View(), ProcessTimeouts(now))
      modifies `timerRing, `pendingRing, `clock, Repr`next, Repr`prev
      ensures Lists()
      ensures View() == Step(old(View()), ProcessTimeouts(now)) && clock == now
    {
      hide Ring, Rings, TimerLess, Earlier, Sorted, AllNormal, AsTimers, AsItemList, AsItems;
      ghost var evs := Timers();
      clock := now;
      ghost var k := MoveExpired(now);
      SuffixOk(AsTimers(evs), k);
      AsTimersSplit(evs, k);
      TimersAreItems(evs[..k]);
      AsItemsConcat(old(Pending()), evs[..k]);
    }

    /** calcNextTimeout */
    method CalcNextTimeout(now: TimeVal) returns (r: Sleep)
      requires Lists()
      ensures r == NextTimeout(AsTimers(Timers()), now)
    {
      hide TimerLess, Ring;
      AsTimersAt(Timers());
      RingDistinct(timerRing);
      var tev := FirstTimer();
      if tev == timerList {
        return Forever;
      }
      return if TimerLess(now, tev.timeout) then For(TimerSub(tev.timeout, now)) else For(TimeVal(0, 0));
    }

    /** The walk of upil_timer_add: the node to insert in front of, and where it stands in the ring. */
    method FindPlace(deadline: TimeVal) returns (list: Event, ghost k: nat)
      requires Rings()
      ensures k < |timerRing| && list == timerRing[k]
      ensures Earlier(AsTimers(Timers()), deadline) == if k == 0 then |Timers()| else k - 1
    {
      hide TimerLess, Ring, Earlier;
      ghost var ts := Timers();
      ghost var i := 0;
      AsTimersAt(ts);
      RingDistinct(timerRing);
      list := FirstTimer();
      while TimerLess(list.timeout, deadline) && list != timerList
        invariant i <= |ts| && list == if i < |ts| then ts[i] else timerList
        invariant forall j | 0 <= j < i :: TimerLess(ts[j].timeout, deadline)
        decreases |ts| - i
      {
        assert list == timerRing[i + 1];
        list := NextNode(list, i + 1);
        i := i + 1;
      }
      assert i < |ts| ==> timerRing[i + 1] == ts[i];
      EarlierIs(AsTimers(ts), deadline, i);
      k := if i < |ts| then i + 1 else 0;
    }

    method NextNode(ev: Event, ghost k: nat) returns (next: Event)
      requires Rings() && k < |timerRing| && ev == timerRing[k]
      ensures next == if k + 1 < |timerRing| then timerRing[k + 1] else timerList
    {
      next := ev.next;
    }

    /** upil_timer_add, with a timeout. */
    method TimerAddEvent(ev: Event, now: TimeVal, tv: TimeVal)
      requires Lists() && Enabled(View(), AddTimer(ev, now, tv))
      requires ev !in timerRing && ev !in pendingRing
      modifies `timerRing, `Repr, `clock, `adds, ev`fd, ev`timeout, ev`arming, ev`next, ev`prev
      modifies Repr`next, Repr`prev
      ensures Lists() && Repr == old(Repr) + {ev}
      ensures View() == Step(old(View()), AddTimer(ev, now, tv))
      ensures clock == now && Micros(ev.timeout) == Micros(now) + Micros(tv)
      ensures ev.arming == Arming(old(adds), now, tv)
      ensures ev in timerRing && ev.fd == -1 && forall x | x in timerRing :: x in old(timerRing) || x == ev
    {
      hide Ring, Rings, TimerLess, Earlier, Insert, Sorted, AllNormal, AsTimers, AsItemList, Before;
      ghost var ts := AsTimers(Timers());
      ghost var a := Arming(adds, now, tv);
      ghost var t := Timer(ev, TimerAdd(now, tv), a);
      clock := now;
      Arm(ev, TimerAdd(now, tv), a);
      adds := adds + 1;
      MacrosAreArithmetic(now, tv);
      InsertKeepsSorted(ts, t);
    }

    /** `ev` becomes a timer with this deadline, at its place in the ring. */
    method Arm(ev: Event, deadline: TimeVal, ghost arming: Arming)
      requires Rings() && NoDescriptor(Timers())
      requires ev !in timerRing && ev !in pendingRing
      modifies `timerRing, `Repr, ev`fd, ev`timeout, ev`arming, ev`next, ev`prev
      modifies Repr`next, Repr`prev
      ensures Rings() && NoDescriptor(Timers()) && Repr == old(Repr) + {ev} && ev in timerRing && ev.fd == -1
      ensures forall x | x in timerRing :: x in old(timerRing) || x == ev
      ensures AsTimers(Timers()) == Insert(old(AsTimers(Timers())), Timer(ev, deadline, arming))
      ensures ev.timeout == deadline && ev.arming == arming
      ensures AsItemList(Pending()) == old(AsItemList(Pending()))
    {
      hide Ring, Rings, TimerLess, Earlier, AsTimers, AsItemList, NoDescriptor, Timers, Before;
      ghost var ts := Timers();
      SetDeadline(ev, deadline, arming);
      assert Timers() == ts && NoDescriptor(ts);
      var list, k := FindPlace(ev.timeout);
      InsertNode(ev, list, k);
      NoDescriptorInsert(ts, Earlier(AsTimers(ts), ev.timeout), ev);
      AsTimersInsert(ts, Earlier(AsTimers(ts), ev.timeout), ev);
    }

    method SetDeadline(ev: Event, deadline: TimeVal, ghost arming: Arming)
      requires Rings() && NoDescriptor(Timers())
      requires ev !in timerRing && ev !in pendingRing
      modifies ev`fd, ev`timeout, ev`arming
      ensures Rings() && NoDescriptor(Timers()) && ev.fd == -1 && AsTimer(ev) == Timer(ev, deadline, arming)
      ensures AsTimers(Timers()) == old(AsTimers(Timers()))
      ensures AsItemList(Pending()) == old(AsItemList(Pending()))
    {
      hide Ring, AsTimers, AsItemList;
      assert ev !in Timers() && ev !in Pending();
      ev.fd := -1;
      ev.timeout := deadline;
      ev.arming := arming;
    }

    method InsertNode(ev: Event, list: Event, ghost k: nat)
      requires Rings() && k < |timerRing| && list == timerRing[k]
      requires ev !in timerRing && ev !in pendingRing
      modifies `timerRing, `Repr, ev`next, ev`prev, Repr`next, Repr`prev
      ensures Rings() && Repr == old(Repr) + {ev}
      ensures timerRing == Before(old(timerRing), k, ev) && ev in timerRing
      ensures forall x | x in timerRing :: x in old(timerRing) || x == ev
      ensures var n := if k == 0 then |old(Timers())| else k - 1;
        Timers() == old(Timers())[..n] + [ev] + old(Timers())[n..]
    {
      hide Ring, Before;
      ghost var tr := timerRing;
      ghost var pr := pendingRing;
      RingDistinct(tr);
      AddToList(ev, list, tr, k);
      timerRing := Before(tr, k, ev);
      Repr := Repr + {ev};
      BeforeTail(tr, k, ev);
      assert forall i | 0 <= i < |timerRing| :: timerRing[i] in tr || timerRing[i] == ev;
      assert Ring(pr) by { Untouched(pr); }
    }

    // -------------------------------------------------------------- the watch table

    /** upil_event_add: the first free slot, if there is one. */
    method EventAdd(ev: Event)
      requires Watch() && ev.fd >= 0 && ev.fd !in readFds
      requires forall i | 0 <= i < watchTable.Length :: watchTable[i] != ev
      modifies `readFds, `nfds, watchTable, ev`index
      ensures Watch()
      ensures (forall i | 0 <= i < |old(Slots())| :: old(Slots())[i].Watched?) ==>
        Slots() == old(Slots()) && readFds == old(readFds) && ev.index == old(ev.index)
      ensures (exists i | 0 <= i < |old(Slots())| :: old(Slots())[i].Empty?) ==>
        && readFds == old(readFds) + {ev.fd}
        && 0 <= ev.index < MAX_FD_EVENTS && old(Slots())[ev.index].Empty?
        && (forall i | 0 <= i < ev.index :: old(Slots())[i].Watched?)
        && Slots() == old(Slots())[ev.index := Watched(ev, ev.fd, ev.persist)]
      ensures forall i | 0 <= i < MAX_FD_EVENTS :: watchTable[i] == old(watchTable[i]) || watchTable[i] == ev
    {
      hide CachesOk;
      AsSlotsAt(watchTable[..]);
      for i := 0 to MAX_FD_EVENTS
        invariant forall j | 0 <= j < i :: watchTable[j] != null
        invariant unchanged(this) && unchanged(watchTable) && unchanged(ev)
      {
        if watchTable[i] == null {
          ghost var slots := Slots();
          watchTable[i] := ev;
          ev.index := i;
          AsSlotsAt(watchTable[..]);
          assert Slots() == slots[i := Watched(ev, ev.fd, ev.persist)];
          AddKeepsCaches(slots, readFds, nfds, i, AsSlot(ev));
          readFds := readFds + {ev.fd};
          if ev.fd >= nfds {
            nfds := ev.fd + 1;
          }
          return;
        }
      }
    }

    /** removeWatch */
    method RemoveWatch(ev: Event, index: nat)
      requires Watch() && index < MAX_FD_EVENTS && watchTable[index] == ev
      modifies `readFds, `nfds, watchTable, ev`index
      ensures Watch() && ev.index == -1
      ensures Slots() == old(Slots())[index := Empty] && readFds == old(readFds) - {ev.fd}
      ensures forall j | 0 <= j < MAX_FD_EVENTS :: watchTable[j] == if j == index then null else old(watchTable[j])
    {
      hide CachesOk;
      AsSlotsAt(watchTable[..]);
      ghost var slots := Slots();
      watchTable[index] := null;
      ev.index := -1;
      AsSlotsAt(watchTable[..]);
      assert Slots() == slots[index := Empty];
      var n := TopWatched();
      RemoveKeepsCaches(slots, readFds, nfds, index, n);
      readFds := readFds - {ev.fd};
      if ev.fd + 1 == nfds {
        nfds := n + 1;
      }
    }

    /** removeWatch's scan for the highest watched descriptor. */
    method TopWatched() returns (n: int)
      requires watchTable.Length == MAX_FD_EVENTS
      ensures IsTop(Fds(Slots()), n)
    {
      AsSlotsAt(watchTable[..]);
      ghost var slots := Slots();
      n := 0;
      for i := 0 to MAX_FD_EVENTS
        invariant n >= 0 && (n == 0 || n in Fds(slots))
        invariant forall j | 0 <= j < i && slots[j].Watched? :: slots[j].fd <= n
      {
        var rev := watchTable[i];
        if rev != null && rev.fd > n {
          assert slots[i].Watched? && slots[i].fd == rev.fd;
          n := rev.fd;
        }
      }
    }

    /** upil_event_del; the pending ring is not touched. */
    method EventDel(ev: Event)
      requires Watch() && (0 <= ev.index < MAX_FD_EVENTS ==> watchTable[ev.index] == ev)
      modifies `readFds, `nfds, watchTable, ev`index
      ensures Watch()
      ensures forall i | 0 <= i < MAX_FD_EVENTS :: watchTable[i] == null || watchTable[i] == old(watchTable[i])
      ensures Slots() ==
        if 0 <= old(ev.index) < MAX_FD_EVENTS then old(Slots())[old(ev.index) := Empty] else old(Slots())
    {
      if ev.index < 0 || ev.index >= MAX_FD_EVENTS {
        return;
      }
      RemoveWatch(ev, ev.index);
    }

    /** addToList(ev, &pending_list) */
    method Queue(ev: Event)
      requires Rings() && ev !in timerRing && ev !in pendingRing
      modifies `pendingRing, `Repr, ev`next, ev`prev, Repr`next, Repr`prev
      ensures Rings() && Repr == old(Repr) + {ev} && Pending() == old(Pending()) + [ev]
    {
      hide Ring;
      Repr := Repr + {ev};
      AddPending(ev);
    }

    method AddPending(ev: Event)
      requires Rings() && ev in Repr && ev !in timerRing && ev !in pendingRing
      modifies `pendingRing, Repr`next, Repr`prev
      ensures Rings() && Pending() == old(Pending()) + [ev]
    {
      hide Ring;
      ghost var tr := timerRing;
      ghost var pr := pendingRing;
      RingDistinct(pr);
      AddToList(ev, pendingList, pr, 0);
      pendingRing := Before(pr, 0, ev);
      assert Ring(tr) by { Untouched(tr); }
    }

    /** No pending event is watched in slot `i` or later. */
    ghost predicate Unqueued(slots: seq<Slot<Event>>, i: nat)
      reads `pendingRing, Pending()`fd
    {
      forall a, j | 0 <= a < |Pending()| && i <= j < |slots| && slots[j].Watched? ::
        Pending()[a].fd != slots[j].fd
    }

    /** One slot: a ready event is queued, and leaves the table unless it is persistent. */
    method ScanSlot(i: nat, ready: set<int>) returns (hit: bool)
      requires Lists() && Watch() && i < MAX_FD_EVENTS && Unqueued(Slots(), i)
      modifies `pendingRing, `Repr, `readFds, `nfds, watchTable
      modifies watchTable[..]`index, watchTable[..]`next, watchTable[..]`prev, Repr`next, Repr`prev
      ensures Lists() && Watch() && Unqueued(Slots(), i + 1)
      ensures hit <==> IsReady(old(Slots())[i], ready)
      ensures AsTimers(Timers()) == old(AsTimers(Timers()))
      ensures AsItemList(Pending()) == old(AsItemList(Pending())) + if hit then [ReadItem(old(Slots())[i].ev)] else []
      ensures Slots() == old(Slots())[i := if hit && !old(Slots())[i].persist then Empty else old(Slots())[i]]
      ensures forall x | x in Repr :: x in old(Repr) || x in old(watchTable[..])
      ensures forall j | 0 <= j < MAX_FD_EVENTS :: watchTable[j] == null || watchTable[j] == old(watchTable[j])
    {
      hide Ring, Rings, Sorted, AllNormal, AsTimers, AsItemList, CachesOk, AsSlots;
      AsSlotsAt(watchTable[..]);
      var rev := watchTable[i];
      hit := rev != null && rev.fd in ready;
      if hit {
        assert rev in watchTable[..];
        QueueReady(i, rev);
      } else {
        assert Slots()[i := Slots()[i]] == Slots();
        assert AsItemList(Pending()) + [] == AsItemList(Pending());
      }
    }

    method QueueReady(i: nat, rev: Event)
      requires Lists() && Watch() && Unqueued(Slots(), i)
      requires i < MAX_FD_EVENTS && watchTable[i] == rev
      modifies `pendingRing, `Repr, `readFds, `nfds, watchTable
      modifies rev`index, rev`next, rev`prev, Repr`next, Repr`prev
      ensures Lists() && Watch() && Unqueued(Slots(), i + 1) && Repr == old(Repr) + {rev}
      ensures AsTimers(Timers()) == old(AsTimers(Timers()))
      ensures AsItemList(Pending()) == old(AsItemList(Pending())) + [ReadItem(rev)]
      ensures Slots() == old(Slots())[i := if rev.persist then old(Slots())[i] else Empty]
      ensures forall j | 0 <= j < MAX_FD_EVENTS :: watchTable[j] == null || watchTable[j] == old(watchTable[j])
    {
      hide Ring, Rings, Sorted, AllNormal, AsTimers, AsItemList, CachesOk, AsSlots;
      AsSlotsAt(watchTable[..]);
      NotRinged(i);
      ghost var ps := Pending();
      ghost var slots := Slots();
      FdsDiffer();
      Queue(rev);
      AsItemsConcat(ps, [rev]);
      AsItemsAt([rev]);
      assert Unqueued(slots, i + 1);
      if !rev.persist {
        RemoveWatch(rev, i);
      }
    }

    lemma FdsDiffer()
      requires Watch()
      ensures DistinctFds(Slots())
    {
    }

    lemma NotRinged(i: nat)
      requires Lists() && Watch() && Unqueued(Slots(), i)
      requires i < MAX_FD_EVENTS && watchTable[i] != null
      ensures watchTable[i].fd >= 0 && watchTable[i] !in timerRing && watchTable[i] !in pendingRing
    {
      AsSlotsAt(watchTable[..]);
      assert Slots()[i].Watched? && Slots()[i].fd == watchTable[i].fd;
      assert forall a | 0 < a < |timerRing| :: timerRing[a] == Timers()[a - 1];
      assert forall a | 0 < a < |pendingRing| :: pendingRing[a] == Pending()[a - 1];
    }

    /**
     processReadReadies. The countdown stops the scan after `k` slots; when `n` is at least the number
     of ready watched descriptors it has missed nothing.
     */
    method ProcessReadReadies(ready: set<int>, n: int) returns (ghost k: nat, ghost queued: seq<Event>)
      requires Lists() && Watch() && Unqueued(Slots(), 0)
      modifies `pendingRing, `Repr, `readFds, `nfds, watchTable
      modifies watchTable[..]`index, watchTable[..]`next, watchTable[..]`prev, Repr`next, Repr`prev
      ensures Lists() && Watch()
      ensures k <= |old(Slots())| && queued == ReadyIn(old(Slots())[..k], ready)
      ensures View() == Step(old(View()), ProcessReady(queued))
      ensures forall x | x in Repr :: x in old(Repr) || x in old(watchTable[..])
      ensures forall j | 0 <= j < watchTable.Length :: watchTable[j] == null || watchTable[j] == old(watchTable[j])
      ensures Slots() == AfterReady(old(Slots()), ready, k)
      ensures n >= |ReadyIn(old(Slots()), ready)| ==>
        queued == ReadyIn(old(Slots()), ready) && Slots() == AfterReady(old(Slots()), ready, MAX_FD_EVENTS)
    {
      hide Ring, Rings, Lists, Watch, AsTimers, AsItemList, Slots, Timers, Pending, ReadyIn, AfterReady, Unqueued;
      var left := n;
      ghost var slots := Slots();
      SlotCount();
      assert slots[..MAX_FD_EVENTS] == slots;
      k, queued := 0, [];
      NoneYet(slots, ready);
      var i := 0;
      while i < MAX_FD_EVENTS && left > 0
        invariant Lists() && Watch() && Unqueued(Slots(), i)
        invariant i <= MAX_FD_EVENTS && k == i
        invariant queued == ReadyIn(slots[..i], ready) && left == n - |queued|
        invariant Slots() == AfterReady(slots, ready, i)
        invariant AsTimers(Timers()) == old(AsTimers(Timers()))
        invariant AsItemList(Pending()) == old(AsItemList(Pending())) + ReadItems(queued)
        invariant forall x | x in Repr :: x in old(Repr) || x in old(watchTable[..])
        invariant forall j | 0 <= j < watchTable.Length :: watchTable[j] == null || watchTable[j] == old(watchTable[j])
      {
        ReadyStep(slots, ready, i);
        var hit := ScanSlot(i, ready);
        if hit {
          queued := queued + [slots[i].ev];
          left := left - 1;
        }
        i := i + 1;
        k := i;
      }
      if n >= |ReadyIn(slots, ready)| {
        NothingMissed(slots, ready, k);
      }
    }

    lemma SlotCount()
      requires Watch()
      ensures |Slots()| == MAX_FD_EVENTS && watchTable.Length == MAX_FD_EVENTS
    {
    }

    // -------------------------------------------------------------- a turn of the loop

    /**
     What a callback may do to the context: any number of API calls that arm or watch events, new ones or
     any that are idle, whether or not they have fired or were deleted before, and delete timers or
     watched events, whichever they are. It leaves the pending ring alone.
     */
    method Callback() returns (ret: int)
      requires Lists() && Watch()
      modifies this, Repr, watchTable, watchTable[..]
      ensures Lists() && Watch() && pendingRing == old(pendingRing) && fired == old(fired)
      ensures results == old(results) + [ret]
      ensures AsItemList(Pending()) == old(AsItemList(Pending()))
      ensures Orderly(old(View())) ==> Orderly(View())
      ensures forall x | x in Repr :: x in old(Repr) || x in old(watchTable[..]) || fresh(x)
      ensures forall i | 0 <= i < watchTable.Length && watchTable[i] != null ::
        watchTable[i] in old(watchTable[..]) || watchTable[i] in old(Repr) || fresh(watchTable[i])
    {
      hide Rings, Watch, AsTimers, AsItemList, Orderly, Sorted, AllNormal, NoDescriptor;
      ApiCalls();
      ret := *;
      results := results + [ret];
    }

    /** Any number of API calls. */
    method ApiCalls()
      requires Lists() && Watch()
      modifies this, Repr, watchTable, watchTable[..]
      ensures Lists() && Watch() && pendingRing == old(pendingRing) && fired == old(fired) && results == old(results)
      ensures AsItemList(Pending()) == old(AsItemList(Pending()))
      ensures Orderly(old(View())) ==> Orderly(View())
      ensures forall x | x in Repr :: x in old(Repr) || x in old(watchTable[..]) || fresh(x)
      ensures forall i | 0 <= i < watchTable.Length && watchTable[i] != null ::
        watchTable[i] in old(watchTable[..]) || watchTable[i] in old(Repr) || fresh(watchTable[i])
    {
      hide Rings, Sorted, AllNormal, AsTimers, NoDescriptor, Watch, AsItemList, Pending, Orderly, View;
      var calls: nat := *;
      while calls > 0
        invariant Lists() && Watch() && pendingRing == old(pendingRing)
        invariant fired == old(fired) && results == old(results)
        invariant Orderly(old(View())) ==> Orderly(View())
        invariant AsItemList(Pending()) == old(AsItemList(Pending()))
        invariant forall x | x in Repr :: x in old(Repr) || x in old(watchTable[..]) || fresh(x)
        invariant forall i | 0 <= i < watchTable.Length && watchTable[i] != null ::
          watchTable[i] in old(watchTable[..]) || watchTable[i] in old(Repr) || fresh(watchTable[i])
      {
        CallbackStep();
        calls := calls - 1;
      }
    }

    /** One of those calls. */
    method CallbackStep()
      requires Lists() && Watch()
      modifies `timerRing, `Repr, `clock, `adds, `readFds, `nfds, Repr, watchTable, watchTable[..]
      ensures Lists() && Watch()
      ensures Orderly(old(View())) ==> Orderly(View())
      ensures AsItemList(Pending()) == old(AsItemList(Pending()))
      ensures forall x | x in Repr :: x in old(Repr) || x in old(watchTable[..]) || fresh(x)
      ensures forall i | 0 <= i < watchTable.Length && watchTable[i] != null ::
        watchTable[i] in old(watchTable[..]) || watchTable[i] in old(Repr) || fresh(watchTable[i])
    {
      hide Ring, Rings, CachesOk, AsTimers, AsItemList, AsSlots, Sorted, AllNormal, Orderly, View, NoDescriptor, Watch;
      if * {
        CallbackDelete();
      } else if * {
        var fd, persist: bool := *, *;
        var e := new Event(fd, persist);
        assert Lists() && Watch();
        CallbackAdd(e);
      } else if Repr != {} {
        var e :| e in Repr;
        if e.next == null {
          OffRings(e);
          CallbackAdd(e);
        }
      }
    }

    /** Every node of a ring is linked. */
    lemma OffRings(e: Event)
      requires Rings() && e.next == null
      ensures e !in timerRing && e !in pendingRing
    {
      hide Ring;
      RingLinks(timerRing);
      RingLinks(pendingRing);
    }

    method CallbackAdd(e: Event)
      requires Lists() && Watch() && e !in timerRing && e !in pendingRing
      modifies `timerRing, `Repr, `clock, `adds, `readFds, `nfds, watchTable, e, Repr`next, Repr`prev
      ensures Lists() && Watch() && Repr <= old(Repr) + {e}
      ensures AsItemList(Pending()) == old(AsItemList(Pending()))
      ensures Orderly(old(View())) ==> Orderly(View())
      ensures forall i | 0 <= i < watchTable.Length && watchTable[i] != null ::
        watchTable[i] in old(watchTable[..]) || watchTable[i] == e
    {
      hide Ring, Rings, CachesOk, AsTimers, AsItemList, AsSlots, Orderly, View;
      assert forall i | 0 <= i < watchTable.Length :: watchTable[i] in watchTable[..];
      if e in watchTable[..] {
        return;
      }
      if * {
        CallbackSet(e);
      }
      if * {
        CallbackTimerAdd(e);
      } else {
        CallbackEventAdd(e);
      }
    }

    /** upil_event_set on an event that is nowhere. */
    method CallbackSet(e: Event)
      requires Lists() && Watch() && e !in timerRing && e !in pendingRing && e !in watchTable[..]
      modifies e
      ensures Lists() && Watch() && View() == old(View()) && AsItemList(Pending()) == old(AsItemList(Pending()))
    {
      hide Ring, CachesOk, AsTimers, AsItemList, AsSlots, Sorted, AllNormal, NoDescriptor;
      assert e !in Timers() && e !in Pending();
      var fd, persist: bool := *, *;
      e.Set(fd, persist);
    }

    method CallbackTimerAdd(e: Event)
      requires Lists() && Watch() && e !in timerRing && e !in pendingRing
      modifies `timerRing, `Repr, `clock, `adds, e, Repr`next, Repr`prev
      ensures Lists() && Watch() && Repr <= old(Repr) + {e}
      ensures AsItemList(Pending()) == old(AsItemList(Pending()))
      ensures Orderly(old(View())) ==> Orderly(View())
    {
      hide Ring, Rings, CachesOk, AsTimers, AsItemList, AsSlots, Orderly;
      var now, tv := *, *;
      if e !in watchTable[..] && Normal(now) && Normal(tv) && Micros(clock) <= Micros(now) {
        if Orderly(View()) {
          OrderlyStep(View(), AddTimer(e, now, tv));
        }
        TimerAddEvent(e, now, tv);
      }
    }

    method CallbackEventAdd(e: Event)
      requires Lists() && Watch()
      modifies `readFds, `nfds, watchTable, e`index
      ensures Lists() && Watch() && View() == old(View())
      ensures forall i | 0 <= i < watchTable.Length && watchTable[i] != null ::
        watchTable[i] in old(watchTable[..]) || watchTable[i] == e
    {
      hide Ring, Rings, CachesOk, AsTimers, AsItemList, AsSlots;
      if e.fd >= 0 && e.fd !in readFds && e !in watchTable[..] {
        EventAdd(e);
      }
    }

    method CallbackDelete()
      requires Lists() && Watch()
      modifies `timerRing, `Repr, `readFds, `nfds, watchTable, watchTable[..]`index, Repr`next, Repr`prev
      ensures Lists() && Watch()
      ensures AsItemList(Pending()) == old(AsItemList(Pending()))
      ensures Orderly(old(View())) ==> Orderly(View())
      ensures forall x | x in Repr :: x in old(Repr) || x in old(watchTable[..])
      ensures forall i | 0 <= i < watchTable.Length && watchTable[i] != null :: watchTable[i] in old(watchTable[..])
    {
      hide Rings, Lists, Watch, AsTimers, AsItemList, AsSlots, Orderly, View, Pending;
      if * {
        CallbackEventDel();
      } else {
        CallbackTimerDel();
      }
      assert forall i | 0 <= i < watchTable.Length :: watchTable[i] in watchTable[..];
    }

    /** upil_event_del on any watched event. */
    method CallbackEventDel()
      requires Lists() && Watch()
      modifies `Repr, `readFds, `nfds, watchTable, watchTable[..]`index
      ensures Lists() && Watch() && View() == old(View())
      ensures AsItemList(Pending()) == old(AsItemList(Pending()))
      ensures forall x | x in Repr :: x in old(Repr) || x in old(watchTable[..])
      ensures forall i | 0 <= i < watchTable.Length && watchTable[i] != null :: watchTable[i] in old(watchTable[..])
    {
      hide Ring, Rings, CachesOk, AsTimers, AsItemList, AsSlots, Sorted, AllNormal, NoDescriptor;
      assert forall i | 0 <= i < watchTable.Length :: watchTable[i] in watchTable[..];
      var w :| 0 <= w < MAX_FD_EVENTS;
      var e := watchTable[w];
      if e != null {
        Remember(e);
        EventDel(e);
      }
    }

    method Remember(e: Event)
      requires Lists()
      modifies `Repr
      ensures Lists() && Repr == old(Repr) + {e} && View() == old(View())
      ensures AsItemList(Pending()) == old(AsItemList(Pending()))
    {
      hide Ring, AsTimers, AsItemList, Sorted, AllNormal, NoDescriptor;
      Repr := Repr + {e};
    }

    /** upil_timer_del on any queued timer. */
    method CallbackTimerDel()
      requires Lists()
      modifies `timerRing, Repr`next, Repr`prev
      ensures Lists() && AsItemList(Pending()) == old(AsItemList(Pending()))
      ensures Orderly(old(View())) ==> Orderly(View())
    {
      hide Ring, Rings, AsTimers, AsItemList, Sorted, AllNormal, Orderly;
      var ev; ghost var i;
      ev, i := AnyTimer();
      if ev != timerList {
        if Orderly(View()) {
          OrderlyStep(View(), DeleteTimer(i));
        }
        TimerDel(ev, i);
      }
    }

    /** A timer found any number of nodes down the ring, or its head. */
    method AnyTimer() returns (ev: Event, ghost i: nat)
      requires Rings()
      ensures ev != timerList ==> i < |Timers()| && ev == Timers()[i]
    {
      hide Ring;
      RingDistinct(timerRing);
      i := 0;
      ev := FirstTimer();
      var steps: nat := *;
      while ev != timerList && steps > 0
        invariant i <= |Timers()| && ev == if i < |Timers()| then Timers()[i] else timerList
      {
        assert ev == timerRing[i + 1];
        ev := NextNode(ev, i + 1);
        i, steps := i + 1, steps - 1;
      }
    }

    /** One pass of firePending's loop; `next` is saved before the callback runs. */
    method FireNext(ev: Event) returns (ret: int, next: Event)
      requires Lists() && Watch() && Pending() != [] && ev == Pending()[0]
      modifies this, Repr, watchTable, watchTable[..]
      ensures Lists() && Watch()
      ensures Pending() == old(Pending())[1..]
      ensures ItemsOf(fired) + AsItemList(Pending()) == old(ItemsOf(fired) + AsItemList(Pending()))
      ensures |fired| == |old(fired)| + 1 && results == old(results) + [ret]
      ensures Orderly(old(View())) ==> Orderly(View())
      ensures if Pending() == [] then next == pendingList else next == Pending()[0] && next != pendingList
      ensures forall x | x in Repr :: x in old(Repr) || x in old(watchTable[..]) || fresh(x)
      ensures forall i | 0 <= i < watchTable.Length && watchTable[i] != null ::
        watchTable[i] in old(watchTable[..]) || watchTable[i] in old(Repr) || fresh(watchTable[i])
    {
      hide Rings, Lists, Watch, AsTimers, AsItemList, AsSlots, Orderly, View, Pending, ItemsOf;
      next := TakeFirst(ev);
      ret := Callback();
    }

    method TakeFirst(ev: Event) returns (next: Event)
      requires Lists() && Watch() && Pending() != [] && ev == Pending()[0]
      modifies `pendingRing, `fired, Repr`next, Repr`prev
      ensures Lists() && Watch() && Repr == old(Repr) && ev in Repr && ev !in timerRing && ev !in pendingRing
      ensures Pending() == old(Pending())[1..]
      ensures ItemsOf(fired) + AsItemList(Pending()) == old(ItemsOf(fired) + AsItemList(Pending()))
      ensures |fired| == |old(fired)| + 1
      ensures Orderly(old(View())) ==> Orderly(View())
      ensures if Pending() == [] then next == pendingList else next == Pending()[0] && next != pendingList
    {
      hide Rings, Lists, Watch, AsTimers, AsItemList, AsSlots, Orderly, ItemsOf;
      if Orderly(View()) {
        OrderlyStep(View(), FireOne);
      }
      ghost var items := AsItemList(Pending());
      next := NextPending(ev);
      TakePending(ev);
      MovesOver(old(fired), fired, items);
    }

    lemma MovesOver(before: seq<Firing<Event>>, after: seq<Firing<Event>>, items: seq<Item<Event>>)
      requires items != [] && |after| == |before| + 1 && after[..|before|] == before
      requires after[|before|].item == items[0]
      ensures ItemsOf(after) + items[1..] == ItemsOf(before) + items
    {
    }

    /** `ev->next`, saved before the first pending event is taken off its ring. */
    method NextPending(ev: Event) returns (next: Event)
      requires Lists() && Pending() != [] && ev == Pending()[0]
      ensures ev in Repr
      ensures if |Pending()| == 1 then next == pendingList else next == Pending()[1] && next != pendingList
    {
      hide Ring;
      assert ev == pendingRing[1];
      RingLinks(pendingRing);
      RingDistinct(pendingRing);
      next := ev.next;
    }

    lemma RingLinks(r: seq<Event>)
      requires Ring(r)
      ensures forall i | 0 <= i < |r| :: r[i].next == NextIn(r, i)
    {
    }

    /** These callbacks ran, one for each result; none but the last was negative, and `ret` is the last. */
    static ghost predicate StopsAt(before: seq<int>, after: seq<int>, calls: int, ret: int) {
      && before <= after && calls == |after| - |before|
      && (forall i | |before| <= i < |after| - 1 :: after[i] >= 0)
      && ret == if calls == 0 then 0 else after[|after| - 1]
    }

    static lemma NoCall(results: seq<int>)
      ensures StopsAt(results, results, 0, 0)
    {
    }

    static lemma OneMoreCall(before: seq<int>, after: seq<int>, calls: int, last: int, ret: int)
      requires StopsAt(before, after, calls, last) && last >= 0
      ensures StopsAt(before, after + [ret], calls + 1, ret)
    {
    }

    /**
     firePending. The pending events are called back from the first on, until one returns a negative
     value: those called back and those left over are the pending events, in order. When none is
     negative nothing is left over; the first negative result is the last, and is returned.
     */
    method FirePending() returns (ret: int)
      requires Lists() && Watch()
      modifies this, Repr, watchTable, watchTable[..]
      ensures Lists() && Watch()
      ensures ItemsOf(fired) + AsItemList(Pending()) == old(ItemsOf(fired) + AsItemList(Pending()))
      ensures ret >= 0 ==> Pending() == []
      ensures StopsAt(old(results), results, |fired| - |old(fired)|, ret)
      ensures Orderly(old(View())) ==> Orderly(View())
      ensures forall x | x in Repr :: x in old(Repr) || x in old(watchTable[..]) || fresh(x)
      ensures forall i | 0 <= i < watchTable.Length && watchTable[i] != null ::
        watchTable[i] in old(watchTable[..]) || watchTable[i] in old(Repr) || fresh(watchTable[i])
    {
      hide Rings, Sorted, AllNormal, AsTimers, NoDescriptor, Watch, AsItemList, Pending, ItemsOf, Orderly, View,
        StopsAt, Lists;
      ret := 0;
      NoCall(results);
      FirstPending();
      var ev: Event := pendingList.next;
      while ev != pendingList
        invariant Lists() && Watch()
        invariant if Pending() == [] then ev == pendingList else ev == Pending()[0] && ev != pendingList
        invariant ItemsOf(fired) + AsItemList(Pending()) == old(ItemsOf(fired) + AsItemList(Pending()))
        invariant StopsAt(old(results), results, |fired| - |old(fired)|, ret) && ret >= 0
        invariant Orderly(old(View())) ==> Orderly(View())
        invariant forall x | x in Repr :: x in old(Repr) || x in old(watchTable[..]) || fresh(x)
        invariant forall i | 0 <= i < watchTable.Length && watchTable[i] != null ::
          watchTable[i] in old(watchTable[..]) || watchTable[i] in old(Repr) || fresh(watchTable[i])
        decreases |Pending()|
      {
        var next;
        ghost var calls, last, so := |fired| - |old(fired)|, ret, results;
        ret, next := FireNext(ev);
        OneMoreCall(old(results), so, calls, last, ret);
        if ret < 0 {
          break;
        }
        ev := next;
      }
    }

    /** Nothing pending is watched, when nothing is pending but timers. */
    lemma TimersUnqueued(ts: seq<Timer<Event>>)
      requires Watch() && AsItemList(Pending()) == AsItems(ts)
      ensures Unqueued(Slots(), 0)
    {
      hide AsItemList, AsSlots;
      AsItemsAt(Pending());
      assert forall i | 0 <= i < |Pending()| :: AsItemList(Pending())[i].TimerItem?;
    }

    /** What a turn finds to do: the timers due before `wake`, then the ready events. */
    ghost function Found(wake: TimeVal, ready: set<int>): seq<Item<Event>>
      reads this, watchTable, watchTable[..]`fd, watchTable[..]`persist, Timers()
    {
      AsItems(DueBefore(AsTimers(Timers()), wake)) + ReadItems(ReadyIn(Slots(), ready))
    }

    lemma FoundIs(wake: TimeVal, ready: set<int>)
      ensures Found(wake, ready) == AsItems(DueBefore(AsTimers(Timers()), wake)) + ReadItems(ReadyIn(Slots(), ready))
    {
    }

    /** processTimeouts and processReadReadies, on an empty pending ring. */
    method Collect(wake: TimeVal, ready: set<int>, n: int)
      requires Lists() && Watch() && Pending() == []
      requires Normal(wake) && Micros(clock) <= Micros(wake)
      requires n == |ready|
      modifies `pendingRing, `timerRing, `clock, `Repr, `readFds, `nfds, watchTable
      modifies watchTable[..]`index, watchTable[..]`next, watchTable[..]`prev, Repr`next, Repr`prev
      ensures Lists() && Watch()
      ensures AsItemList(Pending()) == old(Found(wake, ready))
      ensures Orderly(old(View())) ==> Orderly(View())
      ensures Slots() == AfterReady(old(Slots()), ready, MAX_FD_EVENTS)
      ensures forall x | x in Repr :: x in old(Repr) || x in old(watchTable[..])
      ensures forall i | 0 <= i < watchTable.Length && watchTable[i] != null :: watchTable[i] in old(watchTable[..])
    {
      hide Rings, Sorted, AllNormal, AsTimers, NoDescriptor, CachesOk, AsItemList, AsSlots, DueBefore, ReadyIn, Earlier,
        AfterReady, AsItems, Orderly;
      ghost var ts := AsTimers(Timers());
      ghost var slots := Slots();
      CountReady(slots, ready, n);
      if Orderly(View()) {
        OrderlyStep(View(), ProcessTimeouts(wake));
      }
      ProcessExpired(wake);
      WalkFindsAllDue(ts, wake);
      assert AsItemList(Pending()) == AsItems(DueBefore(ts, wake));
      TimersUnqueued(DueBefore(ts, wake));
      ghost var k, queued;
      label expired:
      k, queued := ProcessReadReadies(ready, n);
      if old@expired(Orderly(View())) {
        OrderlyStep(old@expired(View()), ProcessReady(queued));
      }
    }

    /**
     One turn of upil_event_loop that starts with nothing pending. `ready` is what `select` left in its
     copy of the fd set, which may hold descriptors that are no longer watched, and `n` its count. Called
     back are every timer due before `wake`, in deadline order, then every ready event still watched, in
     slot order, up to the first callback that returns a negative value; if none does, all are, and the
     turn ends with nothing pending.
     */
    method Turn(wake: TimeVal, ready: set<int>, n: int) returns (ret: int)
      requires Lists() && Watch() && Pending() == []
      requires Normal(wake) && Micros(clock) <= Micros(wake)
      requires n == |ready|
      modifies this, Repr, watchTable, watchTable[..]
      ensures Lists() && Watch()
      ensures Orderly(old(View())) ==> Orderly(View())
      ensures forall x | x in Repr :: x in old(Repr) || x in old(watchTable[..]) || fresh(x)
      ensures forall i | 0 <= i < watchTable.Length && watchTable[i] != null ::
        watchTable[i] in old(watchTable[..]) || watchTable[i] in old(Repr) || fresh(watchTable[i])
      ensures ItemsOf(fired) + AsItemList(Pending()) == ItemsOf(old(fired))
        + old(AsItems(DueBefore(AsTimers(Timers()), wake)) + ReadItems(ReadyIn(Slots(), ready)))
      ensures ret >= 0 ==>
        && Pending() == []
        && ItemsOf(fired) == ItemsOf(old(fired))
          + old(AsItems(DueBefore(AsTimers(Timers()), wake)) + ReadItems(ReadyIn(Slots(), ready)))
      ensures StopsAt(old(results), results, |fired| - |old(fired)|, ret)
    {
      hide Rings, Sorted, AllNormal, AsTimers, NoDescriptor, CachesOk, AsItemList, AsSlots, AfterReady, Orderly,
        View, AsItems, ReadItems, DueBefore, ReadyIn, StopsAt, Found, Timers, Slots, ItemsOf;
      FoundIs(wake, ready);
      Collect(wake, ready, n);
      ret := FirePending();
      assert ItemsOf(fired) + [] == ItemsOf(fired);
    }

    /**
     upil_event_loop, for any number of turns. It ends with the first callback that returns a negative
     value, or when `select` fails. Between two turns the other threads add and delete as they
     like, and `select` may be interrupted or fail. All along, the timers called back come in deadline
     order, none before its deadline has passed, and none twice for one upil_timer_add.
     */
    method Loop(turns: nat) returns (ret: int)
      requires Lists() && Watch() && Pending() == [] && Orderly(View())
      modifies this, Repr, watchTable, watchTable[..]
      ensures Lists() && Watch() && Orderly(View()) && FiredInOrder(View())
      ensures ret >= 0 ==> Pending() == []
      ensures EndsAt(old(results), results, ret)
    {
      hide Rings, Sorted, AllNormal, AsTimers, NoDescriptor, Watch, AsItemList, Found, Pending, Orderly, View,
        FiredInOrder;
      ret := 0;
      var left := turns;
      while left > 0 && ret >= 0
        invariant Lists() && Watch() && Orderly(View()) && (ret >= 0 ==> Pending() == [])
        invariant EndsAt(old(results), results, ret)
        invariant forall x | x in Repr :: x in old(Repr) || x in old(watchTable[..]) || fresh(x)
        invariant forall i | 0 <= i < watchTable.Length && watchTable[i] != null ::
          watchTable[i] in old(watchTable[..]) || watchTable[i] in old(Repr) || fresh(watchTable[i])
      {
        OtherThreads();
        ghost var before := results;
        ret := Select();
        assert forall i | |before| <= i < |results| - 1 :: results[i] >= 0;
        left := left - 1;
      }
      OrderlyFires(View());
    }

    /** No callback runs after a negative result, and the loop returns it; or `select` failed. */
    static ghost predicate EndsAt(before: seq<int>, after: seq<int>, ret: int) {
      && before <= after
      && (forall i | |before| <= i < |after| - 1 :: after[i] >= 0)
      && (ret >= 0 ==> forall i | |before| <= i < |after| :: after[i] >= 0)
      && (|after| > |before| && after[|after| - 1] < 0 ==> ret == after[|after| - 1])
    }

    /** Whatever other threads add or delete while the loop sleeps. */
    method OtherThreads()
      requires Lists() && Watch() && Pending() == []
      modifies this, Repr, watchTable, watchTable[..]
      ensures Lists() && Watch() && Pending() == [] && results == old(results) && fired == old(fired)
      ensures Orderly(old(View())) ==> Orderly(View())
      ensures forall x | x in Repr :: x in old(Repr) || x in old(watchTable[..]) || fresh(x)
      ensures forall i | 0 <= i < watchTable.Length && watchTable[i] != null ::
        watchTable[i] in old(watchTable[..]) || watchTable[i] in old(Repr) || fresh(watchTable[i])
    {
      hide Rings, Sorted, AllNormal, AsTimers, NoDescriptor, Watch, AsItemList, Orderly, View;
      ApiCalls();
    }

    /** One pass of the loop: `select` fails, is interrupted, or leaves some watched descriptors ready. */
    method Select() returns (ret: int)
      requires Lists() && Watch() && Pending() == []
      modifies this, Repr, watchTable, watchTable[..]
      ensures Lists() && Watch() && (ret >= 0 ==> Pending() == []) && (Orderly(old(View())) ==> Orderly(View()))
      ensures EndsAt(old(results), results, ret)
      ensures forall x | x in Repr :: x in old(Repr) || x in old(watchTable[..]) || fresh(x)
      ensures forall i | 0 <= i < watchTable.Length && watchTable[i] != null ::
        watchTable[i] in old(watchTable[..]) || watchTable[i] in old(Repr) || fresh(watchTable[i])
    {
      hide Rings, Sorted, AllNormal, AsTimers, NoDescriptor, Watch, AsItemList, Found, Pending, Orderly, View;
      ret := 0;
      var wake, ready := *, *;
      if * {
        ret := -1;
      } else if Normal(wake) && Micros(clock) <= Micros(wake) {
        ret := Turn(wake, ready, |ready|);
      }
    }

    /** `select` counts no fewer than are ready and still watched. */
    lemma CountReady(slots: seq<Slot<Event>>, ready: set<int>, n: int)
      requires CachesOk(slots, readFds, nfds) && n == |ready|
      ensures n >= |ReadyIn(slots, ready)|
    {
      SelectCounts(slots, ready);
      NoMore(Fds(slots) * ready, ready);
    }

    // -------------------------------------------------------------- deleting and firing

    /** upil_timer_del on a queued timer. */
    method TimerDel(ev: Event, ghost i: nat)
      requires Lists() && i < |Timers()| && ev == Timers()[i]
      modifies `timerRing, Repr`next, Repr`prev
      ensures Lists() && View() == Step(old(View()), DeleteTimer(i)) && timerRing == Without(old(timerRing), i + 1)
    {
      hide Ring, Rings, Sorted, AllNormal, AsTimers, AsItemList;
      ghost var ts := Timers();
      Unlink(ev, i + 1);
      AsTimersConcat(ts[..i], ts[i + 1..]);
      AsTimersSplit(ts, i);
      AsTimersSplit(ts, i + 1);
      WithoutOk(AsTimers(ts), i);
    }

    method Unlink(ev: Event, ghost k: nat)
      requires Rings() && 0 < k < |timerRing| && ev == timerRing[k]
      modifies `timerRing, Repr`next, Repr`prev
      ensures Rings() && timerRing == Without(old(timerRing), k)
      ensures Timers() == old(Timers())[..k - 1] + old(Timers())[k..]
    {
      hide Ring;
      ghost var pr := pendingRing;
      RemoveFromList(ev, timerRing, k);
      ghost var ts := Timers();
      timerRing := Without(timerRing, k);
      assert Timers() == ts[..k - 1] + ts[k..];
      assert Ring(pr) by { Untouched(pr); }
    }

    /** firePending's removeFromList of the first pending event, which is about to be called back. */
    method TakePending(ev: Event)
      requires Lists() && Pending() != [] && ev == Pending()[0]
      modifies `pendingRing, `fired, Repr`next, Repr`prev
      ensures Lists() && Pending() == old(Pending())[1..] && Repr == old(Repr)
      ensures ev !in timerRing && ev !in pendingRing
      ensures Steps(old(View()), FireOne, View())
    {
      hide Ring, Rings, Sorted, AllNormal, AsTimers, AsItemList;
      ghost var ps := Pending();
      AsItemsConcat([ev], ps[1..]);
      assert ps == [ev] + ps[1..];
      AsItemsAt([ev]);
      fired := fired + [Firing(AsItem(ev), Micros(clock))];
      UnlinkPending(ev);
    }

    method UnlinkPending(ev: Event)
      requires Rings() && Pending() != [] && ev == Pending()[0]
      modifies `pendingRing, Repr`next, Repr`prev
      ensures Rings() && Pending() == old(Pending())[1..]
      ensures ev !in timerRing && ev !in pendingRing
    {
      hide Ring;
      ghost var pr := pendingRing;
      ghost var tr := timerRing;
      RingDistinct(pr);
      RemoveFromList(ev, pr, 1);
      pendingRing := Without(pr, 1);
      assert ev !in pendingRing by { TakenOut(pr, 1); }
      assert Ring(tr) by { Untouched(tr); }
    }

    lemma FirstPending()
      requires Lists()
      ensures pendingList.next != null
      ensures if Pending() == [] then pendingList.next == pendingList
              else pendingList.next == Pending()[0] && pendingList.next != pendingList
    {
      assert pendingRing[0] == pendingList;
    }

    lemma TakenOut(r: seq<Event>, k: nat)
      requires k < |r| && forall i, j | 0 <= i < j < |r| :: r[i] != r[j]
      ensures r[k] !in Without(r, k)
    {
    }

    lemma RingDistinct(r: seq<Event>)
      requires Ring(r)
      ensures forall i, j | 0 <= i < j < |r| :: r[i] != r[j]
    {
    }

    twostate lemma Untouched(r: seq<Event>)
      requires old(Ring(r))
      requires forall i | 0 <= i < |r| :: r[i].next == old(r[i].next) && r[i].prev == old(r[i].prev)
      ensures Ring(r)
    {
    }
  }

  lemma BeforeTail(r: seq<Event>, k: nat, ev: Event)
    requires k < |r|
    ensures var n := if k == 0 then |r| - 1 else k - 1;
      Before(r, k, ev)[1..] == r[1..][..n] + [ev] + r[1..][n..]
    ensures Before(r, k, ev)[0] == r[0] && ev in Before(r, k, ev)
    ensures forall x | x in Before(r, k, ev) :: x in r || x == ev
  {
  }

  lemma WithoutOk<E>(ts: seq<Timer<E>>, i: nat)
    requires i < |ts| && Sorted(ts) && AllNormal(ts)
    ensures Sorted(ts[..i] + ts[i + 1..]) && AllNormal(ts[..i] + ts[i + 1..])
  {
  }

  lemma SuffixOk<E>(ts: seq<Timer<E>>, k: nat)
    requires k <= |ts| && Sorted(ts) && AllNormal(ts)
    ensures Sorted(ts[k..]) && AllNormal(ts[k..])
  {
  }

  lemma NoMore(part: set<int>, all: set<int>)
    requires part <= all
    ensures |part| <= |all|
  {
    assert all == part + (all - part);
  }
}
