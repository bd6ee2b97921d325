/** The intrusive doubly linked rings of upil_event/upil_event.c. */
module EventRings {
  import opened EventTimers

  class Event {
    var next: Event?
    var prev: Event?
    var fd: int
    var index: int
    var persist: bool
    var timeout: TimeVal
    /** The upil_timer_add that armed it last. */
    ghost var arming: Arming

    /** A new event after upil_event_set; for a list head, after init_list's memset. */
    constructor (fd: int, persist: bool)
      ensures this.fd == fd && this.persist == persist && index == -1 && next == null && prev == null
      ensures timeout == TimeVal(0, 0)
    {
      next, prev := null, null;
      this.fd := fd;
      index := -1;
      this.persist := persist;
      timeout := TimeVal(0, 0);
    }

    /** upil_event_set, on an event used before. */
    method Set(fd: int, persist: bool)
      modifies this
      ensures this.fd == fd && this.persist == persist && index == -1 && next == null && prev == null
      ensures timeout == TimeVal(0, 0)
    {
      next, prev := null, null;
      this.fd := fd;
      index := -1;
      this.persist := persist;
      timeout := TimeVal(0, 0);
    }
  }

  ghost function NextIn(r: seq<Event>, i: nat): Event
    requires i < |r|
  {
    if i + 1 < |r| then r[i + 1] else r[0]
  }

  ghost function PrevIn(r: seq<Event>, i: nat): Event
    requires i < |r|
  {
    if i > 0 then r[i - 1] else r[|r| - 1]
  }

  /** The nodes of a ring from its head on, linked both ways and all different. */
  ghost predicate Ring(r: seq<Event>)
    reads r`next, r`prev
  {
    && r != []
    && (forall i {:trigger r[i]} | 0 <= i < |r| :: r[i].next == NextIn(r, i) && r[i].prev == PrevIn(r, i))
    && forall i, j | 0 <= i < j < |r| :: r[i] != r[j]
  }

  /** `ev` in front of node `k`; in front of the head is the end of the list. */
  ghost function Before(r: seq<Event>, k: nat, ev: Event): seq<Event>
    requires k < |r|
  {
    if k == 0 then r + [ev] else r[..k] + [ev] + r[k..]
  }

  ghost function Without(r: seq<Event>, k: nat): seq<Event>
    requires k < |r|
  {
    r[..k] + r[k + 1..]
  }

  /** init_list */
  method InitList(list: Event)
    modifies list
    ensures Ring([list]) && list.fd == -1 && list.timeout == TimeVal(0, 0)
  {
    list.timeout := TimeVal(0, 0);
    list.next := list;
    list.prev := list;
    list.fd := -1;
  }

  /** addToList */
  method AddToList(ev: Event, list: Event, ghost r: seq<Event>, ghost k: nat)
    requires Ring(r) && ev !in r && k < |r| && list == r[k]
    modifies ev`next, ev`prev, r`next, r`prev
    ensures Ring(Before(r, k, ev))
  {
    ev.next := list;
    ev.prev := list.prev;
    ev.prev.next := ev;
    list.prev := ev;
    Linked(ev, r, k);
  }

  lemma BeforeDistinct(r: seq<Event>, k: nat, ev: Event)
    requires k < |r| && ev !in r && forall i, j | 0 <= i < j < |r| :: r[i] != r[j]
    ensures forall i, j | 0 <= i < j < |Before(r, k, ev)| :: Before(r, k, ev)[i] != Before(r, k, ev)[j]
  {
  }

  /** The links after the four assignments of addToList. */
  lemma Linked(ev: Event, r: seq<Event>, k: nat)
    requires k < |r| && ev !in r
    requires forall i, j | 0 <= i < j < |r| :: r[i] != r[j]
    requires ev.next == r[k] && ev.prev == PrevIn(r, k)
    requires forall i {:trigger r[i]} | 0 <= i < |r| ::
      && r[i].next == (if r[i] == PrevIn(r, k) then ev else NextIn(r, i))
      && r[i].prev == (if i == k then ev else PrevIn(r, i))
    ensures Ring(Before(r, k, ev))
  {
    var b := Before(r, k, ev);
    var m := if k == 0 then |r| else k;
    BeforeDistinct(r, k, ev);
    forall i | 0 <= i < |b|
      ensures b[i].next == NextIn(b, i) && b[i].prev == PrevIn(b, i)
    {
      assert b[i] == if i < m then r[i] else if i == m then ev else r[i - 1];
      assert PrevIn(r, k) == r[m - 1];
    }
  }

  /** removeFromList */
  method RemoveFromList(ev: Event, ghost r: seq<Event>, ghost k: nat)
    requires Ring(r) && 0 < k < |r| && ev == r[k]
    modifies r`next, r`prev
    ensures Ring(Without(r, k)) && ev.next == null && ev.prev == null
  {
    assert ev.next == r[if k + 1 < |r| then k + 1 else 0] && ev.prev == r[k - 1];
    ev.next.prev := ev.prev;
    ev.prev.next := ev.next;
    ev.next := null;
    ev.prev := null;
    Unlinked(r, k, if k + 1 < |r| then k + 1 else 0);
  }

  lemma WithoutDistinct(r: seq<Event>, k: nat)
    requires k < |r| && forall i, j | 0 <= i < j < |r| :: r[i] != r[j]
    ensures forall i, j | 0 <= i < j < |Without(r, k)| :: Without(r, k)[i] != Without(r, k)[j]
  {
  }

  /** The links after removeFromList; `q` is where the node behind `k` stands. */
  lemma Unlinked(r: seq<Event>, k: nat, q: nat)
    requires 0 < k < |r| && q == if k + 1 < |r| then k + 1 else 0
    requires forall i, j | 0 <= i < j < |r| :: r[i] != r[j]
    requires forall i {:trigger r[i]} | 0 <= i < |r| && i != k ::
      && r[i].next == (if i == k - 1 then r[q] else NextIn(r, i))
      && r[i].prev == (if i == q then r[k - 1] else PrevIn(r, i))
    ensures Ring(Without(r, k))
  {
    var w := Without(r, k);
    WithoutDistinct(r, k);
    forall i | 0 <= i < |w|
      ensures w[i].next == NextIn(w, i)
    {
      assert w[i] == if i < k then r[i] else r[i + 1];
    }
    forall i | 0 <= i < |w|
      ensures w[i].prev == PrevIn(w, i)
    {
      assert w[i] == if i < k then r[i] else r[i + 1];
    }
  }
}
