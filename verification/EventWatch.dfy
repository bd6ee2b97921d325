/** The watch table of upil_event/upil_event.c as a value, and the countdown of processReadReadies over it. */
module EventWatch {

  const MAX_FD_EVENTS: nat := 16

  datatype Slot<+E> = Empty | Watched(ev: E, fd: int, persist: bool)

  predicate IsReady<E>(s: Slot<E>, ready: set<int>) {
    s.Watched? && s.fd in ready
  }

  /** The events of the ready slots, in slot order. */
  function ReadyIn<E>(slots: seq<Slot<E>>, ready: set<int>): (r: seq<E>)
    ensures |r| <= |slots|
  {
    if slots == [] then []
    else
      var s := slots[|slots| - 1];
      ReadyIn(slots[..|slots| - 1], ready) + if IsReady(s, ready) then [s.ev] else []
  }

  /** The table once the ready one-shot events of the first `k` slots are out. */
  function AfterReady<E>(slots: seq<Slot<E>>, ready: set<int>, k: nat): seq<Slot<E>> {
    seq(|slots|, i requires 0 <= i < |slots| =>
      if i < k && IsReady(slots[i], ready) && !slots[i].persist then Empty else slots[i])
  }

  function Fds<E>(slots: seq<Slot<E>>): set<int> {
    set i | 0 <= i < |slots| && slots[i].Watched? :: slots[i].fd
  }

  /** Watched descriptors differ. */
  predicate DistinctFds<E>(slots: seq<Slot<E>>) {
    forall i, j | 0 <= i < j < |slots| && slots[i].Watched? && slots[j].Watched? :: slots[i].fd != slots[j].fd
  }

  lemma NoneYet<E>(slots: seq<Slot<E>>, ready: set<int>)
    ensures AfterReady(slots, ready, 0) == slots && ReadyIn(slots[..0], ready) == []
  {
  }

  /** One more slot. */
  lemma ReadyStep<E>(slots: seq<Slot<E>>, ready: set<int>, i: nat)
    requires i < |slots|
    ensures ReadyIn(slots[..i + 1], ready)
      == ReadyIn(slots[..i], ready) + if IsReady(slots[i], ready) then [slots[i].ev] else []
    ensures AfterReady(slots, ready, i)[i] == slots[i]
    ensures AfterReady(slots, ready, i + 1)
      == AfterReady(slots, ready, i)[i := if IsReady(slots[i], ready) && !slots[i].persist then Empty else slots[i]]
  {
    assert slots[..i + 1][..i] == slots[..i];
  }

  lemma {:induction false} ReadyPrefix<E>(slots: seq<Slot<E>>, ready: set<int>, k: nat)
    requires k <= |slots|
    ensures ReadyIn(slots[..k], ready) <= ReadyIn(slots, ready)
  {
    if k < |slots| {
      var front := slots[..|slots| - 1];
      assert slots[..k] == front[..k];
      ReadyPrefix(front, ready, k);
    } else {
      assert slots[..k] == slots;
    }
  }

  /** The event of a ready slot stands behind those of the ready slots before it: slot order. */
  lemma ReadyAt<E>(slots: seq<Slot<E>>, ready: set<int>, i: nat)
    requires i < |slots| && slots[i].Watched? && slots[i].fd in ready
    ensures |ReadyIn(slots[..i], ready)| < |ReadyIn(slots, ready)|
    ensures ReadyIn(slots, ready)[|ReadyIn(slots[..i], ready)|] == slots[i].ev
  {
    ReadyStep(slots, ready, i);
    ReadyPrefix(slots, ready, i + 1);
  }

  /** Scanned once more for the same descriptors, the table has just its persistent events to give. */
  lemma ScannedAgain<E>(slots: seq<Slot<E>>, ready: set<int>, i: nat)
    requires i < |slots|
    ensures var again := AfterReady(slots, ready, |slots|);
      && (IsReady(again[i], ready) <==>
            slots[i].Watched? && slots[i].fd in ready && slots[i].persist && again[i] == slots[i])
      && (slots[i].Watched? && slots[i].fd !in ready ==> again[i] == slots[i])
  {
  }

  /** Stopping when the count is used up misses nothing: no slot after that is ready. */
  lemma {:induction false} NothingMissed<E>(slots: seq<Slot<E>>, ready: set<int>, k: nat)
    requires k <= |slots| && |ReadyIn(slots[..k], ready)| >= |ReadyIn(slots, ready)|
    ensures ReadyIn(slots[..k], ready) == ReadyIn(slots, ready)
    ensures AfterReady(slots, ready, k) == AfterReady(slots, ready, |slots|)
    decreases |slots|
  {
    ReadyPrefix(slots, ready, k);
    if k < |slots| {
      var n := |slots| - 1;
      var front := slots[..n];
      assert slots[..k] == front[..k];
      ReadyPrefix(front, ready, k);
      assert !IsReady(slots[n], ready);
      NothingMissed(front, ready, k);
      forall i | 0 <= i < n
        ensures AfterReady(slots, ready, k)[i] == AfterReady(slots, ready, |slots|)[i]
      {
        assert AfterReady(front, ready, k)[i] == AfterReady(front, ready, n)[i];
      }
    }
  }

  /** `select` counts the ready descriptors; the table holds exactly as many ready slots. */
  lemma {:induction false} SelectCounts<E>(slots: seq<Slot<E>>, ready: set<int>)
    requires DistinctFds(slots)
    ensures |ReadyIn(slots, ready)| == |Fds(slots) * ready|
  {
    hide Fds, DistinctFds, IsReady;
    if slots == [] {
      NoFds(slots);
    } else {
      var n := |slots| - 1;
      FdsSnoc(slots);
      FdIsNew(slots);
      SelectCounts(slots[..n], ready);
      OneMore(slots[n], Fds(slots[..n]), Fds(slots), ready);
    }
  }

  lemma NoFds<E>(slots: seq<Slot<E>>)
    requires slots == []
    ensures Fds(slots) == {}
  {
  }

  lemma OneMore<E>(s: Slot<E>, before: set<int>, after: set<int>, ready: set<int>)
    requires after == before + (if s.Watched? then {s.fd} else {})
    requires s.Watched? ==> s.fd !in before
    ensures |after * ready| == |before * ready| + if IsReady(s, ready) then 1 else 0
  {
    if IsReady(s, ready) {
      assert after * ready == before * ready + {s.fd};
    } else {
      assert after * ready == before * ready;
    }
  }

  lemma FdIsNew<E>(slots: seq<Slot<E>>)
    requires slots != [] && DistinctFds(slots)
    ensures DistinctFds(slots[..|slots| - 1])
    ensures slots[|slots| - 1].Watched? ==> slots[|slots| - 1].fd !in Fds(slots[..|slots| - 1])
  {
  }

  lemma FdsSnoc<E>(slots: seq<Slot<E>>)
    requires slots != []
    ensures var s := slots[|slots| - 1];
      Fds(slots) == Fds(slots[..|slots| - 1]) + if s.Watched? then {s.fd} else {}
  {
  }

  // ---------------------------------------------------------------- the caches

  /**
   The fd set and `nfds` that go with a table: the set is exactly the watched descriptors, and `nfds`
   is the highest of them plus one (0 or 1 when nothing is watched).
   */
  predicate CachesOk<E>(slots: seq<Slot<E>>, readFds: set<int>, nfds: int) {
    && DistinctFds(slots)
    && (forall i | 0 <= i < |slots| && slots[i].Watched? :: slots[i].fd >= 0)
    && readFds == Fds(slots)
    && (forall fd | fd in readFds :: fd < nfds)
    && (if readFds == {} then nfds == 0 || nfds == 1 else nfds - 1 in readFds)
  }

  lemma FdsOfEmpty<E>(slots: seq<Slot<E>>)
    requires forall i | 0 <= i < |slots| :: slots[i].Empty?
    ensures CachesOk(slots, {}, 0)
  {
  }

  /** upil_event_add's bookkeeping. */
  lemma AddKeepsCaches<E>(slots: seq<Slot<E>>, readFds: set<int>, nfds: int, i: nat, s: Slot<E>)
    requires CachesOk(slots, readFds, nfds) && i < |slots| && slots[i].Empty?
    requires s.Watched? && s.fd >= 0 && s.fd !in readFds
    ensures CachesOk(slots[i := s], readFds + {s.fd}, if s.fd >= nfds then s.fd + 1 else nfds)
  {
    var after := slots[i := s];
    forall fd
      ensures fd in Fds(after) <==> fd in Fds(slots) || fd == s.fd
    {
      if fd in Fds(slots) {
        var j :| 0 <= j < |slots| && slots[j].Watched? && slots[j].fd == fd;
        assert after[j].Watched? && after[j].fd == fd;
      }
      assert after[i].Watched? && after[i].fd == s.fd;
    }
    forall j, k | 0 <= j < k < |after| && after[j].Watched? && after[k].Watched?
      ensures after[j].fd != after[k].fd
    {
      assert slots[j].Watched? ==> slots[j].fd in Fds(slots);
      assert slots[k].Watched? ==> slots[k].fd in Fds(slots);
    }
  }

  /** removeWatch's bookkeeping; `n` is what its scan over the table comes to. */
  lemma RemoveKeepsCaches<E>(slots: seq<Slot<E>>, readFds: set<int>, nfds: int, i: nat, n: int)
    requires CachesOk(slots, readFds, nfds) && i < |slots| && slots[i].Watched?
    requires IsTop(Fds(slots[i := Empty]), n)
    ensures CachesOk(slots[i := Empty], readFds - {slots[i].fd}, if slots[i].fd + 1 == nfds then n + 1 else nfds)
  {
    var after := slots[i := Empty];
    forall fd
      ensures fd in Fds(after) <==> fd in Fds(slots) && fd != slots[i].fd
    {
      if fd in Fds(slots) && fd != slots[i].fd {
        var j :| 0 <= j < |slots| && slots[j].Watched? && slots[j].fd == fd;
        assert after[j].Watched? && after[j].fd == fd;
      }
      if fd in Fds(after) {
        var j :| 0 <= j < |after| && after[j].Watched? && after[j].fd == fd;
        assert j != i && slots[j].Watched? && slots[j].fd == fd;
      }
    }
  }

  /** The largest of a set of descriptors, 0 for none. */
  predicate IsTop(fds: set<int>, n: int) {
    n >= 0 && (forall fd | fd in fds :: fd <= n) && (n == 0 || n in fds)
  }
}
