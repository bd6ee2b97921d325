/**
 The time alignment of upil_audio/audio_utils/echo_reference.c: how many frames the buffer should hold
 for a given delay, and how a read gets it there.
 */
module EchoTiming {

  const NANOS := 1000000000

  /** Half a sample at 8 kHz. */
  const MIN_DELAY_UPDATE_NS := 62500

  /** A frame of the reference signal; `Silence` is a frame the buffer was zero-filled with. */
  datatype Frame = Silence | Mono(sample: int) | Stereo(left: int, right: int)

  datatype TimeSpec = TimeSpec(sec: int, nsec: int)

  function Nanos(t: TimeSpec): int {
    t.sec * NANOS + t.nsec
  }

  /** The difference of two time stamps, taken with a borrow as the code does. */
  function TimeDiff(a: TimeSpec, b: TimeSpec): int {
    var d := if a.nsec < b.nsec then TimeSpec(a.sec - b.sec - 1, NANOS + a.nsec - b.nsec)
             else TimeSpec(a.sec - b.sec, a.nsec - b.nsec);
    d.sec * NANOS + d.nsec
  }

  lemma TimeDiffIs(a: TimeSpec, b: TimeSpec)
    ensures TimeDiff(a, b) == Nanos(a) - Nanos(b)
  {
  }

  // ---------------------------------------------------------------- when a read realigns

  /** `(int)x` for a 64-bit `x`: its low 32 bits. */
  function ToInt32(x: int): int {
    var low := x % 0x1_0000_0000;
    if low >= 0x8000_0000 then low - 0x1_0000_0000 else low
  }

  /** `abs` of an `int`; the smallest int has no positive counterpart and stays what it is. */
  function Abs32(i: int): int {
    if i < 0 && i != -0x8000_0000 then -i else i
  }

  /** How far, in nanoseconds, `frames` frames are from the expected delay; the division drops fractions. */
  function Excess(frames: nat, expected: int, rate: nat): int
    requires rate > 0
  {
    frames * NANOS / rate - expected
  }

  predicate Realigns(frames: nat, expected: int, rate: nat)
    requires rate > 0
  {
    expected > 0 && Abs32(ToInt32(Excess(frames, expected, rate))) >= MIN_DELAY_UPDATE_NS
  }

  /**
   Since `abs` sees only 32 bits, a read realigns exactly when the excess is at least the threshold
   away from every multiple of 2^32 nanoseconds (about 4.3 s), and is not half-way between two.
   */
  lemma RealignsExactly(frames: nat, expected: int, rate: nat)
    requires rate > 0
    ensures var low := Excess(frames, expected, rate) % 0x1_0000_0000;
      Realigns(frames, expected, rate) <==>
        && expected > 0 && low != 0x8000_0000
        && MIN_DELAY_UPDATE_NS <= low <= 0x1_0000_0000 - MIN_DELAY_UPDATE_NS
  {
  }

  /** Up to two seconds off, the threshold is what it says. */
  lemma RealignsWithinTwoSeconds(frames: nat, expected: int, rate: nat)
    requires rate > 0 && expected > 0
    requires -0x8000_0000 < Excess(frames, expected, rate) < 0x8000_0000
    ensures var x := Excess(frames, expected, rate);
      Realigns(frames, expected, rate) <==> x >= MIN_DELAY_UPDATE_NS || x <= -MIN_DELAY_UPDATE_NS
  {
  }

  /** An excess the threshold test does not see: short by 2^32 nanoseconds, and no realignment. */
  lemma MissedRealignment()
    ensures Excess(0, 0x1_0000_0000, 8000) == -0x1_0000_0000
    ensures !Realigns(0, 0x1_0000_0000, 8000)
  {
  }

  // ---------------------------------------------------------------- what a realignment leaves

  /** The number of frames that make up the expected delay, fractions dropped. */
  function Target(expected: int, rate: nat): (n: nat)
    requires expected > 0
  {
    Nonnegative(expected, rate);
    expected * rate / NANOS
  }

  lemma Nonnegative(expected: int, rate: nat)
    requires expected > 0
    ensures expected * rate >= 0
  {
  }

  /** Short of the expected delay, the target is no fewer frames than there are: the subtraction is safe. */
  lemma TargetNotBelow(frames: nat, expected: int, rate: nat)
    requires rate > 0 && expected > 0 && Excess(frames, expected, rate) < 0
    ensures frames <= Target(expected, rate)
  {
    var a := frames * NANOS;
    assert a / rate < expected;
    FloorBelow(a, rate, expected);
    assert a < expected * rate;
    assert frames * NANOS <= expected * rate;
  }

  /** At or past the expected delay, it is no more. */
  lemma TargetNotAbove(frames: nat, expected: int, rate: nat)
    requires rate > 0 && expected > 0 && Excess(frames, expected, rate) >= 0
    ensures Target(expected, rate) <= frames
  {
  }

  /** floor(a / b) < c exactly when a / b < c, for an integer c. */
  lemma FloorBelow(a: int, b: nat, c: int)
    requires b > 0
    ensures a / b < c <==> a < c * b
  {
    var q := a / b;
    var r := a % b;
    assert a == q * b + r;
    if q < c {
      assert (q + 1) * b <= c * b by { MulMonotone(q + 1, c, b); }
    } else {
      assert c * b <= q * b by { MulMonotone(c, q, b); }
    }
  }

  lemma MulMonotone(x: int, y: int, b: nat)
    requires x <= y
    ensures x * b <= y * b
  {
  }

  function Zeros(n: nat): (s: seq<Frame>)
    ensures |s| == n
  {
    seq(n, _ => Silence)
  }

  /**
   The buffered frames after the realignment step of a read for `count` frames: padded with silence
   when the delay is too short; when it is too long, cut at the old end of the signal, or, if not
   even `count` frames are due, cut down to `count`.
   */
  function Realign(frames: seq<Frame>, count: nat, expected: int, rate: nat): seq<Frame>
    requires rate > 0 && count <= |frames|
  {
    if !Realigns(|frames|, expected, rate) then frames
    else
      var n := Target(expected, rate);
      if Excess(|frames|, expected, rate) < 0 then
        TargetNotBelow(|frames|, expected, rate);
        Padded(frames, n)
      else
        TargetNotAbove(|frames|, expected, rate);
        Shortened(frames, count, n)
  }

  /** Silence behind the frames, up to `n` of them. */
  function Padded(frames: seq<Frame>, n: nat): seq<Frame>
    requires |frames| <= n
  {
    frames + Zeros(n - |frames|)
  }

  /** The newest `n` frames; or, when `count` are asked for and `n` is fewer, the oldest `n` and silence. */
  function Shortened(frames: seq<Frame>, count: nat, n: nat): seq<Frame>
    requires n <= |frames| && count <= |frames|
  {
    if n >= count then frames[|frames| - n..]
    else if n > 0 then frames[..n] + Zeros(count - n)
    else frames[..count]
  }

  /**
   A realignment leaves the target number of frames, or the `count` about to be delivered if that is
   more; with or without one there are at least `count`, so taking them out cannot wrap around.
   */
  lemma RealignLength(frames: seq<Frame>, count: nat, expected: int, rate: nat)
    requires rate > 0 && count <= |frames|
    ensures |Realign(frames, count, expected, rate)| >= count
    ensures Realigns(|frames|, expected, rate) ==>
      |Realign(frames, count, expected, rate)|
        == if Target(expected, rate) < count then count else Target(expected, rate)
  {
    hide Realigns, Excess, Target;
    if Realigns(|frames|, expected, rate) {
      var n := PositiveTarget(|frames|, expected, rate);
      if Excess(|frames|, expected, rate) < 0 {
        TargetNotBelow(|frames|, expected, rate);
      } else {
        TargetNotAbove(|frames|, expected, rate);
      }
    }
  }

  lemma PositiveTarget(frames: nat, expected: int, rate: nat) returns (n: nat)
    requires rate > 0 && Realigns(frames, expected, rate)
    ensures expected > 0 && n == Target(expected, rate)
  {
    n := Target(expected, rate);
  }

  /**
   What a realignment does to the frames. Short of the expected delay, they are followed by silence. Past
   it, the oldest are dropped and the newest stay, as many as the delay makes up; if that is fewer than
   the `count` about to be delivered, just the first `count` stay, those beyond the delay silenced.
   */
  lemma RealignKeepsNewest(frames: seq<Frame>, count: nat, expected: int, rate: nat)
    requires rate > 0 && count <= |frames| && Realigns(|frames|, expected, rate)
    ensures var r := Realign(frames, count, expected, rate);
      var n := expected * rate / NANOS;
      if |frames| * NANOS / rate < expected then
        |r| == n >= |frames| && r[..|frames|] == frames && forall i | |frames| <= i < n :: r[i] == Silence
      else if n >= count then
        |r| == n <= |frames| && frames == frames[..|frames| - n] + r
      else
        && |r| == count
        && (n == 0 ==> r == frames[..count])
        && (n > 0 ==> r[..n] == frames[..n] && forall i | n <= i < count :: r[i] == Silence)
  {
    hide Realigns;
    var n := PositiveTarget(|frames|, expected, rate);
    if Excess(|frames|, expected, rate) < 0 {
      TargetNotBelow(|frames|, expected, rate);
    } else {
      TargetNotAbove(|frames|, expected, rate);
    }
  }

  /** Realigning again, for the same delay and the same request, changes nothing. */
  lemma RealignTwice(frames: seq<Frame>, count: nat, expected: int, rate: nat)
    requires rate > 0 && count <= |frames|
    ensures |Realign(frames, count, expected, rate)| >= count
    ensures Realign(Realign(frames, count, expected, rate), count, expected, rate)
      == Realign(frames, count, expected, rate)
  {
    hide Target, Excess, ToInt32, Abs32;
    RealignLength(frames, count, expected, rate);
    var r := Realign(frames, count, expected, rate);
    RealignLength(r, count, expected, rate);
    if Realigns(|frames|, expected, rate) {
      var n := Target(expected, rate);
      if n < count {
        TargetBelowCount(|r|, expected, rate);
      }
    }
  }

  /** More frames than the target are never short of the expected delay. */
  lemma TargetBelowCount(frames: nat, expected: int, rate: nat)
    requires rate > 0 && expected > 0 && Target(expected, rate) < frames
    ensures Excess(frames, expected, rate) >= 0
  {
    if Excess(frames, expected, rate) < 0 {
      TargetNotBelow(frames, expected, rate);
    }
  }
}
