/** upil_audio/audio_utils/echo_reference.c on its buffers, proved to take the steps of `EchoRuns`. */
module EchoReference {
  import opened EchoTiming
  import opened EchoRuns

  class Echoer {
    const mono: bool
    const rate: nat
    var reading: bool
    var writing: bool
    var buffer: array?<Frame>
    var bufSize: nat
    var framesIn: nat
    var wrBuf: array?<Frame>
    var wrBufSize: nat
    var wrRenderTime: TimeSpec
    var playbackDelay: int
    ghost var written: seq<Frame>
    ghost var delivered: seq<Frame>

    ghost predicate Valid()
      reads this
    {
      && rate > 0
      && bufSize == (if buffer == null then 0 else buffer.Length)
      && wrBufSize == (if wrBuf == null then 0 else wrBuf.Length)
      && framesIn <= bufSize
      && (buffer != null && wrBuf != null ==> buffer != wrBuf)
    }

    /** The frames in the main buffer. */
    ghost function Frames(): (f: seq<Frame>)
      reads this, buffer
      requires Valid()
      ensures |f| == framesIn
    {
      if buffer == null then [] else buffer[..framesIn]
    }

    ghost function Abs(): Echo
      reads this, buffer
      requires Valid()
    {
      Echo(reading, writing, Frames(), wrRenderTime, playbackDelay, written, delivered)
    }

    /** create_echo_reference, for a reader of one or two channels at the writer's rate. */
    constructor (mono: bool, rate: nat)
      requires rate > 0
      ensures Valid() && Abs() == Init().echo && this.mono == mono && this.rate == rate
      ensures buffer == null && wrBuf == null
    {
      this.mono := mono;
      this.rate := rate;
      reading, writing := false, false;
      buffer, bufSize, framesIn := null, 0, 0;
      wrBuf, wrBufSize := null, 0;
      wrRenderTime, playbackDelay := NO_TIME, 0;
      written, delivered := [], [];
    }

    /** echo_reference_reset_l */
    method ResetBuffers()
      requires Valid()
      modifies this
      ensures Valid() && Abs() == Reset(old(Abs())) && buffer == null && wrBuf == null
    {
      buffer, bufSize, framesIn := null, 0, 0;
      wrBuf, wrBufSize := null, 0;
      wrRenderTime := NO_TIME;
    }

    /** realloc(er->buffer, size): the old frames, then memory with nothing particular in it. */
    method Grow(size: nat)
      requires Valid() && size > bufSize
      modifies `buffer, `bufSize
      ensures Valid() && bufSize == size && buffer != null && fresh(buffer)
      ensures buffer[..old(bufSize)] == if old(buffer) == null then [] else old(buffer[..])
    {
      var bigger := new Frame[size];
      if buffer != null {
        forall i | 0 <= i < buffer.Length {
          bigger[i] := buffer[i];
        }
      }
      buffer := bigger;
      bufSize := size;
    }

    /** The frames of a write, in the conversion buffer if they have to be averaged. */
    method Converted(raw: seq<(int, int)>) returns (src: seq<Frame>)
      requires Valid()
      modifies `wrBuf, `wrBufSize, wrBuf
      ensures Valid() && src == Convert(raw, mono)
    {
      if !mono {
        return Convert(raw, false);
      }
      if wrBufSize < |raw| {
        wrBuf := new Frame[|raw|];
        wrBufSize := |raw|;
      }
      if wrBuf == null {
        return [];
      }
      var dst: array<Frame> := wrBuf;
      var i := 0;
      while i < |raw|
        invariant i <= |raw| && dst == wrBuf && dst.Length == wrBufSize >= |raw|
        invariant forall j | 0 <= j < i :: dst[j] == Convert(raw, true)[j]
        invariant buffer == old(buffer)
      {
        dst[i] := Mono((raw[i].0 + raw[i].1) / 2);
        i := i + 1;
      }
      src := dst[..|raw|];
    }

    /** echo_reference_write with a buffer. */
    method WriteFrames(raw: seq<(int, int)>, time: TimeSpec, delay: int)
      requires Valid()
      modifies this, buffer, wrBuf
      ensures Valid() && Abs() == Write(old(Abs()), raw, mono, time, delay)
    {
      if time == NO_TIME && wrRenderTime == NO_TIME {
        return;
      }
      writing := true;
      if !reading {
        return;
      }
      wrRenderTime := time;
      playbackDelay := delay;
      var src := Converted(raw);
      Append(src);
    }

    /** The frames go behind those in the buffer, which grows to just hold them if it must. */
    method Append(src: seq<Frame>)
      requires Valid()
      modifies `buffer, `bufSize, `framesIn, `written, buffer
      ensures Valid() && Frames() == old(Frames()) + src && written == old(written) + src
    {
      ghost var before := Frames();
      if framesIn + |src| > bufSize {
        Grow(framesIn + |src|);
      }
      if buffer != null {
        assert buffer[..framesIn] == before;
        forall i | 0 <= i < |src| {
          buffer[framesIn + i] := src[i];
        }
      }
      framesIn := framesIn + |src|;
      written := written + src;
    }

    /** The head of echo_reference_read, up to its wait; `raw` is the reader's buffer. */
    method StartRead(raw: array<Frame>, count: nat) returns (goesOn: bool)
      requires Valid() && raw.Length >= count && raw != buffer && raw != wrBuf
      modifies this, raw
      ensures Valid() && (buffer == null || buffer == old(buffer))
      ensures Abs() == BeginRead(old(Abs()), count) && (goesOn <==> GoesOn(Abs()))
      ensures !goesOn ==> raw[..count] == Zeros(count)
    {
      if !reading {
        ResetBuffers();
        reading := true;
      }
      if !writing {
        forall i | 0 <= i < count {
          raw[i] := Silence;
        }
        delivered := delivered + Zeros(count);
        return false;
      }
      return true;
    }

    /**
     The rest of echo_reference_read, after any wait. `count` is how many frames the reader gets; they
     are the first of the aligned buffer, and what is left is the rest of it.
     */
    method FinishRead(raw: array<Frame>, req: Request) returns (count: nat)
      requires Valid() && raw.Length >= req.count && raw != buffer && raw != wrBuf
      modifies this, raw, buffer
      ensures Valid() && Abs() == EndRead(old(Abs()), req, rate)
      ensures count == Min(req.count, |old(Frames())|) && delivered == old(delivered) + raw[..count]
    {
      hide Aligned, EndRead, Frames;
      count := req.count;
      if framesIn < count {
        count := framesIn;
      }
      EndReadIs(Abs(), req, rate);
      AlignFor(req, count);
      Deliver(raw, count);
    }

    /** The realignment step, taken when both time stamps are set. */
    method AlignFor(req: Request, count: nat)
      requires Valid() && count == Min(req.count, framesIn)
      modifies `buffer, `bufSize, `framesIn, buffer
      ensures Valid() && (buffer == old(buffer) || fresh(buffer))
      ensures Frames() == Aligned(old(Abs()), req, rate) && count <= framesIn
    {
      hide Realign, Realigns, TimeDiff, Target;
      AlignedEnough(Abs(), req, rate);
      if wrRenderTime != NO_TIME && req.time != NO_TIME {
        Align(count, playbackDelay + req.delay - TimeDiff(req.time, wrRenderTime));
      }
    }

    /** The first `count` frames are copied out and the others move to the front. */
    method Deliver(raw: array<Frame>, count: nat)
      requires Valid() && count <= framesIn && raw.Length >= count && raw != buffer
      modifies `framesIn, `delivered, raw, buffer
      ensures Valid() && raw[..count] == old(Frames())[..count]
      ensures Frames() == old(Frames())[count..] && delivered == old(delivered) + old(Frames())[..count]
    {
      delivered := delivered + Frames()[..count];
      if buffer == null {
        return;
      }
      forall i | 0 <= i < count {
        raw[i] := buffer[i];
      }
      framesIn := framesIn - count;
      forall i | 0 <= i < framesIn {
        buffer[i] := buffer[i + count];
      }
    }

    /** The realignment step. */
    method Align(count: nat, expected: int)
      requires Valid() && count <= framesIn
      modifies `buffer, `bufSize, `framesIn, buffer
      ensures Valid() && (buffer == old(buffer) || fresh(buffer))
      ensures Frames() == Realign(old(Frames()), count, expected, rate)
    {
      hide ToInt32, Abs32, Target, Excess, Padded, Shortened;
      if expected > 0 {
        var delay := Excess(framesIn, expected, rate);
        if Abs32(ToInt32(delay)) >= MIN_DELAY_UPDATE_NS {
          if delay < 0 {
            TargetNotBelow(framesIn, expected, rate);
            Pad(Target(expected, rate));
          } else {
            TargetNotAbove(framesIn, expected, rate);
            Cut(count, Target(expected, rate));
          }
        }
      }
    }

    /** Silence behind the frames, up to `n`. */
    method Pad(n: nat)
      requires Valid() && framesIn <= n
      modifies `buffer, `bufSize, `framesIn, buffer
      ensures Valid() && (buffer == old(buffer) || fresh(buffer))
      ensures Frames() == Padded(old(Frames()), n)
    {
      var previous := framesIn;
      if n > bufSize {
        Grow(n);
      }
      framesIn := n;
      if buffer != null {
        forall i | previous <= i < n {
          buffer[i] := Silence;
        }
      }
    }

    /** `n` frames are due, no more than there are: the newest `n`, or `count` if that is more. */
    method Cut(count: nat, n: nat)
      requires Valid() && count <= framesIn && n <= framesIn
      modifies `framesIn, buffer
      ensures Valid()
      ensures Frames() == Shortened(old(Frames()), count, n)
    {
      var offset := framesIn - n;
      if n < count {
        if n > 0 && buffer != null {
          forall i | n <= i < count {
            buffer[i] := Silence;
          }
          assert buffer[..count] == old(buffer[..n]) + Zeros(count - n);
        }
        framesIn := count;
      } else {
        if offset > 0 && buffer != null {
          forall i | 0 <= i < n {
            buffer[i] := buffer[i + offset];
          }
          assert buffer[..n] == old(buffer[..framesIn])[offset..];
        }
        framesIn := n;
      }
    }

    /** echo_reference_write without a buffer. */
    method StopWriting()
      requires Valid()
      modifies this
      ensures Valid() && Abs() == StopWrite(old(Abs()))
    {
      writing := false;
      ResetBuffers();
    }

    /** echo_reference_read without a buffer. */
    method StopReading()
      requires Valid()
      modifies `reading
      ensures Valid() && Abs() == StopRead(old(Abs()))
    {
      reading := false;
    }
  }
}
