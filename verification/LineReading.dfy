/** The input buffer of ril-telephone/atchannel.c and `readline`, which cuts lines out of it. */
module LineReading {
  import opened CStrings
  import opened Framing

  /** The AT descriptor: `input` is what the modem sends until it closes the line. */
  class Descriptor {
    var input: string
    /** How many reads have failed. */
    ghost var failed: nat

    constructor (input: string)
      ensures this.input == input
    {
      this.input := input;
    }

    /** `read`, after any EINTR: some bytes, as many as it likes; 0 at the end; or an error. */
    method Read(dst: array<char>, at: nat, room: nat) returns (count: int)
      requires at + room <= dst.Length && room > 0
      modifies this, dst
      ensures count <= room && count <= |old(input)|
      ensures failed == old(failed) + if count < 0 then 1 else 0
      ensures count <= 0 ==> input == old(input) && dst[..] == old(dst[..])
      ensures count == 0 ==> input == ""
      ensures count > 0 ==> input == old(input)[count..]
      ensures count > 0 ==> forall j | 0 <= j < count :: dst[at + j] == old(input)[j]
      ensures forall j | 0 <= j < dst.Length && !(at <= j < at + count) :: dst[j] == old(dst[j])
    {
      if * {
        failed := failed + 1;
        return -1;
      }
      if input == "" {
        return 0;
      }
      count :| 1 <= count <= room && count <= |input|;
      forall j | 0 <= j < count {
        dst[at + j] := input[j];
      }
      input := input[count..];
    }
  }

  class LineReader {
    const buf: array<char>
    const fd: Descriptor
    var cur: nat
    /** Where the data in the buffer ends. */
    ghost var end: nat

    /** The buffer is closed by a NUL, and so is the data in it. */
    ghost predicate Closed()
      reads this, buf
    {
      && buf.Length == MAX_AT_RESPONSE + 1 && buf[MAX_AT_RESPONSE] == NUL
      && end <= MAX_AT_RESPONSE && buf[end] == NUL
    }

    /** The cursor is in the data or at its end. */
    ghost predicate Valid()
      reads this, buf
    {
      Closed() && cur <= end
    }

    /** The cursor is behind the NUL that ends the data, where a prompt leaves it. */
    ghost predicate PastPrompt()
      reads this, buf
    {
      Closed() && cur == end + 1
    }

    /** The cursor points into the buffer: what a call needs. */
    ghost predicate InBuffer()
      reads this, buf
    {
      (Valid() || PastPrompt()) && cur <= MAX_AT_RESPONSE
    }

    /** The first NUL from `i` on. */
    ghost function FirstNul(i: nat): (n: nat)
      reads this, buf
      requires Closed() && i <= MAX_AT_RESPONSE
      ensures i <= n <= MAX_AT_RESPONSE && buf[n] == NUL
      ensures forall j | i <= j < n :: buf[j] != NUL
      decreases MAX_AT_RESPONSE - i
    {
      if buf[i] == NUL then i else FirstNul(i + 1)
    }

    lemma FirstNulIs(i: nat, n: nat)
      requires Closed() && i <= n <= MAX_AT_RESPONSE
      requires buf[n] == NUL && NUL !in buf[i..n]
      ensures FirstNul(i) == n
    {
      assert forall j | i <= j < n :: buf[j] == buf[i..n][j - i];
    }

    /** Where the bytes end that a call finds in the buffer; past a prompt these are old ones. */
    ghost function Stop(): (n: nat)
      reads this, buf
      requires InBuffer()
      ensures cur <= n <= MAX_AT_RESPONSE && buf[n] == NUL
    {
      if cur <= end then end else FirstNul(cur)
    }

    /** What the next call reads from: the rest of the buffer, then the rest of the input. */
    ghost function Pending(): string
      reads this, buf, fd
      requires InBuffer()
    {
      buf[cur..Stop()] + fd.input
    }

    constructor (fd: Descriptor)
      ensures Valid() && Pending() == fd.input && this.fd == fd && fresh(buf)
      ensures cur == end == 0 && forall j | 0 <= j < buf.Length :: buf[j] == NUL
    {
      this.fd := fd;
      cur := 0;
      end := 0;
      buf := new char[MAX_AT_RESPONSE + 1](_ => NUL);
    }

    method SkipNewlines()
      requires Valid()
      modifies `cur
      ensures Valid() && old(cur) <= cur
      ensures forall j | old(cur) <= j < cur :: IsEol(buf[j])
      ensures !IsEol(buf[cur])
      ensures old(buf[cur]) == '>' ==> cur == old(cur)
    {
      while IsEol(buf[cur])
        invariant Valid() && old(cur) <= cur
        invariant forall j | old(cur) <= j < cur :: IsEol(buf[j])
        decreases end - cur
      {
        cur := cur + 1;
      }
    }

    ghost predicate AtPrompt()
      reads this, buf
      requires Valid()
    {
      cur + 2 <= end && buf[cur] == '>' && buf[cur + 1] == ' ' && buf[cur + 2] == NUL
    }

    /** findNextEOL: the SMS prompt first, then the first newline before any NUL. */
    method FindNextEOL() returns (eol: Option<nat>)
      requires Valid()
      ensures AtPrompt() ==> eol == Some(cur + 2)
      ensures !AtPrompt() && eol.Some? ==> cur <= eol.value < end && IsEol(buf[eol.value])
      ensures eol.Some? ==> forall j | cur <= j < eol.value :: !IsEol(buf[j]) && buf[j] != NUL
      ensures eol.None? && (forall j | cur <= j < end :: buf[j] != NUL) ==>
        forall j | cur <= j < end :: !IsEol(buf[j])
    {
      if buf[cur] == '>' && buf[cur + 1] == ' ' && buf[cur + 2] == NUL {
        return Some(cur + 2);
      }
      var i := cur;
      while buf[i] != NUL && buf[i] != '\r' && buf[i] != '\n'
        invariant cur <= i <= end
        invariant forall j | cur <= j < i :: !IsEol(buf[j]) && buf[j] != NUL
        decreases end - i
      {
        i := i + 1;
      }
      return if buf[i] == NUL then None else Some(i);
    }

    /** The partial line moved to the front of the buffer. */
    method MoveUp() returns (len: nat)
      requires Valid()
      modifies this, buf
      ensures Valid() && cur == 0 && end == len <= old(end) - old(cur)
      ensures forall j | len < j < buf.Length :: buf[j] == old(buf[j])
      ensures (forall j | old(cur) <= j < old(end) :: old(buf[j]) != NUL) ==>
        && len == old(end) - old(cur)
        && forall j | 0 <= j < len :: buf[j] == old(buf[cur + j])
    {
      len := 0;
      while buf[cur + len] != NUL
        invariant cur + len <= end
        invariant forall j | cur <= j < cur + len :: buf[j] != NUL
        decreases end - cur - len
      {
        len := len + 1;
      }
      ghost var was := buf[..];
      forall j | 0 <= j <= len {
        buf[j] := buf[cur + j];
      }
      end := len;
      cur := 0;
    }

    /** `stream` is what is to be read, from index `base` of the buffer on: newlines, then `cur`. */
    ghost predicate Ahead(base: nat, stream: string)
      reads this, buf, fd
      requires Valid()
    {
      && base <= cur && stream == buf[base..end] + fd.input
      && forall j | base <= j < cur :: IsEol(buf[j])
    }

    /** No newline found yet. */
    ghost predicate Searching(stream: string)
      reads this, buf, fd
      requires Valid()
    {
      Ahead(0, stream) && forall j | cur <= j < end :: !IsEol(buf[j])
    }

    /** The newline at `eol` closes the line at the cursor. */
    ghost predicate Found(base: nat, eol: nat, stream: string)
      reads this, buf, fd
      requires Valid()
    {
      && Ahead(base, stream)
      && cur < eol < end && IsEol(buf[eol]) && forall j | cur <= j < eol :: !IsEol(buf[j])
    }

    /** The data ends right behind a prompt at the cursor. */
    ghost predicate Prompted(base: nat, eol: nat, stream: string)
      reads this, buf, fd
      requires Valid()
    {
      Ahead(base, stream) && eol == cur + 2 == end && buf[cur] == '>' && buf[cur + 1] == ' '
    }

    /** Where a line may be cut: only the prompt ends where the data does. */
    ghost predicate Cut(eol: nat)
      reads this, buf
      requires Valid()
    {
      && cur <= eol <= end
      && (forall j | cur <= j < eol :: buf[j] != NUL)
      && (eol == end ==> buf[cur..eol] == "> ")
    }

    /** What a look at the buffer finds, when the buffer holds a framable stream. */
    lemma LookedUp(base: nat, eol: Option<nat>, stream: string)
      requires Valid() && Ahead(base, stream) && Framable(stream) && !IsEol(buf[cur])
      requires AtPrompt() ==> eol == Some(cur + 2)
      requires !AtPrompt() && eol.Some? ==> cur <= eol.value < end && IsEol(buf[eol.value])
      requires eol.Some? ==> forall j | cur <= j < eol.value :: !IsEol(buf[j]) && buf[j] != NUL
      requires eol.None? && (forall j | cur <= j < end :: buf[j] != NUL) ==>
        forall j | cur <= j < end :: !IsEol(buf[j])
      ensures eol.Some? ==> Found(base, eol.value, stream) || Prompted(base, eol.value, stream)
      ensures eol == Some(end) <==> PromptSeen(stream, fd.input)
      ensures eol.None? ==> forall j | cur <= j < end :: !IsEol(buf[j])
    {
      hide Framable, IsEol, PromptSeen;
      FramableHasNoNul(stream);
      assert forall j | base <= j < end :: buf[j] == stream[j - base];
      SeesPrompt(base, stream);
    }

    lemma SeesPrompt(base: nat, stream: string)
      requires Valid() && Ahead(base, stream) && !IsEol(buf[cur])
      ensures PromptSeen(stream, fd.input) <==> AtPrompt() && cur + 2 == end
    {
      hide Framable, IsEol, LineEnd, FirstLine, Complete, Remainder, Lines, Run;
      var run := buf[base..cur];
      if cur + 2 == end && buf[cur] == '>' && buf[cur + 1] == ' ' {
        assert buf[cur..end] == "> ";
        assert stream == run + "> " + fd.input;
        PromptOpensLine(run, fd.input);
      }
      if PromptSeen(stream, fd.input) {
        assert forall j | base <= j < end :: buf[j] == stream[j - base];
        RunAtLeast(stream, cur - base);
        OpensLikePrompt(stream);
        assert cur + 2 <= end && buf[cur] == stream[cur - base];
        assert Run(stream) == cur - base;
        assert cur + 2 == end && buf[cur + 2] == NUL;
        assert buf[cur + 1] == stream[cur + 1 - base];
      }
    }

    /** Skip the newlines at the cursor and look for the end of the line there. */
    method Look(ghost base: nat, ghost stream: string) returns (eol: Option<nat>)
      requires Valid()
      modifies `cur
      ensures Valid() && old(cur) <= cur
      ensures eol.Some? ==> Cut(eol.value)
      ensures old(AtPrompt()) ==> cur == old(cur) && eol == Some(cur + 2)
      ensures old(Ahead(base, stream)) && Framable(stream) ==>
        && Ahead(base, stream)
        && (eol.Some? ==> Found(base, eol.value, stream) || Prompted(base, eol.value, stream))
        && (eol == Some(end) <==> PromptSeen(stream, fd.input))
        && (eol.None? ==> forall j | cur <= j < end :: !IsEol(buf[j]))
    {
      hide IsEol, Framable, PromptSeen;
      SkipNewlines();
      eol := FindNextEOL();
      if Ahead(base, stream) && Framable(stream) {
        LookedUp(base, eol, stream);
      }
    }

    /** No end of line in the buffer: the newlines are dropped and the partial line moves up. */
    method KeepPartial(ghost all: string, ghost base: nat) returns (pRead: nat, ghost stream: string)
      requires Valid() && base <= cur
      modifies this, buf
      ensures Valid() && pRead == end <= old(end) - old(cur)
      ensures forall j | end < j < buf.Length :: buf[j] == old(buf[j])
      ensures old(Ahead(base, all) && forall j | cur <= j < end :: !IsEol(buf[j])) && Framable(all) ==>
        SameLines(all, stream) && Searching(stream)
    {
      hide IsEol, Framable, SameLines;
      stream := "";
      ghost var k := cur - base;
      ghost var known := Framable(all) && Ahead(base, all);
      if known {
        FramableHasNoNul(all);
        assert forall j | base <= j < end :: buf[j] == all[j - base];
        DroppedNewlines(all, k);
        stream := all[k..];
        assert stream == buf[cur..end] + fd.input;
      }
      label before:
      pRead := MoveUp();
      assert known ==> buf[0..end] == old@before(buf[cur..end]);
    }

    /** Nothing but newlines is left in the buffer. */
    ghost predicate Drained()
      reads this, buf
      requires InBuffer()
    {
      forall j | cur <= j < Stop() :: IsEol(buf[j])
    }

    /**
     What was buffered by earlier reads: a complete line (`eol`), or the start of one, moved to the
     front of the buffer; reading goes on behind it.
     */
    method TakeBuffered(ghost all: string)
      returns (pRead: nat, eol: Option<nat>, ghost base: nat, ghost stream: string)
      requires InBuffer() && all == Pending()
      modifies this, buf
      ensures Valid()
      ensures eol.Some? ==> Cut(eol.value) && old(cur) <= cur
      ensures eol.None? ==> pRead == end
      ensures Framable(all) ==>
        && SameLines(all, stream)
        && if eol.Some? then Found(base, eol.value, stream) || Prompted(base, eol.value, stream) else Searching(stream)
      ensures Framable(all) ==> (eol == Some(end) <==> PromptSeen(all, fd.input))
      ensures forall j | end < j < buf.Length :: buf[j] == old(buf[j])
      ensures Framable(all) && old(Drained()) ==> eol.None? && end == 0
      ensures old(Valid() && AtPrompt() && cur + 2 == end) ==>
        eol == Some(old(cur) + 2) && cur == old(cur) && end == old(end) && buf[..] == old(buf[..])
    {
      hide IsEol, Framable, SameLines, PromptSeen, Searching, Found, Prompted, Ahead, Cut;
      end := Stop();
      pRead, eol, base, stream := LookBuffered(all);
    }

    method LookBuffered(ghost all: string)
      returns (pRead: nat, eol: Option<nat>, ghost base: nat, ghost stream: string)
      requires Valid() && all == buf[cur..end] + fd.input
      modifies this, buf
      ensures Valid()
      ensures eol.Some? ==> Cut(eol.value) && old(cur) <= cur
      ensures eol.None? ==> pRead == end
      ensures Framable(all) ==>
        && SameLines(all, stream)
        && if eol.Some? then Found(base, eol.value, stream) || Prompted(base, eol.value, stream) else Searching(stream)
      ensures Framable(all) ==> (eol == Some(end) <==> PromptSeen(all, fd.input))
      ensures forall j | end < j < buf.Length :: buf[j] == old(buf[j])
      ensures Framable(all) && old(forall j | cur <= j < end :: IsEol(buf[j])) ==> eol.None? && end == 0
      ensures old(AtPrompt() && cur + 2 == end) ==>
        eol == Some(old(cur) + 2) && cur == old(cur) && end == old(end) && buf[..] == old(buf[..])
    {
      hide IsEol, Framable, SameLines, PromptSeen;
      ghost var fr := Framable(all);
      if fr {
        FramableHasNoNul(all);
        DroppedNewlines(all, 0);
      }
      pRead, eol, base, stream := 0, None, cur, all;
      assert fr ==> forall j | cur <= j < end :: buf[j] == all[j - cur];
      assert fr ==> Ahead(base, stream);
      if buf[cur] == NUL {
        assert fr ==> cur == end;
        if fr {
          NothingSeen(all, fd.input);
        }
        cur, end := 0, 0;
        buf[cur] := NUL;
      } else {
        eol := Look(base, stream);
        if fr {
          NewlinesOnly(base, eol, stream);
        }
        if eol.None? {
          pRead, stream := KeepPartial(all, base);
        }
      }
    }

    lemma NewlinesOnly(base: nat, eol: Option<nat>, stream: string)
      requires Valid() && Ahead(base, stream)
      requires if eol.Some? then Found(base, eol.value, stream) || Prompted(base, eol.value, stream)
               else forall j | cur <= j < end :: !IsEol(buf[j])
      ensures (forall j | base <= j < end :: IsEol(buf[j])) ==> eol.None? && cur == end
    {
      assert cur < end ==> !IsEol(buf[cur]);
    }

    /** One successful pass of the read loop: more bytes behind `pRead`, then another look. */
    method ReadMore(pRead: nat, ghost stream: string) returns (count: int, eol: Option<nat>)
      requires Valid() && pRead == end < MAX_AT_RESPONSE
      modifies this, buf, fd
      ensures Valid() && |fd.input| <= |old(fd.input)|
      ensures count <= 0 ==> eol.None? && fd.input == old(fd.input) && end == old(end)
      ensures count == 0 ==> fd.input == ""
      ensures fd.failed == old(fd.failed) + if count < 0 then 1 else 0
      ensures count > 0 ==> end == pRead + count && |fd.input| + count == |old(fd.input)|
      ensures forall j | end < j < buf.Length :: buf[j] == old(buf[j])
      ensures eol.Some? ==> Cut(eol.value)
      ensures old(Searching(stream)) && Framable(stream) ==>
        if eol.Some? then Found(0, eol.value, stream) || Prompted(0, eol.value, stream) else Searching(stream)
      ensures old(Searching(stream)) && Framable(stream) && count > 0 ==>
        (eol == Some(end) <==> PromptSeen(stream, fd.input))
    {
      hide IsEol, Framable, PromptSeen;
      eol := None;
      count := fd.Read(buf, pRead, MAX_AT_RESPONSE - pRead);
      if count > 0 {
        buf[pRead + count] := NUL;
        end := pRead + count;
        assert old(Searching(stream)) ==> stream == buf[0..end] + fd.input;
        eol := Look(0, stream);
      }
    }

    /** What a call on a framable stream `all` has found after these looks. */
    ghost predicate FoundSoFar(all: string, base: nat, eol: Option<nat>, stream: string, looks: seq<nat>)
      reads this, buf, fd
      requires Valid()
    {
      && SameLines(all, stream)
      && (if eol.Some? then Found(base, eol.value, stream) || Prompted(base, eol.value, stream) else Searching(stream))
      && (eol == Some(end) <==> PromptCut(all, looks))
    }

    /** One pass of the read loop, and how much of `all` is in the buffer at its look. */
    method ReadPass(pRead: nat, ghost all: string, ghost base: nat, ghost stream: string, ghost looks: seq<nat>,
        ghost first: int)
      returns (count: int, eol: Option<nat>, ghost looks': seq<nat>)
      requires Valid() && pRead == end < MAX_AT_RESPONSE && |fd.input| <= |all|
      modifies this, buf, fd
      ensures Valid() && |fd.input| <= |old(fd.input)|
      ensures count <= 0 ==> eol.None? && fd.input == old(fd.input) && end == old(end)
      ensures count == 0 ==> fd.input == ""
      ensures fd.failed == old(fd.failed) + if count < 0 then 1 else 0
      ensures count > 0 ==> end == pRead + count && |fd.input| + count == |old(fd.input)|
      ensures forall j | end < j < buf.Length :: buf[j] == old(buf[j])
      ensures eol.Some? ==> Cut(eol.value)
      ensures old(Looks(looks, first, |all| - |fd.input|)) ==> Looks(looks', first, |all| - |fd.input|)
      ensures old(FoundSoFar(all, base, None, stream, looks)) ==> FoundSoFar(all, 0, eol, stream, looks')
    {
      hide SameLines, Found, Prompted, Searching, Cut, PromptSeen, PromptCut;
      count, eol := ReadMore(pRead, stream);
      looks' := if count > 0 then looks + [|all| - |fd.input|] else looks;
      if old(FoundSoFar(all, base, None, stream, looks)) {
        SameIsFramable(all, stream);
        SeenInBoth(all, stream, fd.input);
        OneMoreLook(all, looks, fd.input);
      }
    }

    /**
     readline. `line` is where the returned string stands in the buffer and `text` is that string;
     `line` is NULL if and only if the input is at its end (`eof`) or a read failed.

     `looks` is how many bytes of the stream were in the buffer at each look, the first time before any
     read. On a framable stream, whatever pieces `read` delivers, the string is the first line not yet
     returned and the rest is still pending; but if and only if one look saw no more of that line than
     an opening "> ", the string is just that. The cursor ends up past the data if and only if the string
     is a prompt where the data ends, and out of the buffer if and only if that fills the buffer too.
     */
    method Readline() returns (line: Option<nat>, ghost text: string, eof: bool, ghost looks: seq<nat>)
      requires InBuffer()
      modifies this, buf, fd
      ensures Valid() || PastPrompt()
      ensures line.Some? ==> IsCString(buf[..], line.value, text) && cur == line.value + |text| + 1
      ensures PastPrompt() <==> line.Some? && text == "> " && line.value + 2 == end
      ensures !InBuffer() <==> PastPrompt() && end == MAX_AT_RESPONSE
      ensures |fd.input| <= |old(fd.input)|
      ensures eof ==> line.None? && fd.input == ""
      ensures fd.failed == old(fd.failed) + if line.None? && !eof then 1 else 0
      ensures line.Some? ==> |fd.input| < |old(fd.input)| || cur > old(cur)
      ensures Framable(old(Pending())) && line.Some? && Valid() ==>
        && Complete(old(Pending()))
        && text == FirstLine(old(Pending()))
        && Pending() == Remainder(old(Pending()))
      ensures Framable(old(Pending())) && PastPrompt() ==>
        && !Promptless(old(Pending())) && "> " <= FirstLine(old(Pending()))
        && fd.input == old(Pending())[Run(old(Pending())) + 2..]
      ensures Framable(old(Pending())) && line.None? ==>
        && Framable(Pending())
        && Lines(Pending()) == Lines(old(Pending()))
        && (eof ==> !Complete(old(Pending())))
      ensures Looks(looks, |old(Pending())| - |old(fd.input)|, |old(Pending())| - |fd.input|)
      ensures Framable(old(Pending())) ==> (PastPrompt() <==> PromptCut(old(Pending()), looks))
      ensures Framable(old(Pending())) ==> forall j | end < j < buf.Length :: buf[j] == old(buf[j])
      ensures Framable(old(Pending())) && old(Drained()) ==> end == |old(fd.input)| - |fd.input|
      ensures old(Valid() && AtPrompt() && cur + 2 == end) ==>
        PastPrompt() && line == Some(old(cur)) && end == old(end) && fd.input == old(fd.input)
          && buf[..] == old(buf[..])
    {
      hide IsEol, Framable, Lines, Complete, FirstLine, Remainder, Run, Promptless, Drained, FoundSoFar, AtPrompt, Cut,
        PromptCut, Looks;
      ghost var all := Pending();
      var eol; ghost var base, stream;
      eol, eof, base, stream, looks := FindLine(all);
      if eol.None? {
        if Framable(all) {
          Unread(all, base, stream, looks, eof);
        }
        return None, "", eof, looks;
      }
      line, text := CutLine(eol.value, all, base, stream, looks);
    }

    /** readline up to the end of its loop: the end of a line, or none at the end of input or on an error. */
    method FindLine(ghost all: string)
      returns (eol: Option<nat>, eof: bool, ghost base: nat, ghost stream: string, ghost looks: seq<nat>)
      requires InBuffer() && all == Pending()
      modifies this, buf, fd
      ensures Valid() && |fd.input| <= |old(fd.input)| <= |all|
      ensures eol.Some? ==> Cut(eol.value) && !eof && (old(cur) <= cur || |fd.input| < |old(fd.input)|)
      ensures eof ==> fd.input == ""
      ensures fd.failed == old(fd.failed) + if eol.None? && !eof then 1 else 0
      ensures Looks(looks, |all| - |old(fd.input)|, |all| - |fd.input|)
      ensures Framable(all) ==> FoundSoFar(all, base, eol, stream, looks)
      ensures Framable(all) ==> forall j | end < j < buf.Length :: buf[j] == old(buf[j])
      ensures Framable(all) && old(Drained()) ==> end == |old(fd.input)| - |fd.input|
      ensures old(Valid() && AtPrompt() && cur + 2 == end) ==>
        eol == Some(old(cur) + 2) && cur == old(cur) && end == old(end) && fd.input == old(fd.input)
          && buf[..] == old(buf[..])
    {
      hide IsEol, Framable, Lines, Complete, FirstLine, Remainder, Run, Promptless, Drained, FoundSoFar, AtPrompt, Cut,
        PromptCut, Looks, FirstNul;
      ghost var prompt := Valid() && AtPrompt() && cur + 2 == end;
      ghost var drained := Drained();
      eof := false;
      var pRead;
      pRead, eol, base, stream, looks := FirstPass(all);
      while eol.None?
        invariant Valid() && |fd.input| <= |old(fd.input)| <= |all|
        invariant eol.Some? ==> Cut(eol.value) && (old(cur) <= cur || |fd.input| < |old(fd.input)|)
        invariant eol.None? ==> pRead == end
        invariant fd.failed == old(fd.failed) && !eof
        invariant Framable(all) ==> FoundSoFar(all, base, eol, stream, looks)
        invariant Looks(looks, |all| - |old(fd.input)|, |all| - |fd.input|)
        invariant Framable(all) ==> forall j | end < j < buf.Length :: buf[j] == old(buf[j])
        invariant Framable(all) && drained ==> end == |old(fd.input)| - |fd.input|
        invariant prompt ==> eol == Some(cur + 2) && cur == old(cur) && end == old(end)
        invariant prompt ==> buf[..] == old(buf[..]) && fd.input == old(fd.input)
        decreases |fd.input|, eol.None?
      {
        if Framable(all) {
          NotFull(all, base, stream, looks);
        }
        if MAX_AT_RESPONSE - pRead == 0 {
          assert !Framable(all);
          cur, end := 0, 0;
          buf[cur] := NUL;
          pRead := 0;
        }
        var count;
        count, eol, looks := ReadPass(pRead, all, base, stream, looks, |all| - |old(fd.input)|);
        base := 0;
        if count <= 0 {
          eof := count == 0;
          return;
        }
        pRead := pRead + count;
      }
    }

    /** TakeBuffered, as the first look. */
    method FirstPass(ghost all: string)
      returns (pRead: nat, eol: Option<nat>, ghost base: nat, ghost stream: string, ghost looks: seq<nat>)
      requires InBuffer() && all == Pending()
      modifies this, buf
      ensures Valid()
      ensures eol.Some? ==> Cut(eol.value) && old(cur) <= cur
      ensures eol.None? ==> pRead == end
      ensures |fd.input| <= |all| && Looks(looks, |all| - |fd.input|, |all| - |fd.input|)
      ensures Framable(all) ==> FoundSoFar(all, base, eol, stream, looks)
      ensures forall j | end < j < buf.Length :: buf[j] == old(buf[j])
      ensures Framable(all) && old(Drained()) ==> end == 0
      ensures old(Valid() && AtPrompt() && cur + 2 == end) ==>
        eol == Some(old(cur) + 2) && cur == old(cur) && end == old(end) && buf[..] == old(buf[..])
    {
      hide IsEol, Framable, SameLines, Drained, Found, Prompted, Searching, Cut, PromptSeen, PromptCut, AtPrompt;
      looks := [|all| - |fd.input|];
      FirstLook(all, fd.input);
      pRead, eol, base, stream := TakeBuffered(all);
    }

    /** The looks of a call: one at what is buffered, then one more after every read. */
    static ghost predicate Looks(looks: seq<nat>, first: int, last: int) {
      && |looks| > 0 && looks[0] == first && looks[|looks| - 1] == last
      && forall i, j | 0 <= i < j < |looks| :: looks[i] < looks[j]
    }

    /** NUL over the newline; the cursor moves behind it. */
    method CutLine(eol: nat, ghost all: string, ghost base: nat, ghost stream: string, ghost looks: seq<nat>)
      returns (line: Option<nat>, ghost text: string)
      requires Valid() && Cut(eol)
      requires Framable(all) ==> FoundSoFar(all, base, Some(eol), stream, looks)
      modifies this, buf
      ensures (Valid() || PastPrompt()) && end == old(end)
      ensures line == Some(old(cur)) && IsCString(buf[..], line.value, text) && cur == old(cur) + |text| + 1 == eol + 1
      ensures PastPrompt() <==> text == "> " && line.value + 2 == end
      ensures eol == end ==> buf[..] == old(buf[..])
      ensures forall j | end < j < buf.Length :: buf[j] == old(buf[j])
      ensures Framable(all) ==> (PastPrompt() <==> PromptCut(all, looks))
      ensures Framable(all) && Valid() ==> Complete(all) && text == FirstLine(all) && Pending() == Remainder(all)
      ensures Framable(all) && PastPrompt() ==>
        !Promptless(all) && "> " <= FirstLine(all) && fd.input == all[Run(all) + 2..]
    {
      hide IsEol, Framable, SameLines, Promptless, Run, PromptCut;
      if Framable(all) {
        if Found(base, eol, stream) {
          Cutting(all, base, eol, stream);
        } else {
          CuttingPrompt(all, base, stream);
        }
      }
      line, text := Some(cur), buf[cur..eol];
      ghost var rest := buf[eol + 1..if eol < end then end else eol + 1];
      buf[eol] := NUL;
      cur := eol + 1;
      assert buf[line.value..line.value + |text|] == text;
      assert eol < end ==> buf[cur..end] == rest;
    }

    lemma NotFull(all: string, base: nat, stream: string, looks: seq<nat>)
      requires Valid() && FoundSoFar(all, base, None, stream, looks)
      ensures end < MAX_AT_RESPONSE
    {
      hide IsEol, Framable, Lines, Complete, FirstLine, Remainder, Run;
      assert stream == buf[0..cur] + buf[cur..end] + fd.input;
      PartialLine(buf[0..cur], buf[cur..end], fd.input);
    }

    /** Nothing more to read for now: what is left has the lines it had. */
    lemma Unread(all: string, base: nat, stream: string, looks: seq<nat>, eof: bool)
      requires Valid() && FoundSoFar(all, base, None, stream, looks)
      requires eof ==> fd.input == ""
      ensures Framable(Pending()) && Lines(Pending()) == Lines(all)
      ensures eof ==> !Complete(all)
      ensures !PromptCut(all, looks)
    {
      hide IsEol, Framable, Lines, Complete, FirstLine, Remainder, Run;
      assert forall j | 0 <= j < cur :: stream[j] == buf[j];
      DroppedNewlines(stream, cur);
      assert Pending() == stream[cur..];
      if eof {
        assert stream == buf[0..cur] + buf[cur..end];
        NoLine(buf[0..cur], buf[cur..end]);
      }
    }

    /** The line found is the first of the stream, and what follows it is the rest. */
    lemma Cutting(all: string, base: nat, eol: nat, stream: string)
      requires Valid() && Found(base, eol, stream) && SameLines(all, stream)
      ensures Complete(all) && FirstLine(all) == buf[cur..eol]
      ensures Remainder(all) == buf[eol + 1..end] + fd.input
    {
      hide IsEol, Framable, Lines, FirstLine, Remainder, Complete, Run;
      var rest := buf[eol + 1..end] + fd.input;
      assert buf[base..end] == buf[base..cur] + buf[cur..eol] + [buf[eol]] + buf[eol + 1..end];
      assert stream == buf[base..cur] + buf[cur..eol] + [buf[eol]] + rest;
      FirstLineIs(buf[base..cur], buf[cur..eol], buf[eol], rest);
    }

    /** A prompt where the data ends: the stream's first line opens with it, and all of that was read. */
    lemma CuttingPrompt(all: string, base: nat, stream: string)
      requires Valid() && Prompted(base, end, stream) && SameLines(all, stream)
      ensures !Promptless(all) && "> " <= FirstLine(all) && fd.input == all[Run(all) + 2..]
    {
      hide IsEol, Framable, Lines, Run, FirstLine, Complete, Remainder;
      var run := buf[base..cur];
      assert buf[cur..end] == "> ";
      assert stream == run + "> " + fd.input;
      PromptOpensLine(run, fd.input);
      assert stream[Run(stream)..][2..] == all[Run(all)..][2..];
    }

    lemma StartsDrained()
      requires Valid() && cur == end
      ensures Drained()
    {
    }

    lemma InBoth()
      requires Valid()
      ensures |Pending()| == end - cur + |fd.input|
    {
    }

    // -------------------------------------------------------------- after a prompt

    /**
     What the call after a prompt reads from. It takes the byte behind the data for data: the input
     alone is pending if and only if that byte is NUL. The lines to come are those of the input if and
     only if the old bytes there, up to the next NUL, are all newlines, or no line is completed.
     */
    lemma AfterPrompt()
      requires PastPrompt() && InBuffer()
      ensures Pending() == fd.input <==> buf[end + 1] == NUL
      ensures Lines(Pending()) == Lines(fd.input) <==>
        (forall j | cur <= j < FirstNul(cur) :: IsEol(buf[j])) || !Complete(Pending())
    {
      hide Lines, Complete, IsEol;
      var stale := buf[cur..FirstNul(cur)];
      assert Pending() == stale + fd.input;
      InFront(stale, fd.input);
      assert forall j | cur <= j < FirstNul(cur) :: buf[j] == stale[j - cur];
      assert forall j | 0 <= j < |stale| :: stale[j] == buf[cur + j];
    }
  }

  // ---------------------------------------------------------------- where framing depends on the reads

  /**
   A line that opens like the prompt, sent on its own: readline returns its "> " if a look came when just
   that had been read, and the whole line otherwise.
   */
  method FirstReadDecides(line: string) returns (got: Option<string>, ghost looks: seq<nat>)
    requires "> " <= line && forall j | 0 <= j < |line| :: line[j] != NUL && !IsEol(line[j])
    requires |line| < MAX_AT_RESPONSE
    ensures got.Some? ==> got.value == "> " || got.value == line
    ensures got.Some? ==> got.value == if 2 in looks then "> " else line
    ensures looks != [] && looks[0] == 0 && forall i, j | 0 <= i < j < |looks| :: looks[i] < looks[j] <= |line| + 1
  {
    hide Framable, Promptless, Complete, Remainder, FirstLine, Lines, LineReader.Drained, LineReader.Stop,
      LineReader.FirstNul, LineReader.Pending;
    OneLine(line);
    var fd := new Descriptor(line + "\r");
    var r := new LineReader(fd);
    var p, eof; ghost var text;
    p, text, eof, looks := r.Readline();
    got := None;
    if p.Some? {
      var copy := ReadCString(r.buf, p.value, text);
      got := Some(copy);
    }
  }

  lemma OneLine(line: string)
    requires line != "" && forall j | 0 <= j < |line| :: line[j] != NUL && !IsEol(line[j])
    requires |line| < MAX_AT_RESPONSE
    ensures Framable(line + "\r") && FirstLine(line + "\r") == line && Run(line + "\r") == 0
  {
    hide Complete, FirstLine, Remainder, Lines, LineEnd, Framable;
    EmptyFramable();
    FramableCons("", line, '\r', "");
    FirstLineIs("", line, '\r', "");
    assert "" + line + ['\r'] + "" == line + "\r";
  }

  lemma EmptyFramable()
    ensures Framable("")
  {
  }

  // ---------------------------------------------------------------- exchanges that go wrong

  const RESPONSE := "+CSQ: 5,99"

  /** The end of it, which stays in the buffer behind a prompt read over its start. */
  const OLD_BYTES := "Q: 5,99"

  /** What the modem sends once it has the command, and once it has the PDU. */
  const PROMPT_SENT := "\r\n> "

  const AFTER_PROMPT := "\r\n+CMGS: 1\r\n"

  /**
   A response, an SMS prompt and a confirmation. When the first read takes just the response and the
   second just the prompt (`apart`), the third line is bytes of the response, although the modem did not
   send them again.
   */
  method OldBytesReturned() returns (apart: bool, third: Option<string>)
    ensures apart && third.Some? ==> third.value == OLD_BYTES
  {
    hide Framable, Promptless, Complete, FirstLine, Remainder, Run, Lines;
    third := None;
    PromptFirst();
    ResponseText();
    var r;
    r, apart := ReadFirst("\r\n", RESPONSE, "\n" + (PROMPT_SENT + AFTER_PROMPT), 1);
    if apart {
      assert r.buf[5..12] == r.buf[2..12][3..] == OLD_BYTES;
      apart := ReadPrompt(r);
    }
    if apart {
      OldBytesFirst();
      var line, eof; ghost var text, looks;
      line, text, eof, looks := r.Readline();
      if line.Some? {
        var copy := ReadCString(r.buf, line.value, text);
        third := Some(copy);
      }
    }
  }

  /**
   A fresh reader that has returned the first line of its input; `taken` says that its reads took that
   line and the next `k` bytes.
   */
  method ReadFirst(run: string, text: string, rest: string, k: nat) returns (r: LineReader, taken: bool)
    requires forall j | 0 <= j < |run| :: IsEol(run[j])
    requires text != "" && text[0] != '>' && forall j | 0 <= j < |text| :: text[j] != NUL && !IsEol(text[j])
    requires Framable(rest) && |run| + |text| < MAX_AT_RESPONSE
    ensures fresh(r) && fresh(r.buf) && fresh(r.fd)
    ensures taken ==> r.Valid() && r.Pending() == rest && |r.fd.input| + k == |rest|
    ensures taken ==> r.end == |run| + |text| + 1 + k && r.cur + k == r.end
    ensures taken ==> r.buf[|run|..|run| + |text|] == text && r.buf[|run| + |text|] == NUL
  {
    hide Framable, Promptless, Complete, FirstLine, Remainder, Run, Lines, PromptCut, LineReader.Looks,
      LineReader.Drained, LineReader.Stop, LineReader.FirstNul, LineReader.Pending;
    var sent := run + text + ['\r'] + rest;
    assert !("> " <= text);
    FramableCons(run, text, '\r', rest);
    FirstLineIs(run, text, '\r', rest);
    var fd := new Descriptor(sent);
    r := new LineReader(fd);
    r.StartsDrained();
    var line, eof; ghost var got, looks;
    line, got, eof, looks := r.Readline();
    taken := line.Some? && |r.fd.input| + k == |rest|;
    if taken {
      r.InBoth();
      assert line.value == |run|;
      assert r.buf[..][|run|..|run| + |text|] == r.buf[|run|..|run| + |text|];
    }
  }

  /** The prompt is returned; it was read by itself, over the start of the response. */
  method ReadPrompt(r: LineReader) returns (apart: bool)
    requires r.Valid() && r.Pending() == "\n" + (PROMPT_SENT + AFTER_PROMPT)
    requires r.cur + 1 == r.end && |r.fd.input| == |PROMPT_SENT + AFTER_PROMPT|
    requires r.buf[5..12] == OLD_BYTES && r.buf[12] == NUL
    modifies r, r.buf, r.fd
    ensures apart ==> r.InBuffer() && r.Pending() == OLD_BYTES + AFTER_PROMPT
  {
    hide Framable, Promptless, Complete, FirstLine, Remainder, Run, Lines;
    PromptFirst();
    assert r.buf[r.cur] == r.Pending()[0];
    var line, eof; ghost var text, looks;
    line, text, eof, looks := r.Readline();
    apart := line.Some? && |r.fd.input| == |AFTER_PROMPT|;
    if apart {
      assert looks[|looks| - 1] == 5;
      assert r.buf[5..12] == OLD_BYTES;
      r.FirstNulIs(5, 12);
    }
  }

  lemma ResponseText()
    ensures RESPONSE[0] != '>' && |RESPONSE| == 10 && RESPONSE[3..] == OLD_BYTES
    ensures forall j | 0 <= j < |RESPONSE| :: RESPONSE[j] != NUL && !IsEol(RESPONSE[j])
    ensures forall j | 0 <= j < |"\r\n"| :: IsEol("\r\n"[j])
  {
  }

  lemma PromptFirst()
    ensures var s := "\n" + (PROMPT_SENT + AFTER_PROMPT);
      Framable(s) && FirstLine(s) == "> " && Run(s) == 3
  {
    hide LineEnd, FirstLine, Complete, Remainder, Run, Lines, Framable;
    var rest := "\n+CMGS: 1\r\n";
    ConfirmationFramable();
    FramableCons("\n\r\n", "> ", '\r', rest);
    FirstLineIs("\n\r\n", "> ", '\r', rest);
    RunIs("\n" + (PROMPT_SENT + AFTER_PROMPT), 3);
    assert "\n\r\n" + "> " + ['\r'] + rest == "\n" + (PROMPT_SENT + AFTER_PROMPT);
  }

  lemma OldBytesFirst()
    ensures var s := OLD_BYTES + AFTER_PROMPT;
      Framable(s) && FirstLine(s) == OLD_BYTES && !("> " <= OLD_BYTES)
  {
    hide LineEnd, FirstLine, Complete, Remainder, Run, Lines, Framable;
    var rest := "\n+CMGS: 1\r\n";
    ConfirmationFramable();
    FramableCons("", OLD_BYTES, '\r', rest);
    FirstLineIs("", OLD_BYTES, '\r', rest);
    assert "" + OLD_BYTES + ['\r'] + rest == OLD_BYTES + AFTER_PROMPT;
    assert OLD_BYTES[0] != '>';
  }

  lemma ConfirmationFramable()
    ensures Framable("\n+CMGS: 1\r\n")
  {
    hide LineEnd, FirstLine, Complete, Remainder, Run, Lines, Framable;
    OneNewline();
    FramableCons("\n", "+CMGS: 1", '\r', "\n");
    assert "\n" + "+CMGS: 1" + ['\r'] + "\n" == "\n+CMGS: 1\r\n";
  }

  lemma OneNewline()
    ensures Framable("\n")
  {
  }

  /**
   A line and a prompt that fill the buffer between them. When the first read takes both (`whole`), the
   prompt leaves the cursor behind the buffer, where the next call would start.
   */
  method CursorLeavesBuffer() returns (whole: bool, r: LineReader)
    ensures whole ==> r.PastPrompt() && r.cur == r.buf.Length
  {
    hide Framable, Promptless, Complete, FirstLine, Remainder, Run, Lines;
    var text := seq(MAX_AT_RESPONSE - 3, _ => 'A');
    BarePrompt();
    r, whole := ReadFirst("", text, "> ", 2);
    if whole {
      assert r.buf[r.cur..r.end] == "> ";
      assert r.buf[r.cur..r.end][0] == '>' && r.buf[r.cur..r.end][1] == ' ';
      var line, eof; ghost var got, looks;
      line, got, eof, looks := r.Readline();
    }
  }

  lemma BarePrompt()
    ensures Framable("> ")
  {
  }
}
