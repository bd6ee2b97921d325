/**
 The channel's variables and the code that works on them (ril-telephone/atchannel.c), each stretch
 under the mutex proved to be the step of `AtProtocol` of the same name.
 */
module AtChannel {
  import opened CStrings
  import opened Misc
  import opened AtProtocol

  // ---------------------------------------------------------------- line classifiers

  method StartsWithOneOf(line: string, prefixes: seq<string>) returns (r: bool)
    requires NUL !in line && forall p | p in prefixes :: NUL !in p
    ensures r <==> StartsWithAny(line, prefixes)
  {
    for i := 0 to |prefixes|
      invariant forall j | 0 <= j < i :: !(prefixes[j] <= line)
    {
      var starts := StrStartsWith(line, prefixes[i]);
      if starts {
        return true;
      }
    }
    return false;
  }

  // ---------------------------------------------------------------- responses

  class ATLine {
    const line: string
    var next: ATLine?

    constructor (line: string, next: ATLine?)
      ensures this.line == line && this.next == next
    {
      this.line := line;
      this.next := next;
    }
  }

  class ATResponse {
    ghost const id: nat
    var success: bool
    var finalResponse: Option<string>
    var intermediates: ATLine?
    /** The linked intermediate lines, from the head on. */
    ghost var nodes: seq<ATLine>

    ghost predicate Valid()
      reads this, nodes
    {
      && intermediates == Node(nodes, 0)
      && (forall i | 0 <= i < |nodes| :: nodes[i].next == Node(nodes, i + 1))
      && forall i, j | 0 <= i < j < |nodes| :: nodes[i] != nodes[j]
    }

    static ghost function Node(nodes: seq<ATLine>, i: int): ATLine? {
      if 0 <= i < |nodes| then nodes[i] else null
    }

    static ghost function Texts(nodes: seq<ATLine>): (ts: seq<string>)
      ensures |ts| == |nodes|
    {
      seq(|nodes|, i requires 0 <= i < |nodes| => nodes[i].line)
    }

    ghost function Abs(): Response
      reads this
    {
      Response(id, success, finalResponse, Texts(nodes))
    }

    /** at_response_new: everything zero. */
    constructor (ghost id: nat)
      ensures Valid() && Abs() == Response(id, false, None, []) && nodes == []
    {
      this.id := id;
      success := false;
      finalResponse := None;
      intermediates := null;
      nodes := [];
    }

    /** addIntermediate: the new line becomes the head. */
    method AddIntermediate(line: string)
      requires Valid()
      modifies this
      ensures Valid() && Abs() == old(Abs()).(stack := [line] + old(Abs().stack))
      ensures |nodes| == |old(nodes)| + 1 && fresh(nodes[0]) && nodes[1..] == old(nodes)
    {
      var node := new ATLine(line, intermediates);
      intermediates := node;
      nodes := [node] + nodes;
      assert Texts(nodes) == [line] + Texts(nodes[1..]);
    }

    /** reverseIntermediates, in place. */
    method ReverseIntermediates()
      requires Valid()
      modifies this, nodes
      ensures Valid() && multiset(nodes) == multiset(old(nodes))
      ensures Abs() == old(Abs()).(stack := Reverse(old(Abs().stack)))
    {
      hide Reverse, Texts;
      FlipLinks();
      ghost var n := nodes;
      nodes := seq(|n|, i requires 0 <= i < |n| => n[|n| - 1 - i]);
      Turned(n, nodes);
      Backwards(n, nodes);
    }

    /** Seen from the other end, links turned round are a list again. */
    static lemma Turned(n: seq<ATLine>, r: seq<ATLine>)
      requires |r| == |n| && forall i | 0 <= i < |n| :: r[i] == n[|n| - 1 - i]
      requires forall i | 0 <= i < |n| :: n[i].next == Node(n, i - 1)
      requires forall i, j | 0 <= i < j < |n| :: n[i] != n[j]
      ensures Node(r, 0) == Node(n, |n| - 1)
      ensures forall i | 0 <= i < |r| :: r[i].next == Node(r, i + 1)
      ensures forall i, j | 0 <= i < j < |r| :: r[i] != r[j]
    {
    }

    /** The loop: every link turned round, the last node the head. */
    method FlipLinks()
      requires Valid()
      modifies `intermediates, nodes
      ensures intermediates == Node(nodes, |nodes| - 1)
      ensures forall i | 0 <= i < |nodes| :: nodes[i].next == Node(nodes, i - 1)
    {
      ghost var k := 0;
      var cur := intermediates;
      intermediates := null;
      while cur != null
        invariant k <= |nodes|
        invariant cur == Node(nodes, k) && intermediates == Node(nodes, k - 1)
        invariant forall i | 0 <= i < k :: nodes[i].next == Node(nodes, i - 1)
        invariant forall i | k <= i < |nodes| :: nodes[i].next == Node(nodes, i + 1)
        decreases |nodes| - k
      {
        var next := cur.next;
        cur.next := intermediates;
        intermediates := cur;
        cur := next;
        k := k + 1;
      }
    }

    static lemma Backwards(n: seq<ATLine>, r: seq<ATLine>)
      requires |r| == |n| && forall i | 0 <= i < |n| :: r[i] == n[|n| - 1 - i]
      ensures multiset(r) == multiset(n)
      ensures Texts(r) == Reverse(Texts(n))
      decreases |n|
    {
      if n != [] {
        assert n == [n[0]] + n[1..];
        assert r == r[..|r| - 1] + [n[0]];
        Backwards(n[1..], r[..|r| - 1]);
        assert Texts(n)[1..] == Texts(n[1..]);
        assert Texts(r) == Texts(r[..|r| - 1]) + [n[0].line];
      }
    }
  }

  // ---------------------------------------------------------------- the channel

  class Channel {
    const cfg: Config
    var kind: Kind
    var responsePrefix: Option<string>
    var smsPdu: Option<string>
    var response: ATResponse?
    var readerClosed: bool
    /** `s_fd >= 0`. */
    var fdOpen: bool
    /** The command thread's place at `s_commandcond`. */
    var waiter: Waiter
    /** The calls of the unsolicited handler and the other ends a line comes to. */
    var log: seq<Dispatch>
    var pduWrites: seq<string>
    ghost var issued: nat
    ghost var freed: seq<nat>
    /** The pending response and its nodes. */
    ghost var Repr: set<object>

    ghost predicate Valid()
      reads this, Repr
    {
      && this !in Repr
      && (response != null ==>
        && response in Repr && (forall x | x in response.nodes :: x in Repr)
        && response.Valid())
    }

    /** The variables as `AtProtocol` sees them. */
    ghost function Abs(): Chan
      reads this, response
    {
      Chan(kind, responsePrefix, smsPdu, if response == null then None else Some(response.Abs()),
           readerClosed, fdOpen, waiter, log, pduWrites, issued, freed)
    }

    /** at_open. */
    constructor (cfg: Config)
      ensures Valid() && Repr == {} && Abs() == Init().chan && this.cfg == cfg
    {
      this.cfg := cfg;
      kind, responsePrefix, smsPdu, response := NoResult, None, None, null;
      readerClosed, fdOpen, waiter := false, true, Idle;
      log, pduWrites, issued, freed := [], [], 0, [];
      Repr := {};
    }

    /** pthread_cond_signal(&s_commandcond). */
    method SignalCommand()
      modifies `waiter
      ensures waiter == Signal(old(waiter))
    {
      if waiter == Sleeping {
        waiter := Signalled;
      }
    }

    method Unsolicited(line: string)
      modifies `log
      ensures Abs() == HandleUnsolicited(cfg, old(Abs()), line)
    {
      if cfg.unsolicitedHandler {
        log := log + [Dispatch.Unsolicited(line)];
      }
    }

    method FinalResponse(line: string, success: bool)
      requires Valid() && response != null
      modifies `waiter, `log, response
      ensures Valid()
      ensures Abs() == HandleFinal(old(Abs()), line, success)
    {
      response.success := success;
      response.finalResponse := Some(line);
      log := log + [Final(line)];
      SignalCommand();
    }

    method AcceptIntermediate(line: string)
      requires Valid() && response != null
      modifies `log, `Repr, response
      ensures Valid() && fresh(Repr - old(Repr))
      ensures Abs() == old(Abs()).(
        response := Some(old(response.Abs()).(stack := [line] + old(response.Abs().stack))),
        log := old(log) + [Intermediate(line)])
    {
      response.AddIntermediate(line);
      Repr := Repr + {response.nodes[0]};
      log := log + [Intermediate(line)];
    }

    /** writeCtrlZ; its error code is ignored. */
    method WriteCtrlZ(pdu: string, writes: bool)
      modifies `pduWrites
      ensures Abs() == WritePdu(old(Abs()), pdu, writes)
    {
      if !fdOpen || readerClosed || !writes {
        return;
      }
      pduWrites := pduWrites + [pdu];
    }

    /** processLine. */
    method ProcessLine(line: string, writes: bool)
      requires Valid() && NUL !in line
      requires responsePrefix.Some? ==> NUL !in responsePrefix.value
      modifies this, response
      ensures Valid() && fresh(Repr - old(Repr)) && responsePrefix == old(responsePrefix)
      ensures Abs() == Deliver(cfg, old(Abs()), line, writes)
    {
      hide StartsWithAny, IsDigit, Reverse, Accepts;
      if response == null {
        Unsolicited(line);
        return;
      }
      var isSuccess := StartsWithOneOf(line, FINAL_SUCCESSES);
      var isError := StartsWithOneOf(line, FINAL_ERRORS);
      if isSuccess {
        FinalResponse(line, true);
      } else if isError {
        FinalResponse(line, false);
      } else {
        ProcessOther(line, writes);
      }
    }

    /** The rest of processLine, for a line that is not final while a command is pending. */
    method ProcessOther(line: string, writes: bool)
      requires Valid() && response != null && NUL !in line && !IsFinal(line)
      requires responsePrefix.Some? ==> NUL !in responsePrefix.value
      modifies this, response
      ensures Valid() && fresh(Repr - old(Repr)) && responsePrefix == old(responsePrefix)
      ensures Abs() == Deliver(cfg, old(Abs()), line, writes)
    {
      hide IsFinalSuccess, IsFinalError, IsDigit, Reverse, Accepts;
      if smsPdu.Some? && line == PROMPT {
        WriteCtrlZ(smsPdu.value, writes);
        smsPdu := None;
        log := log + [Prompt(line)];
      } else {
        var accept := Wanted(line);
        if accept {
          AcceptIntermediate(line);
        } else {
          Unsolicited(line);
        }
      }
    }

    /** The switch over `s_type`. */
    method Wanted(line: string) returns (r: bool)
      requires Valid() && response != null && NUL !in line
      requires responsePrefix.Some? ==> NUL !in responsePrefix.value
      ensures r <==> Accepts(kind, responsePrefix, response.Abs().stack == [], line)
    {
      assert response.intermediates == null <==> response.Abs().stack == [];
      match kind
      case NoResult => return false;
      case Numeric => return response.intermediates == null && line != "" && IsDigit(line[0]);
      case SingleLine =>
        if response.intermediates != null || responsePrefix.None? {
          return false;
        }
        r := StrStartsWith(line, responsePrefix.value);
      case MultiLine =>
        if responsePrefix.None? {
          return false;
        }
        r := StrStartsWith(line, responsePrefix.value);
    }

    /** onReaderClosed. */
    method OnReaderClosed()
      modifies `readerClosed, `waiter
      ensures Abs() == ReaderClosed(cfg, old(Abs()))
    {
      if cfg.closedHandler && !readerClosed {
        readerClosed := true;
        SignalCommand();
      }
    }

    /** at_close; behind the descriptor it waits for the mutex. */
    method CloseChannel()
      modifies `fdOpen, `readerClosed, `waiter
      ensures Abs() == AtClose(old(Abs()))
    {
      fdOpen := false;
      if waiter == Spinning {
        return;
      }
      readerClosed := true;
      SignalCommand();
    }

    /** clearPendingCommand. */
    method ClearPendingCommand()
      modifies `response, `responsePrefix, `smsPdu, `freed, `Repr
      ensures Valid() && Repr == {} && response == null && Abs() == Clear(old(Abs()))
    {
      if response != null {
        freed := freed + [response.id];
      }
      response := null;
      Repr := {};
      responsePrefix := None;
      smsPdu := None;
    }

    /** at_send_command_full_nolock up to its first wait; `writes` is what `write` answers. */
    method BeginCommand(call: Call, writes: bool, usec: int) returns (err: Option<Error>)
      requires Valid()
      modifies this
      ensures Valid() && fresh(Repr)
      ensures (Abs(), err) == Begin(old(Abs()), call, writes, usec)
    {
      if response != null {
        ClearPendingCommand();
        return Some(CommandPending);
      }
      if !fdOpen || readerClosed {
        ClearPendingCommand();
        return Some(ChannelClosed);
      }
      if !writes {
        ClearPendingCommand();
        return Some(Generic);
      }
      Register(call, usec);
      return None;
    }

    /** The command is out: its response is pending from here on, and the command thread waits. */
    method Register(call: Call, usec: int)
      requires response == null
      modifies this
      ensures Valid() && fresh(Repr)
      ensures Abs() == Registered(old(Abs()), call, usec)
    {
      kind, responsePrefix, smsPdu := call.kind, call.prefix, call.pdu;
      waiter, pduWrites := if Refused(call, usec) then Spinning else Sleeping, [];
      NewResponse();
    }

    method NewResponse()
      requires response == null
      modifies `response, `Repr, `issued
      ensures Valid() && fresh(Repr)
      ensures Abs() == old(Abs()).(response := Some(Response(old(issued), false, None, [])), issued := old(issued) + 1)
    {
      response := new ATResponse(issued);
      Repr, issued := {response}, issued + 1;
    }

    /**
     The rest of at_send_command_full_nolock, run when the command thread has the mutex again: back to
     sleep (`err` is None), or a return with the response as `*pp_outResponse`.
     */
    method ResumeCommand(call: Call) returns (err: Option<Error>, out: ATResponse?)
      requires Valid() && response != null
      modifies this, Repr
      ensures Valid() && Repr <= old(Repr)
      ensures out != null ==> out.Valid() && out == old(response) && response == null && Repr == {}
      ensures Resume(old(Abs()), call) ==
        (Abs(), if err.None? then None else Some(Return(err.value, ReplyOf(out))))
    {
      hide Reverse;
      if waiter == TimedOut {
        LeaveWait();
        return Some(Timeout), null;
      }
      if response.finalResponse.None? && !readerClosed {
        waiter := if waiter == Spinning then Spinning else Sleeping;
        return None, null;
      }
      out := TakeResponse(call);
      err := Some(if readerClosed then ChannelClosed else Ok);
      LeaveWait();
    }

    /** The error exit, which every finished call takes. */
    method LeaveWait()
      modifies `response, `responsePrefix, `smsPdu, `freed, `Repr, `waiter
      ensures Valid() && Repr == {} && response == null && Abs() == Clear(old(Abs())).(waiter := Idle)
    {
      ClearPendingCommand();
      waiter := Idle;
    }

    /** The finished response goes to the caller, or is freed when the caller wants none. */
    method TakeResponse(call: Call) returns (out: ATResponse?)
      requires Valid() && response != null
      modifies `response, `freed, Repr
      ensures response == null
      ensures out == (if call.wantsOut then old(response) else null) && (out != null ==> out.Valid())
      ensures var r := old(response.Abs());
        && freed == (if call.wantsOut then old(freed) else old(freed) + [r.id])
        && ReplyOf(out) == if call.wantsOut then Some(Reply(r.id, r.success, r.final, Reverse(r.stack))) else None
    {
      hide Reverse;
      if call.wantsOut {
        out := response;
        out.ReverseIntermediates();
      } else {
        freed := freed + [response.id];
        out := null;
      }
      response := null;
    }

    /** The wrappers' check after a send for one line. */
    method CheckResponse(call: Call, err: Error, out: ATResponse?) returns (err': Error, out': ATResponse?)
      requires out != null ==> out.Valid()
      requires out != null ==> call.wantsOut
      requires err.Ok? && call.wantsOut ==> out != null
      modifies `freed
      ensures (Return(err', ReplyOf(out')), freed) == Finish(call, Return(err, ReplyOf(out)), old(freed))
    {
      if (call.kind.Numeric? || call.kind.SingleLine?)
         && err.Ok? && call.wantsOut && out.success && out.intermediates == null {
        freed := freed + [out.id];
        return InvalidResponse, null;
      }
      return err, out;
    }
  }

  /** `*pp_outResponse` the way its owner reads it, head first. */
  ghost function ReplyOf(r: ATResponse?): Option<Reply>
    reads r
  {
    if r == null then None else Some(Reply(r.id, r.success, r.finalResponse, ATResponse.Texts(r.nodes)))
  }
}
