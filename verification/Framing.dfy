/**
 `readline` of ril-telephone/atchannel.c: cutting the byte stream of the AT channel into lines.

 `Lines` says on the stream as a whole which lines it holds. The class `LineReader` finds them in
 a fixed buffer that `read` fills in pieces of any size, and is proved to return exactly those, but for
 an SMS prompt that a read ends behind.
 */
module Framing {
  import opened CStrings

  const MAX_AT_RESPONSE: nat := 8 * 1024

  predicate IsEol(c: char) {
    c == '\r' || c == '\n'
  }

  // ---------------------------------------------------------------- the lines of a stream

  /** How many newline characters `s` starts with. */
  function Run(s: string): (n: nat)
    ensures n <= |s| && (n < |s| ==> !IsEol(s[n]))
    ensures forall j | 0 <= j < n :: IsEol(s[j])
  {
    if s == [] || !IsEol(s[0]) then 0 else 1 + Run(s[1..])
  }

  /** The first newline character at or after `from`, or `|s|`. */
  function Eol(s: string, from: nat): (n: nat)
    requires from <= |s|
    ensures from <= n <= |s| && (n < |s| ==> IsEol(s[n]))
    ensures forall j | from <= j < n :: !IsEol(s[j])
    decreases |s| - from
  {
    if from == |s| || IsEol(s[from]) then from else Eol(s, from + 1)
  }

  /** The newline run and first line that open `s` end at this index; `|s|` when none is complete. */
  function LineEnd(s: string): (n: nat)
    ensures Run(s) <= n <= |s|
  {
    Eol(s, Run(s))
  }

  /** The text between the opening newline run and the first terminator. */
  function FirstLine(s: string): string {
    s[Run(s)..LineEnd(s)]
  }

  predicate Complete(s: string) {
    LineEnd(s) < |s|
  }

  function Remainder(s: string): string
    requires Complete(s)
  {
    s[LineEnd(s) + 1..]
  }

  /** The non-empty CR/LF-terminated lines of a stream, in order. */
  function Lines(s: string): seq<string>
    decreases |s|
  {
    if !Complete(s) then [] else [FirstLine(s)] + Lines(Remainder(s))
  }

  /** The streams the buffer can frame: no NUL, and every newline run with the line after it fits. */
  predicate Framable(s: string)
    decreases |s|
  {
    && NUL !in s[..LineEnd(s)]
    && LineEnd(s) < MAX_AT_RESPONSE
    && (Complete(s) ==> Framable(Remainder(s)))
  }

  /** No line opens like the SMS prompt. */
  predicate Promptless(s: string)
    decreases |s|
  {
    !("> " <= FirstLine(s)) && (Complete(s) ==> Promptless(Remainder(s)))
  }

  // ---------------------------------------------------------------- what Lines means

  /** A terminated line and the newlines after its terminator. */
  datatype Sent = Sent(text: string, eol: char, more: string)

  predicate WellSent(x: Sent) {
    && x.text != "" && (forall j | 0 <= j < |x.text| :: !IsEol(x.text[j]))
    && IsEol(x.eol) && forall j | 0 <= j < |x.more| :: IsEol(x.more[j])
  }

  function Wire(xs: seq<Sent>, tail: string): string {
    if xs == [] then tail else xs[0].text + [xs[0].eol] + xs[0].more + Wire(xs[1..], tail)
  }

  lemma EolIs(s: string, from: nat, k: nat)
    requires from <= k <= |s| && (k < |s| ==> IsEol(s[k]))
    requires forall j | from <= j < k :: !IsEol(s[j])
    ensures Eol(s, from) == k
  {
  }

  lemma RunIs(s: string, k: nat)
    requires k <= |s| && (k < |s| ==> !IsEol(s[k]))
    requires forall j | 0 <= j < k :: IsEol(s[j])
    ensures Run(s) == k
  {
  }

  /** A stream that opens with a newline run and a terminated line. */
  lemma FirstLineIs(run: string, text: string, eol: char, rest: string)
    requires forall j | 0 <= j < |run| :: IsEol(run[j])
    requires text != "" && forall j | 0 <= j < |text| :: !IsEol(text[j])
    requires IsEol(eol)
    ensures var s := run + text + [eol] + rest;
      Complete(s) && FirstLine(s) == text && Remainder(s) == rest && LineEnd(s) == |run| + |text|
  {
    var s := run + text + [eol] + rest;
    RunIs(s, |run|);
    EolIs(s, |run|, |run| + |text|);
    assert s[|run|..|run| + |text|] == text;
    assert s[|run| + |text| + 1..] == rest;
  }

  /** One line more at the front of a framable stream. */
  lemma FramableCons(run: string, text: string, eol: char, rest: string)
    requires forall j | 0 <= j < |run| :: IsEol(run[j])
    requires text != "" && forall j | 0 <= j < |text| :: !IsEol(text[j])
    requires IsEol(eol) && NUL !in run + text && |run| + |text| < MAX_AT_RESPONSE
    requires Framable(rest)
    ensures Framable(run + text + [eol] + rest)
  {
    hide LineEnd, FirstLine, Complete, Remainder;
    FirstLineIs(run, text, eol, rest);
    assert (run + text + [eol] + rest)[..|run + text|] == run + text;
  }

  /** A stream with no terminator after its newline run. */
  lemma NoLine(run: string, tail: string)
    requires forall j | 0 <= j < |run| :: IsEol(run[j])
    requires forall j | 0 <= j < |tail| :: !IsEol(tail[j])
    ensures LineEnd(run + tail) == |run + tail| && !Complete(run + tail)
  {
  }

  /**
   Reading back what was sent: whatever lines go over the wire, each closed by CR or LF and followed
   by any run of newlines, `Lines` is those lines, and an unterminated tail adds nothing.
   */
  lemma {:induction false} LinesOfWire(run: string, xs: seq<Sent>, tail: string)
    requires forall j | 0 <= j < |run| :: IsEol(run[j])
    requires forall x | x in xs :: WellSent(x)
    requires forall j | 0 <= j < |tail| :: !IsEol(tail[j])
    ensures Lines(run + Wire(xs, tail)) == seq(|xs|, i requires 0 <= i < |xs| => xs[i].text)
    decreases |xs|
  {
    hide Run, Eol, LineEnd, FirstLine, Complete, Remainder, IsEol;
    var s := run + Wire(xs, tail);
    if xs == [] {
      NoLine(run, tail);
    } else {
      var x := xs[0];
      assert x in xs && WellSent(x);
      var rest := x.more + Wire(xs[1..], tail);
      assert s == run + x.text + [x.eol] + rest;
      FirstLineIs(run, x.text, x.eol, rest);
      LinesOfWire(x.more, xs[1..], tail);
      assert Lines(s) == [x.text] + Lines(rest);
    }
  }

  // ---------------------------------------------------------------- what the buffer sees of it

  /** A newline run and newline-free text at the front of a stream are part of its first line. */
  lemma PartialText(run: string, text: string, more: string)
    requires forall j | 0 <= j < |run| :: IsEol(run[j])
    requires forall j | 0 <= j < |text| :: !IsEol(text[j])
    ensures |run| + |text| <= LineEnd(run + text + more)
    ensures text <= FirstLine(run + text + more)
  {
    var s := run + text + more;
    if text == [] {
      assert forall j | 0 <= j < |run| :: s[j] == run[j];
    } else {
      assert s[|run|] == text[0];
      RunIs(s, |run|);
      assert forall j | 0 <= j < |text| :: s[|run| + j] == text[j];
    }
  }

  /** The buffer holds `run + text` of a framable stream, with no newline in `text`: it is not full. */
  lemma PartialLine(run: string, text: string, more: string)
    requires forall j | 0 <= j < |run| :: IsEol(run[j])
    requires forall j | 0 <= j < |text| :: !IsEol(text[j])
    requires Framable(run + text + more)
    ensures |run| + |text| < MAX_AT_RESPONSE
  {
    hide IsEol, LineEnd, FirstLine, Complete, Remainder;
    PartialText(run, text, more);
  }

  /** A stream that opens with newlines and then like the prompt. */
  lemma PromptOpensLine(run: string, more: string)
    requires forall j | 0 <= j < |run| :: IsEol(run[j])
    ensures var s := run + "> " + more;
      "> " <= FirstLine(s) && !Promptless(s) && |s| == Run(s) + 2 + |more| && s[Run(s) + 2..] == more
  {
    hide LineEnd, FirstLine, Complete, Remainder;
    var s := run + "> " + more;
    PartialText(run, "> ", more);
    RunIs(s, |run|);
  }

  /**
   A look at `s` with all but `input` of it in the buffer sees newlines and then the prompt, at the end
   of the data.
   */
  ghost predicate PromptSeen(s: string, input: string) {
    "> " <= FirstLine(s) && |s| == Run(s) + 2 + |input|
  }

  /** `looks` is how many bytes of `s` the buffer held at each look; one saw just the prompt. */
  ghost predicate PromptCut(s: string, looks: seq<nat>) {
    "> " <= FirstLine(s) && Run(s) + 2 in looks
  }

  lemma OneMoreLook(s: string, looks: seq<nat>, input: string)
    requires |input| <= |s|
    ensures PromptCut(s, looks + [|s| - |input|]) <==> PromptCut(s, looks) || PromptSeen(s, input)
  {
    hide FirstLine, Run;
  }

  lemma FirstLook(s: string, input: string)
    requires |input| <= |s|
    ensures PromptCut(s, [|s| - |input|]) <==> PromptSeen(s, input)
  {
    hide FirstLine, Run;
  }

  lemma NothingSeen(s: string, input: string)
    requires |s| == |input|
    ensures !PromptSeen(s, input)
  {
  }

  lemma OpensLikePrompt(s: string)
    requires "> " <= FirstLine(s)
    ensures Run(s) + 2 <= |s| && s[Run(s)] == '>' && s[Run(s) + 1] == ' '
  {
    hide Run;
    assert FirstLine(s)[0] == '>' && FirstLine(s)[1] == ' ';
  }

  lemma SameIsFramable(s: string, t: string)
    requires SameLines(s, t)
    ensures Framable(t)
  {
  }

  /** The same after newlines have been dropped. */
  lemma SeenInBoth(s: string, t: string, input: string)
    requires SameLines(s, t)
    ensures PromptSeen(t, input) <==> PromptSeen(s, input)
  {
    hide FirstLine, Run, Lines, Framable, Remainder, Complete;
    assert |t[Run(t)..]| == |s[Run(s)..]|;
  }

  lemma DropNewlinesEnds(s: string, k: nat)
    requires k <= Run(s)
    ensures Run(s[k..]) == Run(s) - k && LineEnd(s[k..]) == LineEnd(s) - k
    ensures s[k..][Run(s[k..])..] == s[Run(s)..]
  {
  }

  lemma DropNewlinesShape(s: string, k: nat)
    requires k <= Run(s)
    ensures LineEnd(s[k..]) == LineEnd(s) - k
    ensures FirstLine(s[k..]) == FirstLine(s)
    ensures Complete(s[k..]) == Complete(s)
    ensures Complete(s) ==> Remainder(s[k..]) == Remainder(s)
  {
    hide IsEol, LineEnd, Run;
    DropNewlinesEnds(s, k);
  }

  /** Dropping newlines from the front of a stream changes none of its lines. */
  lemma DropNewlines(s: string, k: nat)
    requires k <= Run(s)
    ensures Lines(s[k..]) == Lines(s)
    ensures Framable(s) ==> Framable(s[k..])
    ensures Complete(s[k..]) == Complete(s)
  {
    hide LineEnd, FirstLine, Complete, Remainder;
    DropNewlinesShape(s, k);
    assert s[k..][..LineEnd(s[k..])] == s[..LineEnd(s)][k..];
  }

  /** `t` is as good as `s` to read lines from. */
  ghost predicate SameLines(s: string, t: string) {
    && Framable(t) && Lines(t) == Lines(s) && Complete(t) == Complete(s)
    && FirstLine(t) == FirstLine(s) && t[Run(t)..] == s[Run(s)..]
    && (Complete(s) ==> Remainder(t) == Remainder(s))
  }

  lemma DroppedNewlines(s: string, k: nat)
    requires Framable(s) && k <= |s| && forall j | 0 <= j < k :: IsEol(s[j])
    ensures SameLines(s, s[k..])
  {
    hide IsEol, LineEnd, Lines, Framable, FirstLine, Remainder, Complete, Run;
    assert k <= Run(s);
    DropNewlines(s, k);
    DropNewlinesShape(s, k);
    DropNewlinesEnds(s, k);
  }

  lemma {:induction false} FramableHasNoNul(s: string)
    requires Framable(s)
    ensures forall j | 0 <= j < |s| :: s[j] != NUL
    decreases |s|
  {
    var n := LineEnd(s);
    assert forall j | 0 <= j < n :: s[j] == s[..n][j];
    if Complete(s) {
      FramableHasNoNul(Remainder(s));
      assert forall j | n < j < |s| :: s[j] == Remainder(s)[j - n - 1];
    }
  }

  // ---------------------------------------------------------------- text in front of a stream

  /** One more character at the front takes no line away. */
  lemma OneInFront(c: char, s: string)
    ensures |Lines([c] + s)| >= |Lines(s)|
  {
    hide LineEnd, FirstLine, Complete, Remainder;
    var t := [c] + s;
    if IsEol(c) {
      RunAtLeast(t, 1);
      DropNewlines(t, 1);
      assert t[1..] == s;
    } else if s == "" || !IsEol(s[0]) {
      LongerFirstLine(c, s);
    } else {
      FirstLineIs("", [c], s[0], s[1..]);
      assert "" + [c] + [s[0]] + s[1..] == t;
      RunAtLeast(s, 1);
      DropNewlines(s, 1);
    }
  }

  lemma RunAtLeast(s: string, k: nat)
    requires k <= |s| && forall j | 0 <= j < k :: IsEol(s[j])
    ensures k <= Run(s)
  {
  }

  lemma LongerFirstLine(c: char, s: string)
    requires !IsEol(c) && (s == "" || !IsEol(s[0]))
    ensures Complete([c] + s) == Complete(s)
    ensures Complete(s) ==> Remainder([c] + s) == Remainder(s)
  {
    var t := [c] + s;
    EolIs(t, 0, LineEnd(s) + 1);
  }

  lemma {:induction false} MoreInFront(t: string, s: string)
    ensures |Lines(t + s)| >= |Lines(s)|
    decreases |t|
  {
    hide Lines;
    if t == "" {
      assert t + s == s;
    } else {
      MoreInFront(t[1..], s);
      OneInFront(t[0], t[1..] + s);
      assert t + s == [t[0]] + (t[1..] + s);
    }
  }

  /** Text in front of a stream, once a line is complete, shows in the lines. */
  lemma TextShows(t: string, s: string)
    requires t != "" && !IsEol(t[0]) && Complete(t + s)
    ensures Lines(t + s) != Lines(s)
  {
    hide Lines, Run, Eol, IsEol;
    var all := t + s;
    RunIs(all, 0);
    var k := LineEnd(all);
    assert FirstLine(all) == all[..k];
    assert Lines(all) == [all[..k]] + Lines(all[k + 1..]) by { LinesOfComplete(all); }
    if k < |t| {
      assert all[k + 1..] == t[k + 1..] + s;
      MoreInFront(t[k + 1..], s);
    } else if k == |t| {
      assert all[k + 1..] == s[1..] && s[0] == all[k];
      RunAtLeast(s, 1);
      DropNewlines(s, 1);
    } else {
      var j := k - |t|;
      assert forall i | 0 <= i <= j :: s[i] == all[|t| + i];
      FirstLineIs("", s[..j], s[j], s[j + 1..]);
      assert "" + s[..j] + [s[j]] + s[j + 1..] == s;
      LinesOfComplete(s);
      assert |Lines(s)[0]| == j && |Lines(all)[0]| == k;
    }
  }

  lemma LinesOfComplete(s: string)
    requires Complete(s)
    ensures Lines(s) == [FirstLine(s)] + Lines(Remainder(s))
  {
  }

  /**
   What bytes in front of a stream do to its lines: nothing, if and only if they are all newlines or
   no line of the two together is ever complete.
   */
  lemma InFront(t: string, s: string)
    ensures Lines(t + s) == Lines(s) <==> (forall j | 0 <= j < |t| :: IsEol(t[j])) || !Complete(t + s)
  {
    hide Lines, Run, Complete, IsEol;
    var k := Run(t);
    assert t + s == t[..k] + (t[k..] + s);
    RunAtLeast(t + s, k);
    DropNewlines(t + s, k);
    assert (t + s)[k..] == t[k..] + s;
    if k == |t| {
      assert t[k..] + s == s;
    } else if Complete(t + s) {
      TextShows(t[k..], s);
    } else {
      NoneComplete(t + s);
      MoreInFront(t, s);
    }
  }

  lemma NoneComplete(s: string)
    requires !Complete(s)
    ensures Lines(s) == []
  {
  }
}
