/**
 ril-telephone/at_tok.c: the destructive tokenizer for AT response lines.

 `NextTok` says, on strings, which token a call hands out and what is left. The class
 `Tokenizer` does it in place, on the bytes of the line, and is proved to do just that while
 leaving every token it handed out before untouched. `Print` is the natural printer of a
 parameter list, and `RoundTrip` says exactly when the tokenizer undoes it.
 */
module AtTok {
  import opened CStrings

  // ---------------------------------------------------------------- what a call computes

  /** A token and the text still to be tokenized; `None` is a NULL cursor. */
  datatype Token = Token(text: string, rest: Option<string>)

  function AfterComma(s: string): (t: string)
    ensures |t| <= |s|
  {
    var i := IndexOf(s, ',');
    if i == |s| then "" else s[i + 1..]
  }

  lemma AfterCommaAt(s: string, k: nat)
    requires k == IndexOf(s, ',')
    ensures AfterComma(s) == if k == |s| then "" else s[k + 1..]
  {
  }

  /** strsep: cut `s` at the first `c`. */
  function Separate(s: string, c: char): (t: Token)
    ensures c !in t.text && t.text <= s
    ensures t.rest.Some? ==> s == t.text + [c] + t.rest.value
    ensures t.rest.None? ==> s == t.text
  {
    var i := IndexOf(s, c);
    if i == |s| then Token(s, None) else Token(s[..i], Some(s[i + 1..]))
  }

  /** A cut at a known place. */
  lemma SeparateIs(a: string, c: char, b: string)
    requires c !in a
    ensures Separate(a, c) == Token(a, None)
    ensures Separate(a + [c] + b, c) == Token(a, Some(b))
  {
    IndexOfIs(a, c, |a|);
    var s := a + [c] + b;
    assert s[..|a|] == a && s[|a| + 1..] == b;
    IndexOfIs(s, c, |a|);
  }

  lemma SeparateAt(s: string, c: char, k: nat)
    requires k == IndexOf(s, c)
    ensures Separate(s, c) == if k == |s| then Token(s, None) else Token(s[..k], Some(s[k + 1..]))
  {
  }

  /** skipNextComma after a quoted token. */
  function PastComma(q: Token): (t: Token) {
    if q.rest.None? then q else Token(q.text, Some(AfterComma(q.rest.value)))
  }

  /** The token of a text that does not start with white space. */
  function TokenAt(u: string): (t: Token)
    ensures t.rest.Some? ==> |t.rest.value| < |u|
  {
    if IsQuoted(u) then PastComma(Separate(u[1..], '"')) else Separate(u, ',')
  }

  predicate IsQuoted(u: string) {
    u != [] && u[0] == '"'
  }

  function NextTok(s: string): (t: Token)
    ensures t.rest.Some? ==> |t.rest.value| < |s|
  {
    TokenAt(s[Spaces(s)..])
  }

  predicate HasMore(rest: Option<string>) {
    rest.Some? && rest.value != ""
  }

  /** What looping `at_tok_hasmore`/`at_tok_nextstr` collects. */
  function Tokens(rest: Option<string>): seq<string>
    decreases if rest.None? then 0 else |rest.value|
  {
    if !HasMore(rest) then []
    else
      var t := NextTok(rest.value);
      assert t.rest.Some? ==> |t.rest.value| < |rest.value|;
      [t.text] + Tokens(t.rest)
  }

  lemma TokensUnfold(rest: Option<string>)
    ensures Tokens(rest) ==
      if HasMore(rest) then [NextTok(rest.value).text] + Tokens(NextTok(rest.value).rest) else []
  {
  }

  /** at_tok_start: the text after the first colon. */
  function Start(s: string): Option<string> {
    var i := IndexOf(s, ':');
    if i == |s| then None else Some(s[i + 1..])
  }

  /** at_tok_start on any text: what follows the first colon, or nothing without one. */
  lemma StartSplits(s: string) returns (prefix: string)
    ensures ':' !in prefix
    ensures if Start(s).Some? then s == prefix + ":" + Start(s).value else s == prefix
  {
    prefix := s[..IndexOf(s, ':')];
  }

  /** A token cut off at a comma, or at the end. */
  predicate Unquoted(s: string, ws: string, t: Token) {
    && s == ws + t.text + (if t.rest.Some? then "," + t.rest.value else "")
    && ',' !in t.text && (t.text != "" ==> !IsSpace(t.text[0]) && t.text[0] != '"')
  }

  /** A token in quotes, with what stands behind it up to the next comma; or with no closing quote. */
  predicate InQuotes(s: string, ws: string, t: Token, junk: string) {
    && '"' !in t.text && ',' !in junk
    && (if t.rest.None? then s == ws + "\"" + t.text
        else s == ws + "\"" + t.text + "\"" + junk + "," + t.rest.value
             || (s == ws + "\"" + t.text + "\"" + junk && t.rest == Some("")))
  }

  /**
   nextTok on any text at all: white space, then a token up to the next comma, or one in quotes and the
   text behind it up to the next comma; the cursor goes behind that comma, to the end of the text behind
   a quoted token, and to NULL behind a last token that is not quoted or not closed.
   */
  lemma NextTokSplits(s: string) returns (ws: string, junk: string)
    ensures forall j | 0 <= j < |ws| :: IsSpace(ws[j])
    ensures Unquoted(s, ws, NextTok(s)) || InQuotes(s, ws, NextTok(s), junk)
  {
    hide IndexOf, Spaces, IsSpace, TokenAt, Unquoted, InQuotes;
    var u := s[Spaces(s)..];
    ws, junk := s[..Spaces(s)], "";
    assert s == ws + u;
    if u != "" && u[0] == '"' {
      junk := QuotedSplits(u);
      QuotedBehind(s, ws, u, NextTok(s), junk);
    } else {
      UnquotedSplits(ws, u);
    }
  }

  lemma UnquotedSplits(ws: string, u: string)
    requires u != "" ==> u[0] != '"' && !IsSpace(u[0])
    ensures Unquoted(ws + u, ws, TokenAt(u))
  {
    hide IndexOf, Separate, IsSpace, PastComma;
    var k := IndexOf(u, ',');
    SeparateAt(u, ',', k);
    assert u != "" && k > 0 ==> u[..k][0] == u[0];
    if k < |u| {
      assert u == u[..k] + "," + u[k + 1..];
      assert ws + u == ws + u[..k] + ("," + u[k + 1..]);
    }
  }

  lemma QuotedBehind(s: string, ws: string, u: string, t: Token, junk: string)
    requires s == ws + u && InQuotes(u, "", t, junk)
    ensures InQuotes(s, ws, t, junk)
  {
    if t.rest.None? {
      assert s == ws + "\"" + t.text;
    } else if u == "" + "\"" + t.text + "\"" + junk + "," + t.rest.value {
      assert s == ws + "\"" + t.text + "\"" + junk + "," + t.rest.value;
    } else {
      assert s == ws + "\"" + t.text + "\"" + junk;
    }
  }

  lemma QuotedSplits(u: string) returns (junk: string)
    requires u != "" && u[0] == '"'
    ensures InQuotes(u, "", TokenAt(u), junk)
  {
    hide IndexOf, Separate, AfterComma;
    var v := u[1..];
    var k := IndexOf(v, '"');
    SeparateAt(v, '"', k);
    junk := "";
    if k == |v| {
      assert u == "" + "\"" + v;
    } else {
      junk := Behind(v[k + 1..]);
      assert v == v[..k] + "\"" + v[k + 1..];
      assert u == "" + "\"" + v[..k] + "\"" + v[k + 1..];
      if v[k + 1..] == junk + "," + AfterComma(v[k + 1..]) {
        assert u == "" + "\"" + v[..k] + "\"" + junk + "," + AfterComma(v[k + 1..]);
      }
    }
  }

  /** skipNextComma: what it skips. */
  lemma Behind(w: string) returns (junk: string)
    ensures ',' !in junk
    ensures w == junk + "," + AfterComma(w) || (w == junk && AfterComma(w) == "")
  {
    junk := w[..IndexOf(w, ',')];
  }

  // ---------------------------------------------------------------- the printer it undoes

  datatype Field = Raw(text: string) | Quoted(text: string)

  /** A field and the white space printed before it. */
  datatype Item = Item(pad: string, field: Field)

  /** What a field may hold for the tokenizer to tell it apart. */
  predicate Printable(x: Item) {
    && (forall j | 0 <= j < |x.pad| :: IsSpace(x.pad[j]))
    && match x.field
       case Raw(t) => ',' !in t && (t != [] ==> !IsSpace(t[0]) && t[0] != '"')
       case Quoted(t) => '"' !in t
  }

  function PrintItem(x: Item): string {
    x.pad + match x.field
            case Raw(t) => t
            case Quoted(t) => "\"" + t + "\""
  }

  function Print(xs: seq<Item>): string
    requires xs != []
  {
    if |xs| == 1 then PrintItem(xs[0]) else PrintItem(xs[0]) + "," + Print(xs[1..])
  }

  function Texts(xs: seq<Item>): (ts: seq<string>)
    ensures |ts| == |xs|
  {
    seq(|xs|, i requires 0 <= i < |xs| => xs[i].field.text)
  }

  /** The one item that prints as nothing at all. */
  predicate Blank(x: Item) {
    PrintItem(x) == ""
  }

  lemma NextTokUnquoted(pad: string, u: string)
    requires forall j | 0 <= j < |pad| :: IsSpace(pad[j])
    requires u == [] || (!IsSpace(u[0]) && u[0] != '"')
    ensures NextTok(pad + u) == Separate(u, ',')
    ensures TokOffset(pad + u) == |pad|
  {
    SpacesIs(pad + u, |pad|);
    assert (pad + u)[|pad|..] == u;
  }

  lemma NextTokQuoted(pad: string, u: string)
    requires forall j | 0 <= j < |pad| :: IsSpace(pad[j])
    ensures NextTok(pad + ("\"" + u)) == PastComma(Separate(u, '"'))
    ensures TokOffset(pad + ("\"" + u)) == |pad| + 1
  {
    var s := pad + ("\"" + u);
    SpacesIs(s, |pad|);
    assert s[|pad|..] == "\"" + u;
    assert ("\"" + u)[1..] == u;
  }

  lemma RawItem(x: Item, more: string)
    requires Printable(x) && x.field.Raw?
    ensures NextTok(PrintItem(x)) == Token(x.field.text, None)
    ensures NextTok(PrintItem(x) + "," + more) == Token(x.field.text, Some(more))
  {
    hide NextTok, Separate, IndexOf, Spaces;
    var t := x.field.text;
    SeparateIs(t, ',', more);
    assert t + "," + more == t + [','] + more;
    NextTokUnquoted(x.pad, t);
    NextTokUnquoted(x.pad, t + "," + more);
    assert PrintItem(x) + "," + more == x.pad + (t + "," + more);
  }

  lemma AfterFirstComma(more: string)
    ensures AfterComma("," + more) == more
  {
  }

  lemma NothingAfterComma()
    ensures AfterComma("") == ""
  {
  }

  lemma QuotedItem(x: Item, more: string)
    requires Printable(x) && x.field.Quoted?
    ensures NextTok(PrintItem(x)) == Token(x.field.text, Some(""))
    ensures NextTok(PrintItem(x) + "," + more) == Token(x.field.text, Some(more))
  {
    hide NextTok, Separate, AfterComma, IndexOf, Spaces, IsSpace;
    var t := x.field.text;
    SeparateIs(t, '"', "");
    SeparateIs(t, '"', "," + more);
    NothingAfterComma();
    AfterFirstComma(more);
    assert t + "\"" + "" == t + "\"";
    NextTokQuoted(x.pad, t + "\"");
    NextTokQuoted(x.pad, t + "\"" + ("," + more));
    assert PrintItem(x) == x.pad + ("\"" + (t + "\""));
    assert PrintItem(x) + "," + more == x.pad + ("\"" + (t + "\"" + ("," + more)));
  }

  /** One printed item, at the end of the line or before a comma. */
  lemma NextTokOfItem(x: Item, more: string)
    requires Printable(x)
    ensures NextTok(PrintItem(x)).text == x.field.text
    ensures !HasMore(NextTok(PrintItem(x)).rest)
    ensures NextTok(PrintItem(x) + "," + more) == Token(x.field.text, Some(more))
  {
    if x.field.Raw? { RawItem(x, more); } else { QuotedItem(x, more); }
  }

  lemma TextsCons(xs: seq<Item>)
    requires xs != []
    ensures Texts(xs) == [xs[0].field.text] + Texts(xs[1..])
  {
  }

  /** Tokenizing a printed list gives the list back, short only of a last item that printed as nothing. */
  lemma {:induction false} TokensOfPrint(xs: seq<Item>)
    requires xs != [] && forall x | x in xs :: Printable(x)
    ensures Tokens(Some(Print(xs))) == if Blank(xs[|xs| - 1]) then Texts(xs)[..|xs| - 1] else Texts(xs)
  {
    hide NextTok, Printable, PrintItem, Texts;
    if |xs| == 1 {
      NextTokOfItem(xs[0], "");
      TextsCons(xs);
      assert Texts(xs)[..0] == [];
      if !Blank(xs[0]) {
        assert Tokens(Some(Print(xs))) == [xs[0].field.text] + Tokens(NextTok(PrintItem(xs[0])).rest);
      }
    } else {
      var more := Print(xs[1..]);
      NextTokOfItem(xs[0], more);
      TokensOfPrint(xs[1..]);
      TextsCons(xs);
      assert xs[1..][|xs| - 2] == xs[|xs| - 1];
      assert Texts(xs)[..|xs| - 1] == [xs[0].field.text] + Texts(xs[1..])[..|xs| - 2];
    }
  }

  /**
   The round trip: for a prefix without a colon and every printable list, `at_tok_start` and
   then the token loop give the fields back if and only if the last item is not blank.
   */
  lemma RoundTrip(prefix: string, xs: seq<Item>)
    requires ':' !in prefix
    requires xs != [] && forall x | x in xs :: Printable(x)
    ensures Start(prefix + ":" + Print(xs)) == Some(Print(xs))
    ensures Tokens(Start(prefix + ":" + Print(xs))) == Texts(xs) <==> !Blank(xs[|xs| - 1])
  {
    hide IndexOf, Tokens, Texts, Printable, Print, Blank;
    var s := prefix + ":" + Print(xs);
    assert s[..|prefix|] == prefix && s[|prefix| + 1..] == Print(xs);
    IndexOfIs(s, ':', |prefix|);
    TokensOfPrint(xs);
  }

  /** The token loop ends: it makes no more calls than there are characters. */
  lemma {:induction false} TokensBounded(rest: Option<string>)
    ensures rest.Some? ==> |Tokens(rest)| <= |rest.value|
    decreases if rest.None? then 0 else |rest.value|
  {
    if HasMore(rest) {
      TokensBounded(NextTok(rest.value).rest);
    }
  }

  // ---------------------------------------------------------------- what a call leaves behind

  /** How far into `s` the token starts. */
  function TokOffset(s: string): (k: nat)
    ensures k + |NextTok(s).text| <= |s|
  {
    hide Spaces, Separate, AfterComma, IsSpace;
    Spaces(s) + if IsQuoted(s[Spaces(s)..]) then 1 else 0
  }

  lemma TokenInPlace(s: string)
    ensures s[TokOffset(s)..TokOffset(s) + |NextTok(s).text|] == NextTok(s).text
  {
  }

  lemma NextTokIs(s: string)
    ensures NextTok(s) == TokenAt(s[Spaces(s)..])
    ensures TokOffset(s) == Spaces(s) + if IsQuoted(s[Spaces(s)..]) then 1 else 0
  {
  }

  /** The text a call leaves where it started: NUL now stands right after the token. */
  function LeftBehind(s: string): (r: string)
    ensures r <= s
  {
    s[..TokOffset(s) + |NextTok(s).text|]
  }

  /** Tokenizing what is left behind hands the same token out again. */
  lemma SameTokenAgain(s: string)
    ensures NextTok(LeftBehind(s)) == Token(NextTok(s).text, None)
  {
    hide NextTok, Separate, IndexOf, Spaces, IsSpace;
    TokenInPlace(s);
    var u := s[Spaces(s)..];
    var pad := s[..Spaces(s)];
    assert s == pad + u;
    var t := NextTok(s).text;
    if u != [] && u[0] == '"' {
      assert u == "\"" + u[1..];
      NextTokQuoted(pad, u[1..]);
      assert LeftBehind(s) == pad + ("\"" + t);
      NextTokQuoted(pad, t);
      SeparateIs(t, '"', "");
    } else {
      NextTokUnquoted(pad, u);
      assert LeftBehind(s) == pad + t;
      NextTokUnquoted(pad, t);
      SeparateIs(t, ',', "");
    }
  }

  // ---------------------------------------------------------------- in place

  /**
   A token handed out: `text` stands at `tok`, the cursor (if any) is past its terminator, and
   nothing before `tok` changed.
   */
  ghost predicate Placed(before: seq<char>, after: seq<char>, tok: nat, text: string, cur: Option<nat>) {
    && IsCString(after, tok, text)
    && (cur.Some? ==> tok + |text| < cur.value)
    && |before| == |after| && before[..tok] == after[..tok]
  }

  /** White space skipped in a string in memory. */
  lemma SkipAt(m: seq<char>, start: nat, k: nat, end: nat)
    requires start <= k <= end < |m|
    requires (forall j | start <= j < k :: IsSpace(m[j])) && (k < end ==> !IsSpace(m[k]))
    ensures Spaces(m[start..end]) == k - start && m[start..end][k - start..] == m[k..end]
  {
    hide Spaces, IsSpace;
    SpacesIs(m[start..end], k - start);
  }

  /** A string at `p` cut at the first `c`, if there is one before its end. */
  lemma CutAt(before: seq<char>, after: seq<char>, p: nat, i: nat, end: nat, c: char)
    requires p <= i <= end < |before| && before[end] == NUL && NUL !in before[p..end]
    requires i - p == IndexOf(before[p..end], c) && after == before[i := NUL]
    ensures var cur := if i == end then None else Some(i + 1);
      Placed(before, after, p, Separate(before[p..end], c).text, cur)
    ensures Separate(before[p..end], c).rest == if i == end then None else Some(after[i + 1..end])
    ensures i < end ==> forall j | i < j < end :: after[j] != NUL
  {
    hide Separate, IndexOf;
    var s := before[p..end];
    SeparateAt(s, c, i - p);
    assert s[..i - p] == before[p..i] == after[p..i];
    assert forall j | p <= j < end :: before[j] == s[j - p];
    if i < end {
      assert s[i - p + 1..] == after[i + 1..end];
    }
  }

  /** A response line in memory and the caller's `char *` into it. */
  class Tokenizer {
    const line: array<char>
    var cur: Option<nat>
    /** Where the line's own terminator is. */
    ghost const end: nat

    ghost predicate Valid()
      reads this, line
    {
      cur.Some? ==>
        && cur.value <= end < line.Length && line[end] == NUL
        && forall j | cur.value <= j < end :: line[j] != NUL
    }

    /** The text the cursor points at. */
    ghost function Rest(): (r: Option<string>)
      reads this, line
      requires Valid()
      ensures r.None? <==> cur.None?
    {
      if cur.None? then None else Some(line[cur.value..end])
    }

    constructor (line: array<char>, ghost s: string)
      requires IsCString(line[..], 0, s)
      ensures this.line == line && Valid() && cur == Some(0) && end == |s| && Rest() == Some(s)
    {
      this.line := line;
      this.cur := Some(0);
      this.end := |s|;
    }

    /** strchr/strsep's scan: the first `c` at or after the cursor, or the terminator. */
    method Find(c: char) returns (i: nat)
      requires Valid() && cur.Some? && c != NUL
      ensures cur.value <= i <= end && i - cur.value == IndexOf(Rest().value, c)
      ensures i == end || line[i] == c
      ensures line[i] == NUL <==> i == end
    {
      i := cur.value;
      while line[i] != NUL && line[i] != c
        invariant cur.value <= i <= end
        invariant forall j | cur.value <= j < i :: line[j] != c
        decreases end - i
      {
        i := i + 1;
      }
      IndexOfIs(Rest().value, c, i - cur.value);
    }

    method TokStart() returns (ok: bool)
      requires Valid()
      modifies this
      ensures Valid()
      ensures Rest() == if old(Rest()).None? then None else Start(old(Rest()).value)
      ensures ok <==> Rest().Some?
    {
      if cur.None? {
        return false;
      }
      var i := Find(':');
      if line[i] == NUL {
        cur := None;
        return false;
      }
      assert line[i + 1..end] == line[cur.value..end][i - cur.value + 1..];
      cur := Some(i + 1);
      return true;
    }

    method SkipWhiteSpace()
      requires Valid()
      modifies `cur
      ensures Valid() && (cur.None? <==> old(cur).None?)
      ensures cur.Some? ==> cur.value == old(cur).value + Spaces(old(Rest()).value)
      ensures Rest() == if old(Rest()).None? then None else Some(old(Rest()).value[Spaces(old(Rest()).value)..])
    {
      if cur.None? {
        return;
      }
      hide Spaces, IsSpace;
      ghost var start := cur.value;
      while line[cur.value] != NUL && IsSpace(line[cur.value])
        invariant Valid() && cur.Some? && start <= cur.value
        invariant forall j | start <= j < cur.value :: IsSpace(line[j])
        decreases if cur.Some? then end - cur.value else 0
      {
        cur := Some(cur.value + 1);
      }
      SkipAt(line[..], start, cur.value, end);
      assert line[..][start..end] == line[start..end] && line[..][cur.value..end] == line[cur.value..end];
    }

    method SkipNextComma()
      requires Valid()
      modifies this
      ensures Valid()
      ensures Rest() == if old(Rest()).None? then None else Some(AfterComma(old(Rest()).value))
    {
      if cur.None? {
        return;
      }
      hide IndexOf, AfterComma;
      var i := Find(',');
      ghost var s := Rest().value;
      AfterCommaAt(s, i - cur.value);
      if line[i] == ',' {
        assert i < end;
        assert line[i + 1..end] == s[i - cur.value + 1..];
        cur := Some(i + 1);
      } else {
        assert i == end && line[i..end] == [];
        cur := Some(i);
      }
    }

    /** strsep(p_cur, c): NUL over the first `c`, cursor behind it, the old cursor returned. */
    method Strsep(c: char) returns (tok: nat)
      requires Valid() && cur.Some? && c != NUL
      modifies this, line
      ensures Valid()
      ensures tok == old(cur).value
      ensures Placed(old(line[..]), line[..], tok, Separate(old(Rest()).value, c).text, cur)
      ensures Rest() == Separate(old(Rest()).value, c).rest
    {
      hide Separate, IndexOf, Placed;
      tok := cur.value;
      var i := Find(c);
      ghost var before := line[..];
      assert Rest().value == before[tok..end];
      if line[i] == NUL {
        cur := None;
      } else {
        line[i] := NUL;
        cur := Some(i + 1);
      }
      CutAt(before, line[..], tok, i, end, c);
      assert cur.Some? ==> line[i + 1..end] == line[..][i + 1..end];
    }

    /** nextTok: the token's place and text, the new cursor, and nothing changed before the token. */
    method NextToken() returns (tok: Option<nat>)
      requires Valid()
      modifies this, line
      ensures Valid()
      ensures tok.None? <==> old(cur).None?
      ensures tok.None? ==> cur.None? && line[..] == old(line[..])
      ensures tok.Some? ==> Rest() == NextTok(old(Rest()).value).rest
      ensures tok.Some? ==> tok.value == old(cur).value + TokOffset(old(Rest()).value)
      ensures tok.Some? ==> Placed(old(line[..]), line[..], tok.value, NextTok(old(Rest()).value).text, cur)
    {
      hide Spaces, IsSpace, TokenAt, IsQuoted, Placed, NextTok, TokOffset, Rest;
      ghost var s := Rest();
      SkipWhiteSpace();
      if cur.None? {
        return None;
      }
      NextTokIs(s.value);
      var p := BareToken();
      return Some(p);
    }

    /** The cursor stands behind any white space. */
    method BareToken() returns (tok: nat)
      requires Valid() && cur.Some?
      modifies this, line
      ensures Valid()
      ensures tok == old(cur).value + if IsQuoted(old(Rest()).value) then 1 else 0
      ensures Rest() == TokenAt(old(Rest()).value).rest
      ensures Placed(old(line[..]), line[..], tok, TokenAt(old(Rest()).value).text, cur)
    {
      hide Separate, PastComma, Placed;
      ghost var u := Rest().value;
      if line[cur.value] == '"' {
        assert u[0] == '"' && u[1..] == line[cur.value + 1..end];
        cur := Some(cur.value + 1);
        tok := QuotedToken();
      } else {
        assert u != [] ==> u[0] != '"';
        tok := Strsep(',');
      }
    }

    /** The cursor stands behind an opening quote. */
    method QuotedToken() returns (tok: nat)
      requires Valid() && cur.Some?
      modifies this, line
      ensures Valid()
      ensures tok == old(cur).value
      ensures Rest() == PastComma(Separate(old(Rest()).value, '"')).rest
      ensures Placed(old(line[..]), line[..], tok, PastComma(Separate(old(Rest()).value, '"')).text, cur)
    {
      hide Separate, IndexOf, AfterComma;
      tok := Strsep('"');
      SkipNextComma();
    }

    /** at_tok_nextstr: fails on a NULL cursor only. */
    method NextStr() returns (tok: Option<nat>)
      requires Valid()
      modifies this, line
      ensures Valid() && (cur.Some? ==> tok.Some? && tok.value < cur.value)
      ensures tok.None? <==> old(cur).None?
      ensures tok.None? ==> cur.None? && line[..] == old(line[..])
      ensures tok.Some? ==> Rest() == NextTok(old(Rest()).value).rest
      ensures tok.Some? ==> old(cur).value <= tok.value
      ensures tok.Some? ==> Placed(old(line[..]), line[..], tok.value, NextTok(old(Rest()).value).text, cur)
    {
      if cur.None? {
        return None;
      }
      tok := NextToken();
    }

    method AtTokHasMore() returns (more: bool)
      requires Valid()
      ensures more <==> HasMore(Rest())
    {
      return !(cur.None? || line[cur.value] == NUL);
    }

    /**
     The caller's loop over a whole list. The strings all still stand in the line when the loop is
     over, so no call ever touched a token handed out by an earlier one.
     */
    method AllTokens() returns (toks: seq<nat>)
      requires Valid()
      modifies this, line
      ensures |toks| == |Tokens(old(Rest()))|
      ensures forall i | 0 <= i < |toks| :: IsCString(line[..], toks[i], Tokens(old(Rest()))[i])
    {
      hide NextTok, Tokens, HasMore, Rest, Placed, IsCString, AllPlaced;
      ghost var all := Tokens(Rest());
      NonePlaced(line[..], all, cur);
      TokensUnfold(Rest());
      toks := [];
      var more := AtTokHasMore();
      while more
        invariant Valid() && (more <==> HasMore(Rest()))
        invariant |toks| <= |all| && Tokens(Rest()) == all[|toks|..] && (HasMore(Rest()) ==> |toks| < |all|)
        invariant AllPlaced(line[..], toks, all, cur)
        decreases if cur.None? then 0 else end + 1 - cur.value, more
      {
        ghost var before, was := line[..], cur;
        ghost var r := Rest();
        TokensUnfold(r);
        MoreHasRest(r);
        assert all[|toks|] == all[|toks|..][0] && all[|toks| + 1..] == all[|toks|..][1..];
        var tok := NextStr();
        OneMorePlaced(before, line[..], toks, all, was.value, tok.value, cur);
        toks := toks + [tok.value];
        more := AtTokHasMore();
        TokensUnfold(Rest());
      }
      TokensUnfold(Rest());
      PlacedAll(line[..], toks, all, cur);
    }
  }

  /** A string wholly below `cut` is still there when nothing below `cut` changed. */
  lemma Kept(before: seq<char>, after: seq<char>, cut: nat, p: nat, s: string)
    requires |before| == |after| && cut <= |before| && before[..cut] == after[..cut]
    requires p + |s| < cut && IsCString(before, p, s)
    ensures IsCString(after, p, s)
  {
  }

  /** These tokens all stand in the line, before the cursor. */
  ghost predicate AllPlaced(m: seq<char>, toks: seq<nat>, all: seq<string>, cur: Option<nat>) {
    && |toks| <= |all|
    && forall i | 0 <= i < |toks| ::
      IsCString(m, toks[i], all[i]) && (cur.Some? ==> toks[i] + |all[i]| < cur.value)
  }

  lemma NonePlaced(m: seq<char>, all: seq<string>, cur: Option<nat>)
    ensures AllPlaced(m, [], all, cur)
  {
  }

  lemma PlacedAll(m: seq<char>, toks: seq<nat>, all: seq<string>, cur: Option<nat>)
    requires AllPlaced(m, toks, all, cur)
    ensures |toks| <= |all| && forall i | 0 <= i < |toks| :: IsCString(m, toks[i], all[i])
  {
  }

  lemma MoreHasRest(rest: Option<string>)
    ensures HasMore(rest) ==> rest.Some?
  {
  }

  lemma OneMorePlaced(before: seq<char>, after: seq<char>, toks: seq<nat>, all: seq<string>, was: nat, tok: nat,
      cur: Option<nat>)
    requires AllPlaced(before, toks, all, Some(was)) && |toks| < |all| && was <= tok
    requires Placed(before, after, tok, all[|toks|], cur)
    ensures AllPlaced(after, toks + [tok], all, cur)
  {
    hide IsCString;
    assert tok <= |before| by { StandsIn(after, tok, all[|toks|]); }
    forall i | 0 <= i < |toks|
      ensures IsCString(after, toks[i], all[i])
    {
      Kept(before, after, tok, toks[i], all[i]);
    }
  }

  lemma StandsIn(m: seq<char>, p: nat, s: string)
    requires IsCString(m, p, s)
    ensures p + |s| < |m|
  {
  }

  /** A printed response line, parsed in place: the tokens are the printed fields. */
  method ParseLine(line: array<char>, ghost prefix: string, ghost xs: seq<Item>) returns (toks: seq<nat>)
    requires ':' !in prefix && xs != [] && forall x | x in xs :: Printable(x)
    requires !Blank(xs[|xs| - 1])
    requires IsCString(line[..], 0, prefix + ":" + Print(xs))
    modifies line
    ensures |toks| == |xs|
    ensures forall i | 0 <= i < |xs| :: IsCString(line[..], toks[i], xs[i].field.text)
  {
    RoundTrip(prefix, xs);
    var t := new Tokenizer(line, prefix + ":" + Print(xs));
    var ok := t.TokStart();
    toks := t.AllTokens();
  }
}
