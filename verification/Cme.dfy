/**
 `at_get_cme_error` (ril-telephone/atchannel.c) and the decimal conversion under it
 (`at_tok_nextint`, ril-telephone/at_tok.c; `strtol`, section 7.20.1.4 of C99).
 */
module Cme {
  import opened CStrings
  import opened AtTok
  import opened Misc

  const INT_MIN := -0x8000_0000
  const INT_MAX := 0x7fff_ffff

  // ---------------------------------------------------------------- decimal conversion

  function Digit(c: char): int {
    c as int - '0' as int
  }

  /** How many decimal digits `s` starts with. */
  function Digits(s: string): (n: nat)
    ensures n <= |s| && (n < |s| ==> !IsDigit(s[n]))
    ensures forall j | 0 <= j < n :: IsDigit(s[j])
  {
    if s == [] || !IsDigit(s[0]) then 0 else 1 + Digits(s[1..])
  }

  function Value(ds: string): int {
    if ds == [] then 0 else Value(ds[..|ds| - 1]) * 10 + Digit(ds[|ds| - 1])
  }

  function Signed(s: string): bool {
    s != [] && (s[0] == '-' || s[0] == '+')
  }

  /**
   strtol(s, &end, 10) for a `long` holding -max - 1 .. max: `None` when no digit was converted
   (end == s); otherwise the value, pinned to the range of `long`.
   */
  function Strtol(s: string, max: int): (r: Option<int>)
    requires max >= 0
    ensures r.Some? ==> -max - 1 <= r.value <= max
  {
    StrtolAt(s[Spaces(s)..], max)
  }

  /** The same behind the white space. */
  function StrtolAt(u: string, max: int): (r: Option<int>)
    requires max >= 0
    ensures r.Some? ==> -max - 1 <= r.value <= max
  {
    var ds := if Signed(u) then u[1..] else u;
    var n := Digits(ds);
    if n == 0 then None
    else
      var v := if Signed(u) && u[0] == '-' then -Value(ds[..n]) else Value(ds[..n]);
      Some(if v > max then max else if v < -max - 1 then -max - 1 else v)
  }

  /** `(int)l`: the low 32 bits. */
  function ToInt(l: int): (i: int)
    ensures INT_MIN <= i <= INT_MAX && (l - i) % 0x1_0000_0000 == 0
  {
    var low := l % 0x1_0000_0000;
    if low > INT_MAX then low - 0x1_0000_0000 else low
  }

  /** at_tok_nextint on the text at the cursor: the result of the call and `*p_out`. */
  function NextInt(rest: Option<string>, max: int): Option<int>
    requires max >= 0
  {
    if rest.None? then None
    else
      var l := Strtol(NextTok(rest.value).text, max);
      if l.None? then None else Some(ToInt(l.value))
  }

  // ---------------------------------------------------------------- the decimal printer

  function PrintNat(n: nat): string {
    if n < 10 then [('0' as int + n) as char] else PrintNat(n / 10) + [('0' as int + n % 10) as char]
  }

  function PrintInt(n: int): string {
    if n < 0 then "-" + PrintNat(-n) else PrintNat(n)
  }

  lemma {:induction false} PrintNatParses(n: nat)
    ensures PrintNat(n) != [] && forall j | 0 <= j < |PrintNat(n)| :: IsDigit(PrintNat(n)[j])
    ensures Value(PrintNat(n)) == n
  {
    if n < 10 {
      assert PrintNat(n)[..0] == [];
    } else {
      PrintNatParses(n / 10);
      var ds := PrintNat(n);
      assert ds[..|ds| - 1] == PrintNat(n / 10);
    }
  }

  lemma {:induction false} DigitsIs(s: string, k: nat)
    requires k <= |s| && (k < |s| ==> !IsDigit(s[k]))
    requires forall j | 0 <= j < k :: IsDigit(s[j])
    ensures Digits(s) == k
  {
  }

  /** strtol reads back every number the printer prints, as far as `long` holds it. */
  lemma StrtolOfPrint(n: int, max: int)
    requires -max - 1 <= n <= max && max >= 0
    ensures Strtol(PrintInt(n), max) == Some(n)
  {
    hide PrintNat, Digits, Spaces, Value;
    var a := if n < 0 then -n else n;
    PrintNatParses(a);
    var ds := PrintNat(a);
    DigitsIs(ds, |ds|);
    assert ds[..|ds|] == ds;
    var s := PrintInt(n);
    SpacesIs(s, 0);
    assert s[0..] == s;
    if n < 0 {
      assert s[1..] == ds;
    }
  }

  /**
   strtol on any text: white space and a sign before the digits, anything after them. The number is what
   the digits say, pinned to the range of `long`.
   */
  lemma StrtolReads(ws: string, sign: string, n: nat, junk: string, max: int)
    requires max >= 0 && (forall j | 0 <= j < |ws| :: IsSpace(ws[j])) && sign in ["", "+", "-"]
    requires junk != "" ==> !IsDigit(junk[0])
    ensures Strtol(ws + (sign + (PrintNat(n) + junk)), max) ==
      var m: int := n;
      var v := if sign == "-" then -m else m;
      Some(if v > max then max else if v < -max - 1 then -max - 1 else v)
  {
    hide PrintNat, Digits, Spaces, Value, IsSpace, IsDigit, Strtol;
    PrintNatParses(n);
    var ds := PrintNat(n);
    NotSpace(ds[0]);
    assert (ds + junk)[0] == ds[0];
    DigitsIs(ds + junk, |ds|);
    assert (ds + junk)[..|ds|] == ds;
    StrtolBehind(ws, sign, ds + junk, max);
  }

  /** strtol with white space and sign out of the way. */
  lemma StrtolBehind(ws: string, sign: string, rest: string, max: int)
    requires max >= 0 && (forall j | 0 <= j < |ws| :: IsSpace(ws[j])) && sign in ["", "+", "-"]
    requires sign == "" && rest != "" ==> !IsSpace(rest[0]) && rest[0] != '+' && rest[0] != '-'
    ensures var n := Digits(rest);
      Strtol(ws + (sign + rest), max) ==
        if n == 0 then None
        else
          var v := if sign == "-" then -Value(rest[..n]) else Value(rest[..n]);
          Some(if v > max then max else if v < -max - 1 then -max - 1 else v)
  {
    hide Digits, Spaces, Value, IsSpace;
    BehindSpace(ws, sign, rest);
    if sign != "" {
      assert Signed(sign + rest);
    } else {
      assert !Signed(rest);
    }
  }

  /** And without a digit there is no number. */
  lemma StrtolFails(ws: string, sign: string, junk: string, max: int)
    requires max >= 0 && (forall j | 0 <= j < |ws| :: IsSpace(ws[j])) && sign in ["", "+", "-"]
    requires junk != "" ==> !IsDigit(junk[0])
    requires junk != "" && sign == "" ==> !IsSpace(junk[0]) && junk[0] != '+' && junk[0] != '-'
    ensures Strtol(ws + (sign + junk), max) == None
  {
    hide Digits, Spaces, IsSpace, IsDigit, Strtol;
    StrtolBehind(ws, sign, junk, max);
    DigitsIs(junk, 0);
  }

  lemma BehindSpace(ws: string, sign: string, rest: string)
    requires (forall j | 0 <= j < |ws| :: IsSpace(ws[j])) && sign in ["", "+", "-"]
    requires sign == "" && rest != "" ==> !IsSpace(rest[0])
    ensures var s := ws + (sign + rest); Spaces(s) == |ws| && s[|ws|..] == sign + rest
    ensures sign != "" ==> (sign + rest)[1..] == rest && (sign + rest)[0] == sign[0]
    ensures sign == "" ==> sign + rest == rest
  {
    hide Spaces, IsSpace;
    var s := ws + (sign + rest);
    assert s[|ws|..] == sign + rest;
    if sign != "" {
      NotSpace(sign[0]);
      assert s[|ws|] == sign[0];
    }
    SpacesIs(s, |ws|);
  }

  lemma NotSpace(c: char)
    ensures IsDigit(c) ==> c != '+' && c != '-'
    ensures IsDigit(c) || c == '+' || c == '-' ==> !IsSpace(c)
  {
  }

  lemma PrintIntIsOneToken(n: int)
    ensures var s := PrintInt(n); s != [] && !IsSpace(s[0]) && s[0] != '"'
    ensures forall j | 0 <= j < |PrintInt(n)| :: PrintInt(n)[j] == '-' || IsDigit(PrintInt(n)[j])
  {
    PrintNatParses(if n < 0 then -n else n);
  }

  // ---------------------------------------------------------------- at_get_cme_error

  const CME_ERROR_NON_CME := -1
  const CME_SUCCESS := 0
  const CME_PREFIX := "+CME ERROR:"

  /** The result for a response with this flag and final line. */
  function CmeError(success: bool, final: Option<string>, max: int): int
    requires max >= 0
  {
    if success then CME_SUCCESS
    else if final.None? || !(CME_PREFIX <= final.value) then CME_ERROR_NON_CME
    else
      var n := NextInt(Start(final.value), max);
      if n.None? then CME_ERROR_NON_CME else n.value
  }

  /** Every CME line has a colon, so `at_tok_start` cannot fail there. */
  lemma StartOfCme(t: string)
    ensures Start(CME_PREFIX + t) == Some(t)
  {
    var s := CME_PREFIX + t;
    IndexOfIs(s, ':', 10);
    assert s[11..] == t;
  }

  /** The result is a C `int`. */
  lemma CmeErrorIsInt(success: bool, final: Option<string>, max: int)
    requires max >= 0
    ensures INT_MIN <= CmeError(success, final, max) <= INT_MAX
  {
  }

  /**
   The CME round trip: the number the modem prints after the prefix, with any white space in between
   and any further parameters behind a comma, is the code returned if and only if it fits an `int`.
   */
  lemma CmeRoundTrip(n: int, pad: string, more: string, max: int)
    requires max >= INT_MAX
    requires forall j | 0 <= j < |pad| :: IsSpace(pad[j])
    ensures CmeError(false, Some(CME_PREFIX + (pad + PrintInt(n))), max) == n <==> INT_MIN <= n <= INT_MAX
    ensures CmeError(false, Some(CME_PREFIX + (pad + PrintInt(n) + "," + more)), max) == n
      <==> INT_MIN <= n <= INT_MAX
  {
    CmeErrorIsInt(false, Some(CME_PREFIX + (pad + PrintInt(n))), max);
    CmeErrorIsInt(false, Some(CME_PREFIX + (pad + PrintInt(n) + "," + more)), max);
    if INT_MIN <= n <= INT_MAX {
      CmeInRange(n, pad, more, max);
    }
  }

  /**
   A number of the range of `long` that does not fit an `int` comes out as its low 32 bits; a line with
   no number after the prefix, or without the prefix, as no CME error; a success as none at all.
   */
  lemma CmeOtherwise(n: int, t: string, final: string, max: int)
    requires max >= INT_MAX
    ensures -max - 1 <= n <= max ==>
      var code := CmeError(false, Some(CME_PREFIX + PrintInt(n)), max);
      INT_MIN <= code <= INT_MAX && (n - code) % 0x1_0000_0000 == 0
    ensures Strtol(NextTok(t).text, max).None? ==> CmeError(false, Some(CME_PREFIX + t), max) == -1
    ensures !(CME_PREFIX <= final) ==> CmeError(false, Some(final), max) == -1
    ensures CmeError(false, None, max) == -1
    ensures CmeError(true, Some(final), max) == CmeError(true, None, max) == 0
  {
    hide Strtol, NextTok, PrintInt, IndexOf, Spaces, Start;
    StartOfCme(t);
    if -max - 1 <= n <= max {
      var x := Item("", Raw(PrintInt(n)));
      PrintIntIsOneToken(n);
      assert Printable(x);
      assert PrintItem(x) == PrintInt(n);
      NextTokOfItem(x, "");
      StrtolOfPrint(n, max);
      StartOfCme(PrintInt(n));
    }
  }

  lemma CmeInRange(n: int, pad: string, more: string, max: int)
    requires INT_MIN <= n <= INT_MAX <= max
    requires forall j | 0 <= j < |pad| :: IsSpace(pad[j])
    ensures CmeError(false, Some(CME_PREFIX + (pad + PrintInt(n))), max) == n
    ensures CmeError(false, Some(CME_PREFIX + (pad + PrintInt(n) + "," + more)), max) == n
  {
    hide Strtol, NextTok, PrintInt, IndexOf, Spaces, Start;
    var x := Item(pad, Raw(PrintInt(n)));
    PrintIntIsOneToken(n);
    assert Printable(x);
    NextTokOfItem(x, more);
    StrtolOfPrint(n, max);
    StartOfCme(pad + PrintInt(n));
    StartOfCme(pad + PrintInt(n) + "," + more);
  }

  /** What the call leaves of the final line it parsed. */
  function FinalAfter(success: bool, final: string): (r: string)
    ensures r <= final
  {
    hide LeftBehind, IndexOf, NextTok, TokOffset, Spaces;
    var i := IndexOf(final, ':');
    if success || !(CME_PREFIX <= final) || i == |final| then final
    else
      assert final == final[..i + 1] + final[i + 1..];
      final[..i + 1] + LeftBehind(final[i + 1..])
  }

  /** The call writes into the line it is given as `const`, yet asking again gives the same code. */
  lemma AskedTwice(success: bool, final: string, max: int)
    requires max >= 0
    ensures CmeError(success, Some(FinalAfter(success, final)), max) == CmeError(success, Some(final), max)
  {
    hide Strtol, NextTok, LeftBehind, Spaces, IndexOf, Start;
    if !success && CME_PREFIX <= final {
      var t := final[11..];
      assert final == CME_PREFIX + t;
      StartOfCme(t);
      StartOfCme(LeftBehind(t));
      SameTokenAgain(t);
      IndexOfIs(final, ':', 10);
      assert FinalAfter(success, final) == CME_PREFIX + LeftBehind(t);
    }
  }

  /** The string at 0 after a token behind the prefix `a` was handed out. */
  lemma LeftInMemory(before: seq<char>, after: seq<char>, a: string, u: string, tok: nat)
    requires IsCString(before, 0, a + u)
    requires tok == |a| + TokOffset(u) && tok <= |before| == |after| && before[..tok] == after[..tok]
    requires IsCString(after, tok, NextTok(u).text)
    ensures IsCString(after, 0, a + LeftBehind(u))
  {
    hide NextTok, TokOffset, Spaces;
    var r := a + LeftBehind(u);
    var n := |NextTok(u).text|;
    TokenInPlace(u);
    assert LeftBehind(u) == u[..TokOffset(u)] + NextTok(u).text;
    assert before[..tok] == a + u[..TokOffset(u)];
    assert after[..tok + n] == after[..tok] + after[tok..tok + n];
    assert r == a + u[..TokOffset(u)] + NextTok(u).text;
    assert after[..tok + n] == r;
  }

  /** at_get_cme_error on a response in memory; `final` is the NUL-terminated final line. */
  method AtGetCmeError(success: bool, final: array?<char>, ghost s: string, max: int) returns (code: int)
    requires final != null ==> IsCString(final[..], 0, s)
    requires max >= 0
    modifies final
    ensures code == CmeError(success, if final == null then None else Some(s), max)
    ensures final != null ==> IsCString(final[..], 0, FinalAfter(success, s))
  {
    hide NextInt, IsCString, Start, LeftBehind, IndexOf;
    if success {
      return CME_SUCCESS;
    }
    if final == null {
      return CME_ERROR_NON_CME;
    }
    var line := ReadCString(final, 0, s);
    IsCStringHasNoNul(final[..], 0, s);
    var isCme := StrStartsWith(line, CME_PREFIX);
    if !isCme {
      return CME_ERROR_NON_CME;
    }
    ghost var u := s[11..];
    assert s == CME_PREFIX + u;
    StartOfCme(u);
    IndexOfIs(s, ':', 10);
    var n := ParseCode(final, u, max);
    return if n.None? then CME_ERROR_NON_CME else n.value;
  }

  lemma IsCStringHasNoNul(m: seq<char>, p: nat, s: string)
    requires IsCString(m, p, s)
    ensures NUL !in s
  {
  }

  /** The tokenizer part: at_tok_start, then at_tok_nextint. */
  method ParseCode(final: array<char>, ghost u: string, max: int) returns (n: Option<int>)
    requires IsCString(final[..], 0, CME_PREFIX + u) && max >= 0
    modifies final
    ensures n == NextInt(Some(u), max)
    ensures IsCString(final[..], 0, CME_PREFIX + LeftBehind(u))
  {
    hide Strtol, NextTok, TokOffset, LeftBehind, IndexOf, Start, ToInt;
    StartOfCme(u);
    var t := new Tokenizer(final, CME_PREFIX + u);
    var ok := t.TokStart();
    ghost var before := final[..];
    assert t.cur == Some(|CME_PREFIX|) by {
      assert |t.Rest().value| == |u|;
    }
    var tok := t.NextToken();
    LeftInMemory(before, final[..], CME_PREFIX, u, tok.value);
    var text := ReadCString(final, tok.value, NextTok(u).text);
    var l := Strtol(text, max);
    if l.None? {
      return None;
    }
    return Some(ToInt(l.value));
  }
}
