/** C strings in memory and the few libc string routines the AT code relies on. */
module CStrings {

  datatype Option<+T> = None | Some(value: T)

  const NUL: char := '\0'

  /** `m` holds, from index `p` on, the NUL-terminated string `s`. */
  ghost predicate IsCString(m: seq<char>, p: nat, s: string) {
    p + |s| < |m| && m[p..p + |s|] == s && m[p + |s|] == NUL && NUL !in s
  }

  /** The string a `char *` points at. */
  method ReadCString(m: array<char>, p: nat, ghost s: string) returns (r: string)
    requires IsCString(m[..], p, s)
    ensures r == s
  {
    r := [];
    while m[p + |r|] != NUL
      invariant |r| <= |s| && r == s[..|r|]
      decreases |s| - |r|
    {
      var c := m[p + |r|];
      assert |r| < |s| ==> c == m[..][p..p + |s|][|r|];
      r := r + [c];
    }
  }

  /** The index of the first `c` in `s`, or `|s|` when there is none (strchr, strsep). */
  function IndexOf(s: string, c: char): (i: nat)
    ensures i <= |s| && (i < |s| ==> s[i] == c)
    ensures forall j | 0 <= j < i :: s[j] != c
  {
    if s == [] || s[0] == c then 0 else 1 + IndexOf(s[1..], c)
  }

  /** `IndexOf` is the only index with its two properties. */
  lemma IndexOfIs(s: string, c: char, k: nat)
    requires k <= |s| && (k < |s| ==> s[k] == c)
    requires forall j | 0 <= j < k :: s[j] != c
    ensures IndexOf(s, c) == k
  {
  }

  /** `isspace` in the "C" locale: space, tab, newline, vertical tab, form feed, return. */
  predicate IsSpace(c: char) {
    c == ' ' || '\t' <= c <= '\r'
  }

  predicate IsDigit(c: char) {
    '0' <= c <= '9'
  }

  /** How much white space `s` starts with. */
  function Spaces(s: string): (n: nat)
    ensures n <= |s| && (n < |s| ==> !IsSpace(s[n]))
    ensures forall j | 0 <= j < n :: IsSpace(s[j])
  {
    if s == [] || !IsSpace(s[0]) then 0 else 1 + Spaces(s[1..])
  }

  /** `Spaces` is the only count with its two properties. */
  lemma SpacesIs(s: string, k: nat)
    requires k <= |s| && (k < |s| ==> !IsSpace(s[k]))
    requires forall j | 0 <= j < k :: IsSpace(s[j])
    ensures Spaces(s) == k
  {
  }
}
