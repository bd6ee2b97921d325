/** ril-telephone/misc.c: the prefix test every line classifier is built on. */
module Misc {
  import opened CStrings

  /** The character at `i`, the terminator included. */
  function CharAt(s: string, i: nat): char
    requires i <= |s|
  {
    if i < |s| then s[i] else NUL
  }

  method StrStartsWith(line: string, prefix: string) returns (r: bool)
    requires NUL !in line && NUL !in prefix
    ensures r <==> prefix <= line
  {
    var i := 0;
    while CharAt(line, i) != NUL && CharAt(prefix, i) != NUL
      invariant i <= |line| && i <= |prefix|
      invariant line[..i] == prefix[..i]
      decreases |line| - i
    {
      if CharAt(line, i) != CharAt(prefix, i) {
        return false;
      }
      i := i + 1;
    }
    return CharAt(prefix, i) == NUL;
  }
}
