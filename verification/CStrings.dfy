/** C strings in buffers: what a reader that stops at the first zero byte sees. */
module CStrings {
  import opened Wrappers

  const NUL: char := '\0'

  /** Everything before the first zero byte, or the whole buffer if it holds none. */
  function CString(buf: seq<char>): (s: string)
    ensures |s| <= |buf| && s == buf[..|s|] && NUL !in s
    ensures |s| < |buf| ==> buf[|s|] == NUL
  {
    if buf == [] || buf[0] == NUL then [] else [buf[0]] + CString(buf[1..])
  }

  /** What strlen, strcmp or printf find in a buffer: nothing sensible when no zero byte
      stops them inside it. */
  function ReadBack(buf: seq<char>): Option<string> {
    if NUL in buf then Some(CString(buf)) else None
  }

  /** A string and its terminator at the front of a buffer are read back as that string. */
  lemma {:induction false} CStringOfPrefix(str: string, rest: seq<char>)
    requires NUL !in str && (rest == [] || rest[0] == NUL)
    ensures CString(str + rest) == str
  {
    assert forall k :: 0 <= k < |str| ==> (str + rest)[k] == str[k];
    assert rest != [] ==> (str + rest)[|str|] == rest[0];
    assert CString(str + rest) == (str + rest)[..|CString(str + rest)|];
  }
}
