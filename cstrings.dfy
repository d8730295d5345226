/** Fixed-size character buffers and the C-string conventions used to move paths
    and keys through them: `strcpy` into a buffer, `std::string(buf)` out of it. */
module CStrings {

  const NUL: char := 0 as char

  predicate NulFree(s: string)
  {
    forall i :: 0 <= i < |s| ==> s[i] != NUL
  }

  /** The buffer `char buf[width]` after `strcpy(buf, s.c_str())`: the characters of `s`,
      the terminating NUL, and the rest of the buffer (modelled as NUL). `strcpy` demands
      that `s` and its terminator fit. */
  function StrcpyInto(s: string, width: nat): (buf: seq<char>)
    requires |s| < width
    ensures |buf| == width && buf[..|s|] == s && buf[|s|] == NUL
  {
    s + [NUL] + seq(width - |s| - 1, _ => NUL)
  }

  /** `std::string(buf)`: the characters before the first NUL of the buffer. */
  function CStr(buf: seq<char>): (s: string)
    ensures |s| <= |buf| && buf[..|s|] == s && NulFree(s)
    ensures |s| < |buf| ==> buf[|s|] == NUL
  {
    if buf == [] || buf[0] == NUL then [] else [buf[0]] + CStr(buf[1..])
  }

  /** The only NUL-free prefix of a buffer that ends at a NUL or at the buffer's end. */
  lemma {:induction false} CStrUnique(buf: seq<char>, s: string)
    requires |s| <= |buf| && buf[..|s|] == s && NulFree(s)
    requires |s| < |buf| ==> buf[|s|] == NUL
    ensures CStr(buf) == s
  {
    if s != [] {
      assert buf[0] == s[0] != NUL;
      assert buf[1..][..|s| - 1] == s[1..];
      CStrUnique(buf[1..], s[1..]);
    }
  }

  /** A path or key copied into a buffer large enough for it and read back with
      `std::string(buf)` is unchanged. */
  lemma StrcpyRoundTrip(s: string, width: nat)
    requires |s| < width && NulFree(s)
    ensures CStr(StrcpyInto(s, width)) == s
  {
    CStrUnique(StrcpyInto(s, width), s);
  }
}
