/**
 * Byte-level vocabulary shared by the server model: C strings, the C-locale
 * `isspace` class and a small Option type.  One Dafny `char` stands for one
 * byte of the wire or of a file.
 */
module Bytes {

  datatype Option<+T> = None | Some(value: T)

  const NUL: char := '\0'
  const LF: char := '\n'

  /** `isspace` in the C locale: space, \t, \n, \v, \f and \r. */
  predicate IsSpace(c: char) {
    c == ' ' || c == '\t' || c == '\n' || c == '\U{000B}' || c == '\U{000C}' || c == '\r'
  }

  /** Every byte of `s` is white space (also true of the empty string). */
  predicate Blank(s: seq<char>) {
    forall k :: 0 <= k < |s| ==> IsSpace(s[k])
  }

  /** No byte of `s` is white space. */
  predicate NoSpace(s: seq<char>) {
    forall k :: 0 <= k < |s| ==> !IsSpace(s[k])
  }

  function Min(a: int, b: int): int {
    if a <= b then a else b
  }

  /** The first `n` bytes of `s`, or all of `s` when it is shorter. */
  function Take(s: seq<char>, n: nat): (r: seq<char>)
    ensures |r| == Min(n, |s|) && r <= s
  {
    s[..Min(n, |s|)]
  }

  /**
   * What a C routine sees of a buffer that it reads as a NUL-terminated
   * string: the bytes before the first NUL, or the whole buffer when there
   * is none (the string then ends where the buffer does).
   */
  function CString(s: seq<char>): (r: seq<char>)
    ensures r <= s
    ensures NUL !in r
    ensures |r| < |s| ==> s[|r|] == NUL
  {
    if s == [] || s[0] == NUL then [] else [s[0]] + CString(s[1..])
  }

  /** A string without NUL is its own C string. */
  lemma {:induction false} CStringOfPlain(s: seq<char>)
    requires NUL !in s
    ensures CString(s) == s
  {
    if s != [] {
      CStringOfPlain(s[1..]);
    }
  }

  /** A NUL ends the C string: nothing after it is seen. */
  lemma {:induction false} CStringCut(s: seq<char>, rest: seq<char>)
    ensures CString(s + [NUL] + rest) == CString(s)
  {
    if s != [] {
      assert (s + [NUL] + rest)[1..] == s[1..] + [NUL] + rest;
      CStringCut(s[1..], rest);
    }
  }

  /** Writing a terminator after a buffer does not change the C string it holds. */
  lemma {:induction false} CStringTerminated(s: seq<char>)
    ensures CString(s + [NUL]) == CString(s)
  {
    if s != [] {
      assert (s + [NUL])[1..] == s[1..] + [NUL];
      CStringTerminated(s[1..]);
    }
  }
}
