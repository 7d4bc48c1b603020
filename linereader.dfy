/**
 * The request reader: bytes are received one at a time into a buffer of
 * BUFSIZE + 1 bytes until a line feed (kept), until BUFSIZE bytes are in,
 * or until a `recv` fails; then the buffer is NUL-terminated.
 *
 * The client is an oracle: `input` holds the bytes it delivers before the
 * connection fails or is closed.  The `recv` that asks for byte number
 * `|input|` returns 0.
 */
module LineReader {
  import opened Bytes

  const BUFSIZE: nat := 512

  /** Index of the first `x` in `s`, or `|s|` when there is none. */
  function IndexOf(s: seq<char>, x: char): (i: nat)
    ensures i <= |s|
    ensures x !in s[..i]
    ensures i < |s| ==> s[i] == x
  {
    if s == [] || s[0] == x then 0 else 1 + IndexOf(s[1..], x)
  }

  /**
   * The line the server goes on to parse: the first BUFSIZE bytes of the
   * input cut just after the first line feed, or nothing when the input
   * runs out first.  Stated as a whole: the line is a prefix of the input
   * of at most BUFSIZE bytes, it holds no line feed except possibly as its
   * last byte, it ends with a line feed or is exactly BUFSIZE bytes long,
   * and the connection is dropped exactly when fewer than BUFSIZE bytes
   * arrive and none is a line feed.
   */
  function Framed(input: seq<char>): (line: Option<seq<char>>)
    ensures line.None? <==> |input| < BUFSIZE && LF !in input
    ensures line.Some? ==>
              && 0 < |line.value| <= BUFSIZE
              && line.value <= input
              && LF !in line.value[..|line.value| - 1]
              && (line.value[|line.value| - 1] == LF || |line.value| == BUFSIZE)
  {
    var window := Take(input, BUFSIZE);
    var i := IndexOf(window, LF);
    if i < |window| then
      assert window[..i + 1][..i] == window[..i];
      Some(window[..i + 1])
    else if |window| == BUFSIZE then
      Some(window)
    else
      assert window == input;
      None
  }

  /**
   * The reading loop of `main`, on a buffer of BUFSIZE + 1 bytes.  When the
   * connection is dropped there is no line; otherwise the result is the
   * contents of the buffer up to and including the NUL terminator, which is
   * written at index `total` <= BUFSIZE and so always inside the buffer.
   */
  method ReadLine(input: seq<char>) returns (cstr: Option<seq<char>>)
    ensures Framed(input).None? ==> cstr.None?
    ensures Framed(input).Some? ==> cstr == Some(Framed(input).value + [NUL])
  {
    var buffer := new char[BUFSIZE + 1];
    var n: int, total: nat := 0, 0;
    while total < BUFSIZE
      invariant total <= BUFSIZE && total <= |input|
      invariant buffer[..total] == input[..total]
      invariant LF !in input[..total]
      invariant total > 0 ==> n == 1
    {
      // recv(clientfd, buffer + total, 1, 0)
      n := if total < |input| then 1 else 0;
      if n <= 0 {
        break;
      }
      buffer[total] := input[total];
      if buffer[total] == LF {
        total := total + 1;
        break;
      }
      total := total + 1;
    }
    if n <= 0 {
      assert input[..total] == input;
      return None;
    }
    buffer[total] := NUL;
    assert buffer[..total + 1] == input[..total] + [NUL];
    cstr := Some(buffer[..total + 1]);
    ghost var window := Take(input, BUFSIZE);
    assert window[..total] == input[..total];
    if input[total - 1] != LF {
      assert total == BUFSIZE && window == input[..total];
    }
  }
}
