/**
 * The tokenisation `sscanf(buffer, "%7s %255s %255[^\n]", cmd, key, value)`.
 *
 * `sscanf` reads the buffer as a C string.  `%Ns` skips white space and
 * then takes at most N bytes that are not white space; a space in the
 * format skips any amount of white space, line feeds included;
 * `%N[^\n]` takes at most N bytes that are not a line feed and fails when
 * it cannot take one.  The call returns the number of fields filled, or
 * EOF (-1) when the string ends before the first field.  A token longer
 * than its width is not an error: the next field starts with the rest.
 * Fields the call did not fill are left as the empty string here (in C
 * they keep whatever the arrays held).
 */
module Scanner {
  import opened Bytes

  const CMD_WIDTH: nat := 7
  const KEY_WIDTH: nat := 255
  const VALUE_WIDTH: nat := 255

  /** The return value of `sscanf` and the three destination strings. */
  datatype Fields = Fields(count: int, cmd: string, key: string, value: string)

  /** What is left of `s` once its leading white space is skipped. */
  function SkipSpace(s: seq<char>): (r: seq<char>)
    ensures |r| <= |s| && r == s[|s| - |r|..]
    ensures Blank(s[..|s| - |r|])
    ensures r == [] || !IsSpace(r[0])
  {
    if s == [] || !IsSpace(s[0]) then s else SkipSpace(s[1..])
  }

  /** A `%Ns` conversion on `s` (white space already skipped): the token and what follows it. */
  function Token(s: seq<char>, width: nat): (t: (seq<char>, seq<char>))
    ensures t.0 + t.1 == s
    ensures |t.0| <= width && NoSpace(t.0)
    ensures t.1 == [] || IsSpace(t.1[0]) || |t.0| == width
  {
    if s == [] || width == 0 || IsSpace(s[0]) then ([], s)
    else
      var t := Token(s[1..], width - 1);
      var tok := [s[0]] + t.0;
      assert tok + t.1 == s by { assert tok + t.1 == [s[0]] + (t.0 + t.1); }
      assert NoSpace(tok) by {
        forall k | 0 <= k < |tok| ensures !IsSpace(tok[k]) {
          if k > 0 { assert tok[k] == t.0[k - 1]; }
        }
      }
      (tok, t.1)
  }

  /** A `%N[^\n]` conversion on `s`: the field and what follows it. */
  function LineField(s: seq<char>, width: nat): (t: (seq<char>, seq<char>))
    ensures t.0 + t.1 == s
    ensures |t.0| <= width && LF !in t.0
    ensures t.1 == [] || t.1[0] == LF || |t.0| == width
  {
    if s == [] || width == 0 || s[0] == LF then ([], s)
    else
      var t := LineField(s[1..], width - 1);
      var field := [s[0]] + t.0;
      assert field + t.1 == s by { assert field + t.1 == [s[0]] + (t.0 + t.1); }
      (field, t.1)
  }

  /**
   * `sscanf(buffer, "%7s %255s %255[^\n]", cmd, key, value)`: the
   * conversions run on the C string in the buffer, so bytes after the first
   * NUL are never seen.
   */
  function Scan(buffer: seq<char>): (f: Fields)
    ensures f.count == -1 <==> Blank(CString(buffer))
    ensures NUL !in buffer ==> f == Tokenise(buffer)
  {
    assert NUL !in buffer ==> CString(buffer) == buffer by {
      if NUL !in buffer { CStringOfPlain(buffer); }
    }
    Tokenise(CString(buffer))
  }

  /** Whatever follows a NUL in the buffer never reaches the fields. */
  lemma {:induction false} ScanStopsAtNul(a: seq<char>, rest: seq<char>)
    ensures Scan(a + [NUL] + rest) == Scan(a)
  {
    CStringCut(a, rest);
  }

  /**
   * A key that ends the C string, because the client sent a NUL right
   * after it, still makes two fields, whatever follows the NUL.
   */
  lemma {:induction false} KeyBeforeNul(cmd: string, key: string, rest: seq<char>)
    requires ValidCmd(cmd) && ValidKey(key)
    ensures Scan(cmd + " " + key + [NUL] + rest) == Fields(2, cmd, key, [])
  {
    ScanStopsAtNul(cmd + " " + key, rest);
    KeyEndsString(cmd, key);
  }

  /** A short key may end the string: `sscanf` still fills two fields. */
  lemma {:induction false} KeyEndsString(cmd: string, key: string)
    requires ValidCmd(cmd) && ValidKey(key)
    ensures Scan(cmd + " " + key) == Fields(2, cmd, key, [])
  {
    var line := cmd + " " + key;
    assert key + [] == key;
    assert cmd + (" " + key) == line;
    assert [] + line == line;
    ScanTwo([], cmd, " ", key, []);
  }

  /**
   * The three conversions on a C string `s`.  Whatever the string: the
   * count is EOF, 1, 2 or 3 and it is EOF exactly when the string is all
   * white space; a field is non-empty exactly when the count says it was
   * filled; `cmd` and `key` hold at most 7 and 255 bytes and no white space;
   * `value` holds at most 255 bytes, no line feed, and does not start with
   * white space; no field holds a NUL.
   */
  function Tokenise(s: seq<char>): (f: Fields)
    requires NUL !in s
    ensures f.count == -1 || f.count == 1 || f.count == 2 || f.count == 3
    ensures f.count == -1 <==> Blank(s)
    ensures f.cmd != [] <==> f.count >= 1
    ensures f.key != [] <==> f.count >= 2
    ensures f.value != [] <==> f.count == 3
    ensures |f.cmd| <= CMD_WIDTH && NoSpace(f.cmd) && NUL !in f.cmd
    ensures |f.key| <= KEY_WIDTH && NoSpace(f.key) && NUL !in f.key
    ensures |f.value| <= VALUE_WIDTH && LF !in f.value && NUL !in f.value
    ensures f.value != [] ==> !IsSpace(f.value[0])
  {
    var r1 := SkipSpace(s);
    if r1 == [] then
      Fields(-1, [], [], [])
    else
      assert !Blank(s) by { assert s[|s| - |r1|] == r1[0]; }
      assert NUL !in r1 by { assert r1 == s[|s| - |r1|..]; }
      var (cmd, r2) := Token(r1, CMD_WIDTH);
      var r3 := SkipSpace(r2);
      if r3 == [] then
        Fields(1, cmd, [], [])
      else
        assert NUL !in r3 by { assert r3 == r2[|r2| - |r3|..]; }
        var (key, r4) := Token(r3, KEY_WIDTH);
        var r5 := SkipSpace(r4);
        if r5 == [] then
          Fields(2, cmd, key, [])
        else
          assert NUL !in r5 by { assert r5 == r4[|r4| - |r5|..]; }
          Fields(3, cmd, key, LineField(r5, VALUE_WIDTH).0)
  }

  /** A command word the server can receive whole. */
  predicate ValidCmd(cmd: string) {
    0 < |cmd| <= CMD_WIDTH && NoSpace(cmd) && NUL !in cmd
  }

  /** A key that survives `%255s` unchanged. */
  predicate ValidKey(key: string) {
    0 < |key| <= KEY_WIDTH && NoSpace(key) && NUL !in key
  }

  /** A value that survives ` %255[^\n]` unchanged. */
  predicate ValidValue(value: string) {
    0 < |value| <= VALUE_WIDTH && !IsSpace(value[0]) && LF !in value && NUL !in value
  }

  lemma {:induction false} SkipSpaceOver(w: seq<char>, r: seq<char>)
    requires Blank(w) && (r == [] || !IsSpace(r[0]))
    ensures SkipSpace(w + r) == r
  {
    if w != [] {
      assert (w + r)[1..] == w[1..] + r;
      SkipSpaceOver(w[1..], r);
    }
  }

  lemma {:induction false} TokenOver(tok: seq<char>, r: seq<char>, width: nat)
    requires NoSpace(tok) && |tok| <= width
    requires r == [] || IsSpace(r[0]) || |tok| == width
    ensures Token(tok + r, width) == (tok, r)
  {
    if tok != [] {
      assert (tok + r)[0] == tok[0] && (tok + r)[1..] == tok[1..] + r;
      assert !IsSpace(tok[0]);
      TokenOver(tok[1..], r, width - 1);
      assert [tok[0]] + tok[1..] == tok;
    } else {
      assert tok + r == r;
    }
  }

  lemma {:induction false} LineFieldOver(v: seq<char>, r: seq<char>, width: nat)
    requires LF !in v && |v| <= width
    requires r == [] || r[0] == LF || |v| == width
    ensures LineField(v + r, width) == (v, r)
  {
    if v != [] {
      assert (v + r)[0] == v[0] && (v + r)[1..] == v[1..] + r;
      assert v[0] != LF;
      LineFieldOver(v[1..], r, width - 1);
      assert [v[0]] + v[1..] == v;
    } else {
      assert v + r == r;
    }
  }

  /**
   * A line made of white space, a command, white space, a key, white space
   * and a value, ended by a line feed or by the end of the string, is read
   * back as exactly those three fields.  The separator after the command
   * (after the key) may be empty only when the command (the key) fills its
   * whole width: the next field then starts right after it.
   */
  lemma {:induction false} ScanThree(w1: string, cmd: string, w2: string, key: string, w3: string, value: string, tail: string)
    requires Blank(w1) && Blank(w2) && Blank(w3)
    requires ValidCmd(cmd) && (w2 != [] || |cmd| == CMD_WIDTH)
    requires ValidKey(key) && (w3 != [] || |key| == KEY_WIDTH)
    requires ValidValue(value)
    requires tail == [] || tail[0] == LF || |value| == VALUE_WIDTH
    requires NUL !in w1 && NUL !in w2 && NUL !in w3 && NUL !in tail
    ensures Scan(w1 + (cmd + (w2 + (key + (w3 + (value + tail)))))) == Fields(3, cmd, key, value)
  {
    var r5 := value + tail;
    var r4 := w3 + r5;
    var r3 := key + r4;
    var r2 := w2 + r3;
    var r1 := cmd + r2;
    var s := w1 + r1;
    CStringOfPlain(s);
    SkipSpaceOver(w1, r1);
    TokenOver(cmd, r2, CMD_WIDTH);
    SkipSpaceOver(w2, r3);
    TokenOver(key, r4, KEY_WIDTH);
    SkipSpaceOver(w3, r5);
    LineFieldOver(value, tail, VALUE_WIDTH);
  }

  /**
   * A line with a command and a key followed only by white space, or by
   * nothing when the string ends there, gives two fields: the value is
   * filled only when something that is not white space follows the key.
   */
  lemma {:induction false} ScanTwo(w1: string, cmd: string, w2: string, key: string, w3: string)
    requires Blank(w1) && Blank(w2) && Blank(w3)
    requires ValidCmd(cmd) && (w2 != [] || |cmd| == CMD_WIDTH)
    requires ValidKey(key)
    requires NUL !in w1 && NUL !in w2 && NUL !in w3
    ensures Scan(w1 + (cmd + (w2 + (key + w3)))) == Fields(2, cmd, key, [])
  {
    var r3 := key + w3;
    var r2 := w2 + r3;
    var r1 := cmd + r2;
    var s := w1 + r1;
    CStringOfPlain(s);
    SkipSpaceOver(w1, r1);
    TokenOver(cmd, r2, CMD_WIDTH);
    SkipSpaceOver(w2, r3);
    TokenOver(key, w3, KEY_WIDTH);
    SkipSpaceOver(w3, []);
    assert w3 + [] == w3;
  }

  /** A line with a command followed only by white space gives one field. */
  lemma {:induction false} ScanOne(w1: string, cmd: string, w2: string)
    requires Blank(w1) && Blank(w2)
    requires ValidCmd(cmd)
    requires NUL !in w1 && NUL !in w2
    ensures Scan(w1 + (cmd + w2)) == Fields(1, cmd, [], [])
  {
    var r1 := cmd + w2;
    var s := w1 + r1;
    CStringOfPlain(s);
    SkipSpaceOver(w1, r1);
    TokenOver(cmd, w2, CMD_WIDTH);
    SkipSpaceOver(w2, []);
    assert w2 + [] == w2;
  }

  /** A command word of more than seven bytes spills into the key. */
  lemma {:induction false} CmdSpillsIntoKey()
    ensures Scan("SETTINGS k v\n") == Fields(3, "SETTING", "S", "k v")
  {
    assert "SETTINGS k v\n" == [] + ("SETTING" + ([] + ("S" + (" " + ("k v" + "\n")))));
    ScanThree([], "SETTING", [], "S", " ", "k v", "\n");
  }
}
