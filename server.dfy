/**
 * One pass of the accept loop of `main`: read a line from the client,
 * tokenise it, run the command against the store and send the answer.
 * Sockets, the listening set-up and the loop itself are not modelled; the
 * client, the kernel and the file system are the oracles of the modules
 * this one imports.
 */
module Server {
  import opened Bytes
  import opened Sending
  import opened LineReader
  import opened Scanner
  import opened Commands

  /**
   * What one connection does to the store and what it answers, or nothing
   * when the client's bytes run out before a line is complete.  Whatever
   * the input: the connection is dropped exactly when fewer than BUFSIZE
   * bytes arrive and none of them is a line feed, and a dropped connection
   * leaves the store alone because there is no reply at all.
   */
  function Request(input: seq<char>, store: Store, openFails: bool): (r: Option<Reply>)
    ensures r.None? <==> |input| < BUFSIZE && LF !in input
  {
    match Framed(input)
    case None => None
    case Some(line) => Some(Dispatch(Scan(line), store, openFails))
  }

  /**
   * One request served from start to finish.  When the read fails the
   * client gets nothing and the store is unchanged; otherwise the store is
   * the one the command leaves and the client receives, message by message,
   * what `sendall` gets through for each buffer the server sends.
   */
  method Serve(input: seq<char>, store: Store, openFails: bool, script: seq<int>)
    returns (newStore: Store, wire: seq<char>, rest: seq<int>)
    ensures Request(input, store, openFails).None? ==> newStore == store && wire == [] && rest == script
    ensures Request(input, store, openFails).Some? ==>
              && newStore == Request(input, store, openFails).value.store
              && Delivery(wire, rest)
                 == Deliver(Messages(Request(input, store, openFails).value.response), script)
  {
    var cstr := ReadLine(input);
    if cstr.None? {
      return store, [], script;
    }
    ghost var line := Framed(input).value;
    CStringTerminated(line);
    var fields := Scan(cstr.value);
    var reply := Dispatch(fields, store, openFails);
    newStore := reply.store;
    wire, rest := Respond(reply.response, script);
  }

  /**
   * The `sendall` calls that answer a request: one for a status line, three
   * for a value (`OK\n`, the value, `\n`), each made whatever the previous
   * one returned.
   */
  method Respond(response: Response, script: seq<int>) returns (wire: seq<char>, rest: seq<int>)
    ensures Delivery(wire, rest) == Deliver(Messages(response), script)
  {
    var msgs := Messages(response);
    if response.Found? {
      var r1, d1, c1, s1 := SendAll(msgs[0], |msgs[0]|, script);
      var r2, d2, c2, s2 := SendAll(msgs[1], |msgs[1]|, s1);
      var r3, d3, c3, s3 := SendAll(msgs[2], |msgs[2]|, s2);
      wire, rest := d1 + (d2 + d3), s3;
      DeliverThree(msgs[0], msgs[1], msgs[2], script);
      assert msgs == [msgs[0], msgs[1], msgs[2]];
    } else {
      var r1, d1, c1, s1 := SendAll(msgs[0], |msgs[0]|, script);
      wire, rest := d1, s1;
      DeliverOne(msgs[0], script);
      assert msgs == [msgs[0]];
    }
  }

  lemma {:induction false} DeliverOne(a: seq<char>, script: seq<int>)
    ensures var t := Transmit(a[..|a|], 0, script);
      Deliver([a], script) == Delivery(t.delivered, t.rest)
  {
    assert a[..|a|] == a;
    assert [a][1..] == [];
    var t := Transmit(a, 0, script);
    assert t.delivered + [] == t.delivered;
  }

  lemma {:induction false} DeliverThree(a: seq<char>, b: seq<char>, c: seq<char>, script: seq<int>)
    ensures var ta := Transmit(a[..|a|], 0, script);
      var tb := Transmit(b[..|b|], 0, ta.rest);
      var tc := Transmit(c[..|c|], 0, tb.rest);
      Deliver([a, b, c], script) == Delivery(ta.delivered + (tb.delivered + tc.delivered), tc.rest)
  {
    assert a[..|a|] == a && b[..|b|] == b && c[..|c|] == c;
    assert [a, b, c][1..] == [b, c] && [b, c][1..] == [c];
    var ta := Transmit(a, 0, script);
    var tb := Transmit(b, 0, ta.rest);
    DeliverOne(c, tb.rest);
  }

  /** A complete line of at most BUFSIZE bytes is read as it is, whatever follows it. */
  lemma {:induction false} FramedWhole(line: seq<char>, more: seq<char>)
    requires 0 < |line| <= BUFSIZE
    requires line[|line| - 1] == LF && LF !in line[..|line| - 1]
    ensures Framed(line + more) == Some(line)
  {
    var input := line + more;
    var l := Framed(input).value;
    assert l == input[..|l|];
    assert input[..|line|] == line;
    assert input[|line| - 1] == LF;
  }

  /** Without a line feed in its first BUFSIZE bytes, the line is those bytes. */
  lemma {:induction false} FramedCut(input: seq<char>)
    requires |input| >= BUFSIZE && LF !in input[..BUFSIZE]
    ensures Framed(input) == Some(input[..BUFSIZE])
  {
  }

  /** The request line of SET K V. */
  function SetLine(key: string, value: string): string {
    "SET " + key + " " + value + "\n"
  }

  /** The request line of GET K. */
  function GetLine(key: string): string {
    "GET " + key + "\n"
  }

  /** The request line of DEL K. */
  function DelLine(key: string): string {
    "DEL " + key + "\n"
  }

  /** A line of a command and a key is read whole and scanned as those two fields. */
  lemma {:induction false} TwoFieldLine(cmd: string, key: string)
    requires ValidCmd(cmd) && ValidKey(key)
    ensures var line := cmd + " " + key + "\n";
      Framed(line) == Some(line) && Scan(line) == Fields(2, cmd, key, [])
  {
    var line := cmd + " " + key + "\n";
    assert LF !in cmd && LF !in key;
    assert LF !in cmd + " " + key;
    LineFramed(cmd + " " + key);
    assert line == [] + (cmd + (" " + (key + "\n")));
    ScanTwo([], cmd, " ", key, "\n");
  }

  /** A line of a command, a key and a value that fits in one read is read whole and scanned as those three fields. */
  lemma {:induction false} ThreeFieldLine(cmd: string, key: string, value: string)
    requires ValidCmd(cmd) && ValidKey(key) && ValidValue(value)
    requires |cmd| + |key| + |value| + 3 <= BUFSIZE
    ensures var line := cmd + " " + key + " " + value + "\n";
      Framed(line) == Some(line) && Scan(line) == Fields(3, cmd, key, value)
  {
    var line := cmd + " " + key + " " + value + "\n";
    LineFramed(cmd + " " + key + " " + value);
    assert line == [] + (cmd + (" " + (key + (" " + (value + "\n")))));
    ScanThree([], cmd, " ", key, " ", value, "\n");
  }

  /** A line feed after fewer than BUFSIZE bytes without one ends the line. */
  lemma {:induction false} LineFramed(body: string)
    requires |body| < BUFSIZE && LF !in body
    ensures Framed(body + "\n") == Some(body + "\n")
  {
    var line := body + "\n";
    assert line[..|line| - 1] == body;
    FramedWhole(line, []);
    assert line + [] == line;
  }

  /** A SET line that fits in one read reaches dispatch as its three fields. */
  lemma {:induction false} SetLineWhole(key: string, value: string, store: Store, openFails: bool)
    requires ValidKey(key) && ValidValue(value)
    requires 6 + |key| + |value| <= BUFSIZE
    ensures Request(SetLine(key, value), store, openFails)
         == Some(Dispatch(Fields(3, "SET", key, value), store, openFails))
  {
    assert SetLine(key, value) == "SET" + " " + key + " " + value + "\n";
    assert ValidCmd("SET");
    ThreeFieldLine("SET", key, value);
  }

  /**
   * A SET line longer than one read reaches dispatch with its value cut
   * after BUFSIZE - 5 - |K| bytes, and the line feed is lost.
   */
  lemma {:induction false} SetLineCut(key: string, value: string, store: Store, openFails: bool)
    requires ValidKey(key) && ValidValue(value)
    requires 5 + |key| + |value| >= BUFSIZE
    ensures BUFSIZE - 5 - |key| <= |value|
    ensures Request(SetLine(key, value), store, openFails)
         == Some(Dispatch(Fields(3, "SET", key, value[..BUFSIZE - 5 - |key|]), store, openFails))
  {
    var line := SetLine(key, value);
    var cut := value[..BUFSIZE - 5 - |key|];
    var body := "SET " + key + " " + cut;
    assert line == body + value[|cut|..] + "\n";
    assert line[..BUFSIZE] == body;
    assert LF !in key && LF !in cut;
    assert LF !in body;
    FramedCut(line);
    assert body == [] + ("SET" + (" " + (key + (" " + (cut + [])))));
    ScanThree([], "SET", " ", key, " ", cut, []);
  }

  /**
   * SET K V over the wire answers OK and stores V, for every key and value
   * a client can send in one read (the line may have 513 bytes: only its
   * line feed is then lost).
   */
  lemma {:induction false} SetOnWire(key: string, value: string, store: Store)
    requires ValidKey(key) && ValidValue(value)
    requires 5 + |key| + |value| <= BUFSIZE
    ensures Request(SetLine(key, value), store, false) == Some(Reply(Ok, store[key := value]))
  {
    if 6 + |key| + |value| <= BUFSIZE {
      SetLineWhole(key, value, store, false);
    } else {
      SetLineCut(key, value, store, false);
      assert value[..BUFSIZE - 5 - |key|] == value;
    }
    SetStores(key, value, store);
  }

  /**
   * Beyond one read, SET stores a truncated value and still answers OK:
   * only the first BUFSIZE - 5 - |K| bytes of V reach the store.
   */
  lemma {:induction false} SetTruncatesOnWire(key: string, value: string, store: Store)
    requires ValidKey(key) && ValidValue(value)
    requires 5 + |key| + |value| > BUFSIZE
    ensures BUFSIZE - 5 - |key| < |value|
    ensures Request(SetLine(key, value), store, false)
         == Some(Reply(Ok, store[key := value[..BUFSIZE - 5 - |key|]]))
  {
    SetLineCut(key, value, store, false);
    SetStores(key, value[..BUFSIZE - 5 - |key|], store);
  }

  /** Blanks before the value are skipped by the scan, however many there are. */
  lemma {:induction false} GapLine(key: string, w: string, value: string)
    requires ValidKey(key) && ValidValue(value)
    requires Blank(w) && NUL !in w && LF !in w
    requires 6 + |key| + |w| + |value| <= BUFSIZE
    ensures var line := "SET " + key + " " + w + value + "\n";
      Framed(line) == Some(line) && Scan(line) == Fields(3, "SET", key, value)
  {
    var line := "SET " + key + " " + w + value + "\n";
    var gap := " " + w;
    assert Blank(gap) by {
      forall k | 0 <= k < |gap| ensures IsSpace(gap[k]) {
        if k > 0 { assert gap[k] == w[k - 1]; }
      }
    }
    assert LF !in key;
    LineFramed("SET " + key + " " + w + value);
    assert line == [] + ("SET" + (" " + (key + (gap + (value + "\n")))));
    ScanThree([], "SET", " ", key, gap, value, "\n");
  }

  /**
   * White space between the key and the value is not part of the value:
   * SET K followed by blanks and V stores V, so a value that starts with
   * white space does not come back as it was sent.
   */
  lemma {:induction false} LeadingBlankDropped(key: string, w: string, value: string, store: Store)
    requires ValidKey(key) && ValidValue(value)
    requires Blank(w) && NUL !in w && LF !in w
    requires 6 + |key| + |w| + |value| <= BUFSIZE
    ensures Request("SET " + key + " " + w + value + "\n", store, false) == Some(Reply(Ok, store[key := value]))
  {
    GapLine(key, w, value);
    SetStores(key, value, store);
  }

  /**
   * A client that ends its line with CR LF stores the carriage return as the
   * last byte of the value, and GET K gives it back.
   */
  lemma {:induction false} CarriageReturnKept(key: string, value: string, store: Store)
    requires ValidKey(key) && ValidValue(value) && |value| < VALUE_WIDTH
    requires 6 + |key| + |value| <= BUFSIZE
    ensures Request("SET " + key + " " + value + "\r\n", store, false)
         == Some(Reply(Ok, store[key := value + "\r"]))
    ensures Request(GetLine(key), store[key := value + "\r"], false)
         == Some(Reply(Found(value + "\r"), store[key := value + "\r"]))
  {
    var v := value + "\r";
    assert v[0] == value[0];
    assert LF !in v && NUL !in v;
    assert SetLine(key, v) == "SET " + key + " " + value + "\r\n";
    SetThenGetOnWire(key, v, store, false);
  }

  /** GET K over the wire: NOTFOUND without a file, else the file as `Readback` gives it. */
  lemma {:induction false} GetOnWire(key: string, store: Store, openFails: bool)
    requires ValidKey(key)
    ensures key !in store ==> Request(GetLine(key), store, openFails) == Some(Reply(NotFound, store))
    ensures key in store ==>
      Request(GetLine(key), store, openFails) == Some(Reply(Found(Readback(store[key])), store))
  {
    assert GetLine(key) == "GET" + " " + key + "\n";
    TwoFieldLine("GET", key);
    GetAnswers(key, store, openFails);
  }

  /** DEL K over the wire answers OK and leaves no file for K. */
  lemma {:induction false} DelOnWire(key: string, store: Store, openFails: bool)
    requires ValidKey(key)
    ensures Request(DelLine(key), store, openFails) == Some(Reply(Ok, store - {key}))
  {
    assert DelLine(key) == "DEL" + " " + key + "\n";
    TwoFieldLine("DEL", key);
    DelRemoves(key, store, openFails);
  }

  /** SET K V then GET K over the wire answers `OK\nV\n`. */
  lemma {:induction false} SetThenGetOnWire(key: string, value: string, store: Store, openFails: bool)
    requires ValidKey(key) && ValidValue(value)
    requires 5 + |key| + |value| <= BUFSIZE
    ensures Request(SetLine(key, value), store, false) == Some(Reply(Ok, store[key := value]))
    ensures Request(GetLine(key), store[key := value], openFails)
         == Some(Reply(Found(value), store[key := value]))
  {
    SetOnWire(key, value, store);
    GetOnWire(key, store[key := value], openFails);
    assert Readback(value) == value;
  }

  /**
   * A second SET over the wire replaces the first value entirely: after
   * SET K V1, SET K V2 answers OK and leaves the store that SET K V2 alone
   * would leave, and GET K then answers V2.
   */
  lemma {:induction false} OverwriteOnWire(key: string, v1: string, v2: string, store: Store, openFails: bool)
    requires ValidKey(key) && ValidValue(v2)
    requires 5 + |key| + |v2| <= BUFSIZE
    ensures var s1 := store[key := v1];
      && Request(SetLine(key, v2), s1, false) == Some(Reply(Ok, s1[key := v2]))
      && s1[key := v2] == store[key := v2]
      && Request(GetLine(key), s1[key := v2], openFails) == Some(Reply(Found(v2), s1[key := v2]))
  {
    SetThenGetOnWire(key, v2, store[key := v1], openFails);
    SetOverwrites(key, v1, v2, store);
  }

  /** DEL K over the wire answers OK, and a following GET K answers NOTFOUND. */
  lemma {:induction false} DelThenGetOnWire(key: string, store: Store, openFails: bool)
    requires ValidKey(key)
    ensures Request(DelLine(key), store, openFails) == Some(Reply(Ok, store - {key}))
    ensures Request(GetLine(key), store - {key}, openFails) == Some(Reply(NotFound, store - {key}))
  {
    DelOnWire(key, store, openFails);
    GetOnWire(key, store - {key}, openFails);
  }

  /** A line of nothing but white space makes `sscanf` return EOF: ERROR, store unchanged. */
  lemma {:induction false} BlankLineOnWire(w: string, store: Store, openFails: bool)
    requires Blank(w) && NUL !in w && LF !in w && |w| < BUFSIZE
    ensures Request(w + "\n", store, openFails) == Some(Reply(Error, store))
  {
    var line := w + "\n";
    LineFramed(w);
    CStringOfPlain(line);
    assert Blank(line) by {
      forall k | 0 <= k < |line| ensures IsSpace(line[k]) {
        if k < |w| { assert line[k] == w[k]; }
      }
    }
    ErrorExactly(Scan(line), store, openFails);
  }

  /** A command word alone on its line fills one field: ERROR, store unchanged. */
  lemma {:induction false} LoneCommandOnWire(cmd: string, store: Store, openFails: bool)
    requires ValidCmd(cmd)
    ensures Request(cmd + "\n", store, openFails) == Some(Reply(Error, store))
  {
    LineFramed(cmd);
    assert cmd + "\n" == [] + (cmd + "\n");
    ScanOne([], cmd, "\n");
    ErrorExactly(Fields(1, cmd, [], []), store, openFails);
  }

  /**
   * A two-field line whose command is not GET or DEL (SET without a value,
   * an unknown word, a known word in the wrong case) answers ERROR and
   * leaves the store alone.
   */
  lemma {:induction false} WrongCommandOnWire(cmd: string, key: string, store: Store, openFails: bool)
    requires ValidCmd(cmd) && ValidKey(key) && cmd != "GET" && cmd != "DEL"
    ensures Request(cmd + " " + key + "\n", store, openFails) == Some(Reply(Error, store))
  {
    TwoFieldLine(cmd, key);
    ErrorExactly(Fields(2, cmd, key, []), store, openFails);
  }

  /** GET or DEL with a value after the key answers ERROR and leaves the store alone. */
  lemma {:induction false} ExtraFieldOnWire(cmd: string, key: string, value: string, store: Store, openFails: bool)
    requires cmd == "GET" || cmd == "DEL"
    requires ValidKey(key) && ValidValue(value) && 6 + |key| + |value| <= BUFSIZE
    ensures Request(cmd + " " + key + " " + value + "\n", store, openFails) == Some(Reply(Error, store))
  {
    ThreeFieldLine(cmd, key, value);
    ErrorExactly(Fields(3, cmd, key, value), store, openFails);
  }

  /** SET, GET, DEL, GET of one key, one connection each. */
  lemma {:induction false} GreetingScenario(store: Store)
    ensures var s1 := store["greeting" := "hello world"];
      && Request(SetLine("greeting", "hello world"), store, false) == Some(Reply(Ok, s1))
      && Request(GetLine("greeting"), s1, false) == Some(Reply(Found("hello world"), s1))
      && Request(DelLine("greeting"), s1, false) == Some(Reply(Ok, s1 - {"greeting"}))
      && Request(GetLine("greeting"), s1 - {"greeting"}, false) == Some(Reply(NotFound, s1 - {"greeting"}))
  {
    var k, v := "greeting", "hello world";
    assert ValidKey(k) && ValidValue(v);
    SetThenGetOnWire(k, v, store, false);
    DelThenGetOnWire(k, store[k := v], false);
  }
}
