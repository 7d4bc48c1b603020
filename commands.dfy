/**
 * SET, GET and DEL on the store.  The directory of files the server works
 * in is a map from file name (the key) to file contents; whether
 * `fopen(key, "w")` fails is an oracle flag, and `fopen(key, "r")` fails
 * exactly when the key has no file.
 */
module Commands {
  import opened Bytes
  import opened Scanner
  import opened Sending

  type Store = map<string, string>

  /** The four answers the server gives to a parsed line. */
  datatype Response = Ok | Error | NotFound | Found(content: string)

  datatype Reply = Reply(response: Response, store: Store)

  /** Bytes GET reads from a file: `sizeof(val) - 1`. */
  const READ_MAX: nat := 255

  /**
   * The buffers the server hands to `sendall`, one call each, in order, with
   * the lengths it passes: a status answer is one buffer, a value answer is
   * three with the value in the middle, and the last buffer always ends the
   * answer with a line feed.
   */
  function Messages(r: Response): (m: seq<string>)
    ensures r.Found? ==> |m| == 3 && m[1] == r.content
    ensures !r.Found? ==> |m| == 1
    ensures r.Ok? || r.Found? ==> m[0] == "OK\n" && |m[0]| == 3
    ensures r.Error? ==> |m[0]| == 6
    ensures r.NotFound? ==> |m[0]| == 9
    ensures |m[|m| - 1]| > 0 && m[|m| - 1][|m[|m| - 1]| - 1] == LF
  {
    match r
    case Ok => ["OK\n"]
    case Error => ["ERROR\n"]
    case NotFound => ["NOTFOUND\n"]
    case Found(v) => ["OK\n", v, "\n"]
  }

  /** All the bytes of a response. */
  function Text(r: Response): string {
    Concat(Messages(r))
  }

  /**
   * What GET sends of a file: at most 255 bytes are read and the buffer is
   * then measured with `strlen`, so the answer runs up to the first NUL or
   * the 255-byte limit, whichever comes first.
   * A file of at most 255 bytes without NUL comes back whole.
   */
  function Readback(content: string): (v: string)
    ensures |v| <= READ_MAX && NUL !in v && v <= content
    ensures |v| < READ_MAX && |v| < |content| ==> content[|v|] == NUL
    ensures |content| <= READ_MAX && NUL !in content ==> v == content
  {
    var r := Take(content, READ_MAX);
    assert |content| <= READ_MAX && NUL !in content ==> CString(r) == content by {
      if |content| <= READ_MAX && NUL !in content {
        CStringOfPlain(r);
      }
    }
    CString(r)
  }

  /**
   * The dispatch of `main` once a line is parsed.  Whatever the fields:
   * ERROR and NOTFOUND leave the store as it was, NOTFOUND means the key
   * has no file, and no key other than the parsed one is touched.
   */
  function Dispatch(f: Fields, store: Store, openFails: bool): (r: Reply)
    ensures r.response.Error? || r.response.NotFound? ==> r.store == store
    ensures r.response.NotFound? ==> f.key !in store
    ensures forall k :: k != f.key ==> (k in r.store <==> k in store)
    ensures forall k :: k != f.key && k in store ==> r.store[k] == store[k]
  {
    if f.count < 2 then
      Reply(Error, store)
    else if f.cmd == "SET" && f.count == 3 then
      if openFails then Reply(Error, store) else Reply(Ok, store[f.key := f.value])
    else if f.cmd == "GET" && f.count == 2 then
      if f.key !in store then Reply(NotFound, store)
      else Reply(Found(Readback(store[f.key])), store)
    else if f.cmd == "DEL" && f.count == 2 then
      Reply(Ok, store - {f.key})
    else
      Reply(Error, store)
  }

  /** The fields name one of the three commands with the number of fields it takes. */
  predicate WellFormed(f: Fields) {
    (f.cmd == "SET" && f.count == 3) || ((f.cmd == "GET" || f.cmd == "DEL") && f.count == 2)
  }

  /**
   * The server answers ERROR exactly when the line is not a well-formed
   * command (too few fields, an unknown or differently cased command, the
   * wrong number of fields) or when a SET cannot open its file; ERROR never
   * changes the store.
   */
  lemma {:induction false} ErrorExactly(f: Fields, store: Store, openFails: bool)
    ensures Dispatch(f, store, openFails).response == Error
        <==> !WellFormed(f) || (f.cmd == "SET" && f.count == 3 && openFails)
    ensures Dispatch(f, store, openFails).response == Error ==> Dispatch(f, store, openFails).store == store
  {
  }

  /**
   * SET with three fields: when its file opens it stores exactly the value
   * under the key and answers OK; when it does not, it answers ERROR and
   * changes nothing.
   */
  lemma {:induction false} SetStores(key: string, value: string, store: Store)
    ensures Dispatch(Fields(3, "SET", key, value), store, false) == Reply(Ok, store[key := value])
    ensures Dispatch(Fields(3, "SET", key, value), store, true) == Reply(Error, store)
  {
  }

  /**
   * GET with two fields never changes the store; it answers NOTFOUND when
   * the key has no file and otherwise what `Readback` makes of its contents.
   */
  lemma {:induction false} GetAnswers(key: string, store: Store, openFails: bool)
    ensures key !in store ==> Dispatch(Fields(2, "GET", key, []), store, openFails) == Reply(NotFound, store)
    ensures key in store ==>
      Dispatch(Fields(2, "GET", key, []), store, openFails) == Reply(Found(Readback(store[key])), store)
  {
  }

  /** DEL with two fields always answers OK and leaves no file for the key, whether there was one or not. */
  lemma {:induction false} DelRemoves(key: string, store: Store, openFails: bool)
    ensures Dispatch(Fields(2, "DEL", key, []), store, openFails) == Reply(Ok, store - {key})
  {
  }

  /** Every answer, as bytes, is one line or, for a value, ends in a line feed. */
  lemma {:induction false} TextEndsWithLineFeed(r: Response)
    ensures |Text(r)| > 0 && Text(r)[|Text(r)| - 1] == LF
  {
    var m := Messages(r);
    if r.Found? {
      FoundText(r.content);
    } else {
      assert m[1..] == [];
      assert Text(r) == m[0] + [];
    }
  }

  /** The bytes of a value answer. */
  lemma {:induction false} FoundText(v: string)
    ensures Text(Found(v)) == "OK\n" + v + "\n"
  {
    var msgs := ["OK\n", v, "\n"];
    assert msgs[1..] == [v, "\n"] && msgs[1..][1..] == ["\n"] && msgs[1..][1..][1..] == [];
    assert Concat(msgs[1..][1..]) == "\n";
    assert Concat(msgs) == "OK\n" + (v + "\n");
  }

  /**
   * SET K V then GET K answers the value just stored, provided it is one a
   * line can carry (at most 255 bytes, no NUL), whatever was stored before.
   */
  lemma {:induction false} SetThenGet(key: string, value: string, store: Store, openFails: bool)
    requires |value| <= VALUE_WIDTH && NUL !in value
    ensures var s := Dispatch(Fields(3, "SET", key, value), store, false).store;
      Dispatch(Fields(2, "GET", key, []), s, openFails) == Reply(Found(value), s)
  {
    var s := store[key := value];
    assert Readback(s[key]) == value;
  }

  /** A second SET of the same key leaves no trace of the first value. */
  lemma {:induction false} SetOverwrites(key: string, v1: string, v2: string, store: Store)
    ensures var s1 := Dispatch(Fields(3, "SET", key, v1), store, false).store;
      Dispatch(Fields(3, "SET", key, v2), s1, false).store
        == Dispatch(Fields(3, "SET", key, v2), store, false).store
  {
    assert store[key := v1][key := v2] == store[key := v2];
  }

  /** After DEL K, GET K answers NOTFOUND whether or not K existed. */
  lemma {:induction false} DelThenGet(key: string, store: Store, openFails: bool)
    ensures var s := Dispatch(Fields(2, "DEL", key, []), store, openFails).store;
      Dispatch(Fields(2, "GET", key, []), s, openFails) == Reply(NotFound, s)
  {
  }

  /** DEL twice is DEL once. */
  lemma {:induction false} DelIdempotent(key: string, store: Store, openFails: bool)
    ensures var once := Dispatch(Fields(2, "DEL", key, []), store, openFails);
      Dispatch(Fields(2, "DEL", key, []), once.store, openFails) == once
  {
    assert store - {key} - {key} == store - {key};
  }
}
