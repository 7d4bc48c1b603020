/**
 * `sendall`: keep calling `send` until the whole buffer is out or a call
 * reports an error or a closed connection.
 *
 * The kernel is an oracle: `script` lists what successive `send` calls
 * return.  A positive entry is the number of bytes the kernel takes, never
 * more than it was offered; an entry <= 0 is an error or a closed peer and
 * is returned as it is.  When the script is used up every further call
 * fails with -1.
 */
module Sending {
  import opened Bytes

  /** What one `sendall` did: its return value, the bytes the peer got, the
      result of each `send` call in order, and the part of the script left. */
  datatype Transfer = Transfer(ret: int, delivered: seq<char>, calls: seq<int>, rest: seq<int>)

  /** The result the kernel gives to the next `send` call. */
  function NextReply(script: seq<int>): int {
    if script == [] then -1 else script[0]
  }

  /** The script after one `send` call. */
  function AfterCall(script: seq<int>): seq<int> {
    if script == [] then [] else script[1..]
  }

  /** The script after `k` `send` calls. */
  function AfterCalls(script: seq<int>, k: nat): seq<int> {
    if k <= |script| then script[k..] else []
  }

  /** One `send` of `offered` bytes: a positive reply is capped at `offered`. */
  function Send(reply: int, offered: nat): (n: int)
    requires offered > 0
    ensures n <= offered
    ensures n > 0 <==> reply > 0
    ensures n <= 0 ==> n == reply
  {
    if reply <= 0 then reply else Min(reply, offered)
  }

  /**
   * The loop of `sendall` from the point where `total` bytes of `b` are out
   * (`b` is `buf[0..len)`): one `send` of what is left per step, stopping
   * when nothing is left or a call is not positive.
   */
  function Transmit(b: seq<char>, total: nat, script: seq<int>): (t: Transfer)
    requires total <= |b|
    ensures total + |t.delivered| <= |b|
    decreases |b| - total
  {
    if total == |b| then
      Transfer(|b|, [], [], script)
    else
      var n := Send(NextReply(script), |b| - total);
      if n <= 0 then
        Transfer(n, [], [n], AfterCall(script))
      else
        var t := Transmit(b, total + n, AfterCall(script));
        Transfer(t.ret, b[total..total + n] + t.delivered, [n] + t.calls, t.rest)
  }

  /** The bytes the peer receives are a prefix of what was left to send. */
  lemma {:induction false} TransmitPrefix(b: seq<char>, total: nat, script: seq<int>)
    requires total <= |b|
    ensures var t := Transmit(b, total, script);
      t.delivered == b[total..total + |t.delivered|]
    decreases |b| - total
  {
    if total < |b| {
      var n := Send(NextReply(script), |b| - total);
      if n > 0 {
        var t' := Transmit(b, total + n, AfterCall(script));
        assert Transmit(b, total, script)
            == Transfer(t'.ret, b[total..total + n] + t'.delivered, [n] + t'.calls, t'.rest);
        TransmitPrefix(b, total + n, AfterCall(script));
        assert b[total..total + n] + b[total + n..total + n + |t'.delivered|]
            == b[total..total + n + |t'.delivered|];
      }
    }
  }

  /** Each `send` call uses one reply of the kernel. */
  lemma {:induction false} TransmitRest(b: seq<char>, total: nat, script: seq<int>)
    requires total <= |b|
    ensures var t := Transmit(b, total, script);
      t.rest == AfterCalls(script, |t.calls|)
    decreases |b| - total
  {
    if total < |b| {
      var n := Send(NextReply(script), |b| - total);
      if n > 0 {
        var t' := Transmit(b, total + n, AfterCall(script));
        assert Transmit(b, total, script)
            == Transfer(t'.ret, b[total..total + n] + t'.delivered, [n] + t'.calls, t'.rest);
        TransmitRest(b, total + n, AfterCall(script));
        assert AfterCalls(AfterCall(script), |t'.calls|) == AfterCalls(script, 1 + |t'.calls|);
      }
    }
  }

  /** When `sendall` returns `len`, every `send` took at least one byte and every byte went out. */
  lemma {:induction false} TransmitSuccess(b: seq<char>, total: nat, script: seq<int>)
    requires total <= |b|
    ensures var t := Transmit(b, total, script);
      t.ret == |b| ==>
        && total + |t.delivered| == |b|
        && forall i :: 0 <= i < |t.calls| ==> t.calls[i] > 0
    decreases |b| - total
  {
    var t := Transmit(b, total, script);
    if total < |b| {
      var n := Send(NextReply(script), |b| - total);
      if n <= 0 {
        assert t == Transfer(n, [], [n], AfterCall(script));
      } else {
        var t' := Transmit(b, total + n, AfterCall(script));
        assert Transmit(b, total, script)
            == Transfer(t'.ret, b[total..total + n] + t'.delivered, [n] + t'.calls, t'.rest);
        TransmitSuccess(b, total + n, AfterCall(script));
        assert t.calls == [n] + t'.calls;
        if t.ret == |b| {
          forall i | 0 <= i < |t.calls|
            ensures t.calls[i] > 0
          {
            if i > 0 { assert t.calls[i] == t'.calls[i - 1]; }
          }
        }
      }
    }
  }

  /**
   * When `sendall` does not return `len`, it returns the result of its last
   * `send`, which was not positive, and every earlier call took at least
   * one byte.
   */
  lemma {:induction false} TransmitFailure(b: seq<char>, total: nat, script: seq<int>)
    requires total <= |b|
    ensures var t := Transmit(b, total, script);
      t.ret != |b| ==>
        && |t.calls| > 0
        && t.ret <= 0
        && t.ret == t.calls[|t.calls| - 1]
        && forall i :: 0 <= i < |t.calls| - 1 ==> t.calls[i] > 0
    decreases |b| - total
  {
    var t := Transmit(b, total, script);
    if total < |b| {
      var n := Send(NextReply(script), |b| - total);
      if n <= 0 {
        assert t == Transfer(n, [], [n], AfterCall(script));
      } else {
        var t' := Transmit(b, total + n, AfterCall(script));
        assert Transmit(b, total, script)
            == Transfer(t'.ret, b[total..total + n] + t'.delivered, [n] + t'.calls, t'.rest);
        TransmitFailure(b, total + n, AfterCall(script));
        assert t.calls == [n] + t'.calls;
        if t.ret != |b| {
          assert t.calls[|t.calls| - 1] == t'.calls[|t'.calls| - 1];
          forall i | 0 <= i < |t.calls| - 1
            ensures t.calls[i] > 0
          {
            if i > 0 { assert t.calls[i] == t'.calls[i - 1]; }
          }
        }
      }
    }
  }

  /**
   * The contract of `sendall` as a whole: the peer receives a prefix of what
   * was left to send; the return value is `len` exactly when every `send`
   * took at least one byte, and otherwise it is the result of the first call
   * that was not positive, the last one made; each call uses one reply of
   * the kernel.
   */
  lemma {:induction false} TransmitContract(b: seq<char>, total: nat, script: seq<int>)
    requires total <= |b|
    ensures var t := Transmit(b, total, script);
      && t.delivered == b[total..total + |t.delivered|]
      && (t.ret == |b| <==> forall i :: 0 <= i < |t.calls| ==> t.calls[i] > 0)
      && (t.ret == |b| ==> total + |t.delivered| == |b|)
      && (t.ret != |b| ==>
            (&& t.ret <= 0
             && |t.calls| > 0
             && t.ret == t.calls[|t.calls| - 1]
             && forall i :: 0 <= i < |t.calls| - 1 ==> t.calls[i] > 0))
      && t.rest == AfterCalls(script, |t.calls|)
  {
    TransmitPrefix(b, total, script);
    TransmitRest(b, total, script);
    TransmitSuccess(b, total, script);
    TransmitFailure(b, total, script);
  }

  /** `t` with some bytes already delivered and some calls already made in front. */
  function Prepend(delivered: seq<char>, calls: seq<int>, t: Transfer): Transfer {
    Transfer(t.ret, delivered + t.delivered, calls + t.calls, t.rest)
  }

  lemma {:induction false} PrependTwice(d1: seq<char>, c1: seq<int>, d2: seq<char>, c2: seq<int>, t: Transfer)
    ensures Prepend(d1, c1, Prepend(d2, c2, t)) == Prepend(d1 + d2, c1 + c2, t)
  {
    assert d1 + (d2 + t.delivered) == (d1 + d2) + t.delivered;
    assert c1 + (c2 + t.calls) == (c1 + c2) + t.calls;
  }

  /**
   * `sendall(sockfd, buf, len)`.  Besides the return value it reports what
   * the peer received and what each `send` returned; all of it is the
   * outcome `Transmit` specifies.
   */
  method SendAll(buf: seq<char>, len: nat, script: seq<int>)
    returns (ret: int, delivered: seq<char>, calls: seq<int>, rest: seq<int>)
    requires len <= |buf|
    ensures Transfer(ret, delivered, calls, rest) == Transmit(buf[..len], 0, script)
  {
    ghost var b := buf[..len];
    var total: nat := 0;
    delivered, calls, rest := [], [], script;
    while total < len
      invariant total <= len
      invariant delivered == b[..total]
      invariant Transmit(b, 0, script) == Prepend(delivered, calls, Transmit(b, total, rest))
      decreases len - total
    {
      ghost var remaining := Transmit(b, total, rest);
      var n := Send(NextReply(rest), len - total);
      rest := AfterCall(rest);
      if n <= 0 {
        assert remaining == Transfer(n, [], [n], rest);
        PrependTwice(delivered, calls, [], [n], Transmit(b, |b|, rest));
        calls := calls + [n];
        return n, delivered, calls, rest;
      }
      assert remaining == Prepend(b[total..total + n], [n], Transmit(b, total + n, rest));
      PrependTwice(delivered, calls, b[total..total + n], [n], Transmit(b, total + n, rest));
      assert b[..total] + b[total..total + n] == b[..total + n];
      calls := calls + [n];
      delivered := delivered + buf[total..total + n];
      total := total + n;
    }
    ret := total;
  }

  /**
   * A kernel that accepts at least one byte per call, with enough calls
   * left, lets `sendall` put the whole buffer out and return `len`.
   */
  lemma {:induction false} TransmitComplete(b: seq<char>, total: nat, script: seq<int>)
    requires total <= |b|
    requires forall i :: 0 <= i < |script| ==> script[i] > 0
    requires |script| >= |b| - total
    ensures Transmit(b, total, script).ret == |b|
    ensures Transmit(b, total, script).delivered == b[total..]
    ensures |Transmit(b, total, script).rest| >= |script| - (|b| - total)
    decreases |b| - total
  {
    if total < |b| {
      var n := Send(NextReply(script), |b| - total);
      assert n > 0;
      TransmitComplete(b, total + n, AfterCall(script));
    }
  }

  /** The bytes of several `sendall` calls made one after another. */
  function Concat(msgs: seq<seq<char>>): (r: seq<char>)
    ensures msgs == [] ==> r == []
  {
    if msgs == [] then [] else msgs[0] + Concat(msgs[1..])
  }

  datatype Delivery = Delivery(wire: seq<char>, rest: seq<int>)

  /**
   * Several `sendall` calls on one connection, each sending a whole message
   * and ignoring the result of the previous one, as the server does: the
   * wire never carries more bytes than the messages hold together.
   */
  function Deliver(msgs: seq<seq<char>>, script: seq<int>): (d: Delivery)
    ensures |d.wire| <= |Concat(msgs)|
  {
    if msgs == [] then Delivery([], script)
    else
      var t := Transmit(msgs[0], 0, script);
      var d := Deliver(msgs[1..], t.rest);
      Delivery(t.delivered + d.wire, d.rest)
  }

  /** With a kernel that never refuses and enough calls, every message arrives whole. */
  lemma {:induction false} DeliverComplete(msgs: seq<seq<char>>, script: seq<int>)
    requires forall i :: 0 <= i < |script| ==> script[i] > 0
    requires |script| >= |Concat(msgs)|
    ensures Deliver(msgs, script).wire == Concat(msgs)
  {
    if msgs != [] {
      var t := Transmit(msgs[0], 0, script);
      TransmitComplete(msgs[0], 0, script);
      TransmitRest(msgs[0], 0, script);
      assert msgs[0][0..] == msgs[0];
      assert t.rest == AfterCalls(script, |t.calls|);
      forall i | 0 <= i < |t.rest|
        ensures t.rest[i] > 0
      {
        assert t.rest[i] == script[|t.calls| + i];
      }
      DeliverComplete(msgs[1..], t.rest);
    }
  }
}
