/** The greeting that opens an XShell connection, and what the proxy is handed afterwards. */
module XShellHandshake {
  import opened Bytes
  import opened Streams
  import opened Wrappers
  import opened XShellFraming
  import opened XShellProxy

  const INIT_AGENT: byte := 99

  datatype Verdict = Accepted | Refused(error: Error) | Panicked

  /** A greeting whose frame carries the first k bytes of the cookie; the others follow the frame. */
  function Greeting(cookie: seq<byte>, flag: uint32, k: nat): seq<byte>
    requires k <= |cookie| < 0x1_0000_0000 && k + 5 < 0x1_0000_0000
  {
    PutBE32(k + 5) + ([INIT_AGENT] + PutBE32(flag) + PutBE32(|cookie|)) + cookie
  }

  /** The stream opens with such a greeting, for some division of the cookie that fits the frame limit. */
  predicate Greets(stream: seq<byte>, cookie: seq<byte>) {
    && |stream| >= 13 + |cookie|
    && 5 <= BE32(stream) <= 5 + |cookie|
    && BE32(stream) + 4 <= MAX_AGENT_RESPONSE_BYTES
    && stream[4] == INIT_AGENT
    && BE32(stream[9..]) == |cookie|
    && stream[13..13 + |cookie|] == cookie
  }

  lemma GreetsMeansGreeting(stream: seq<byte>, cookie: seq<byte>)
    requires Greets(stream, cookie)
    ensures var flag := BE32(stream[5..]);
            var k := BE32(stream) - 5;
            && 0 <= k <= |cookie| < 0x1_0000_0000
            && stream == Greeting(cookie, flag, k) + stream[13 + |cookie|..]
  {
    BytesRoundTrip(stream);
    BytesRoundTrip(stream[5..]);
    BytesRoundTrip(stream[9..]);
    assert stream[5..9] == stream[5..][..4] && stream[9..13] == stream[9..][..4];
    assert stream == stream[..4] + ([stream[4]] + stream[5..9] + stream[9..13]) + stream[13..13 + |cookie|]
                     + stream[13 + |cookie|..];
  }

  /**
   Every division of the cookie between the frame and the bytes after it is a greeting, up to the frame
   limit, and whatever the division the session proper starts at the same place.
   */
  lemma EveryDivisionGreets(cookie: seq<byte>, flag: uint32, k: nat, rest: seq<byte>)
    requires k <= |cookie| < 0x1_0000_0000 && k + 5 < 0x1_0000_0000
    ensures var stream := Greeting(cookie, flag, k) + rest;
            && (Greets(stream, cookie) <==> k + 9 <= MAX_AGENT_RESPONSE_BYTES)
            && stream[13 + |cookie|..] == rest
            && stream[5..9] == PutBE32(flag)
  {
    var stream := Greeting(cookie, flag, k) + rest;
    WordRoundTrip(k + 5);
    WordRoundTrip(|cookie|);
    assert stream[..4] == PutBE32(k + 5) && BE32(stream) == BE32(stream[..4]);
    assert stream[9..][..4] == PutBE32(|cookie|) && BE32(stream[9..]) == BE32(stream[9..][..4]);
    assert stream[13..13 + |cookie|] == cookie;
  }

  /** The greeting byte for byte, and the frame limit it is subject to. */
  lemma GreetingLayout(cookie: seq<byte>, flag: uint32, k: nat, rest: seq<byte>)
    requires k <= |cookie| < 0x1_0000_0000 && k + 5 < 0x1_0000_0000
    ensures var stream := PutBE32(k + 5) + [99] + PutBE32(flag) + PutBE32(|cookie|) + cookie + rest;
            Greets(stream, cookie) <==> k + 9 <= 16777216
  {
    EveryDivisionGreets(cookie, flag, k, rest);
    assert PutBE32(k + 5) + [99] + PutBE32(flag) + PutBE32(|cookie|) + cookie + rest
        == Greeting(cookie, flag, k) + rest;
  }

  /** The opening message: the client's flag, the declared cookie length, and the part of the cookie in the frame. */
  datatype InitMsg = InitMsg(flag: seq<byte>, length: uint32, front: seq<byte>)

  /** The frame holding it is complete, within the limit, and of the right type and minimal size. */
  predicate HasInit(stream: seq<byte>) {
    && |stream| >= 13 && 5 <= BE32(stream) && BE32(stream) + 4 <= MAX_AGENT_RESPONSE_BYTES
    && |stream| >= 8 + BE32(stream) && stream[4] == INIT_AGENT
  }

  /** Reads the opening frame, whose length is computed in 32 bits. */
  method ReadInit(conn: Conn) returns (init: Option<InitMsg>, failure: Verdict)
    modifies conn`incoming
    ensures init.Some? <==> HasInit(old(conn.incoming))
    ensures init.Some? ==>
              var stream := old(conn.incoming);
              && init.value == InitMsg(stream[5..9], BE32(stream[9..]), stream[13..8 + BE32(stream)])
              && conn.incoming == stream[8 + BE32(stream)..]
    ensures !failure.Accepted?
    ensures failure.Panicked? <==> |old(conn.incoming)| >= 4 && BE32(old(conn.incoming)) == 0xFFFF_FFFC
  {
    ghost var stream := conn.incoming;
    init, failure := None, Refused(InvalidMessage);
    var length, lengthErr := conn.ReadFull(4);
    if lengthErr.Some? {
      return None, Refused(lengthErr.value);
    }
    var w: int := BE32(length);
    assert w == BE32(stream);
    var l := (w + 4) % 0x1_0000_0000;
    assert l == if w < 0xFFFF_FFFC then w + 4 else w - 0xFFFF_FFFC;
    if l > MAX_AGENT_RESPONSE_BYTES {
      return None, Refused(RequestTooLarge(l));
    }
    var req, reqErr := conn.ReadFull(l);
    if reqErr.Some? {
      return None, Refused(reqErr.value);
    }
    if l == 0 {
      return None, Panicked;  // the opcode of an empty request is out of range
    }
    assert req == stream[4..4 + l];
    if req[0] != INIT_AGENT || |req| < 9 {
      return;
    }
    assert l == w + 4;
    assert req[1..5] == stream[5..9] && BE32(req[5..]) == BE32(stream[9..]) && req[9..] == stream[13..8 + w];
    init := Some(InitMsg(req[1..5], BE32(req[5..]), req[9..]));
  }

  /**
   Accepts exactly the streams that open with a greeting; on success it has taken the greeting and
   nothing more, and answered with the client's flag. Nothing is sent to anyone else.
   */
  method Handshake(conn: Conn, cookie: seq<byte>) returns (verdict: Verdict)
    modifies conn`incoming, conn`sent, conn`writes
    ensures verdict.Accepted? <==> Greets(old(conn.incoming), cookie) && old(conn.NextWriteSucceeds())
    ensures verdict.Accepted? ==>
              && conn.incoming == old(conn.incoming)[13 + |cookie|..] && conn.writes == old(conn.writes) + 1
              && conn.sent == old(conn.sent) + [[0, 0, 0, 5, 99] + old(conn.incoming)[5..9]]
    ensures !verdict.Accepted? ==> conn.sent == old(conn.sent)
    ensures verdict.Panicked? <==> |old(conn.incoming)| >= 4 && BE32(old(conn.incoming)) == 0xFFFF_FFFC
  {
    ghost var stream := conn.incoming;
    var init, failure := ReadInit(conn);
    if init.None? {
      return failure;
    }
    var InitMsg(flag, declared, front) := init.value;
    if declared != |cookie| || declared < |front| {
      return Refused(InvalidMessage);
    }
    var remain, remainErr := conn.ReadFull(declared - |front|);
    if remainErr.Some? {
      return Refused(remainErr.value);
    }
    assert stream[13..13 + |cookie|] == front + remain;
    if front + remain != cookie {
      return Refused(InvalidCookie);
    }
    var rep := PutBE32(5) + [INIT_AGENT] + flag;
    assert rep == [0, 0, 0, 5, 99] + flag;
    var err := conn.Write(rep);
    if err.Some? {
      return Refused(err.value);
    }
    return Accepted;
  }

  /** What the accept loop does with a new connection: a proxy at the first frame of the session, or none. */
  method Admit(conn: Conn, cookie: seq<byte>) returns (verdict: Verdict, proxy: Proxy?)
    modifies conn`incoming, conn`sent, conn`writes
    ensures verdict.Accepted? <==> Greets(old(conn.incoming), cookie) && old(conn.NextWriteSucceeds())
    ensures proxy != null <==> verdict.Accepted?
    ensures !verdict.Accepted? ==> conn.sent == old(conn.sent)
    ensures proxy != null ==>
              && fresh(proxy) && proxy.conn == conn && proxy.AsWriter() == IDLE
              && Owed(proxy.AsReader()) == Reframe(old(conn.incoming)[13 + |cookie|..])
              && conn.writes == old(conn.writes) + 1
              && conn.sent == old(conn.sent) + [[0, 0, 0, 5, 99] + old(conn.incoming)[5..9]]
  {
    verdict := Handshake(conn, cookie);
    if verdict.Accepted? {
      proxy := new Proxy(conn);
      assert [] + Reframe(conn.incoming) == Reframe(conn.incoming);
    } else {
      proxy := null;
    }
  }
}
