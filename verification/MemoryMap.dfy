/** One Pageant request as a connection: read from the shared bytes, written to a buffer, answered at Close. */
module MemoryMap {
  import opened Bytes
  import opened Wrappers
  import opened Streams
  import opened XShellFraming
  import opened AgentServer

  datatype Response = Reply(data: seq<byte>) | NoReply

  /** What Close sends on the response channel. */
  function Answer(written: seq<byte>): Response {
    if |written| > 0 then Reply(written) else NoReply
  }

  /** `delivered` records all bytes Reads have returned, `responses` all values sent on the channel. */
  datatype MapConn = MapConn(
    request: seq<byte>, offset: nat, w: seq<byte>, closed: bool, delivered: seq<byte>, responses: seq<Response>)
  {
    predicate Valid() {
      && offset <= |request| && delivered == request[..offset]
      && responses == if closed then [Answer(w)] else []
    }
  }

  function Open(request: seq<byte>): MapConn {
    MapConn(request, 0, [], false, [], [])
  }

  function ReadConn(c: MapConn, room: nat): (MapConn, seq<byte>, Option<Error>) {
    if c.closed then (c, [], Some(ClosedPipe))
    else if c.offset >= |c.request| then (c, [], Some(EOF))
    else
      var n := Min(room, |c.request| - c.offset);
      var data := c.request[c.offset..][..n];
      (c.(offset := c.offset + n, delivered := c.delivered + data), data, None)
  }

  function WriteConn(c: MapConn, p: seq<byte>): (MapConn, Option<Error>) {
    if c.closed then (c, Some(ClosedPipe)) else (c.(w := c.w + p), None)
  }

  function CloseConn(c: MapConn): (MapConn, Option<Error>) {
    if c.closed then (c, Some(ClosedPipe))
    else (c.(closed := true, responses := c.responses + [Answer(c.w)]), None)
  }

  lemma ConnStepsKeepValid(c: MapConn, room: nat, p: seq<byte>)
    requires c.Valid()
    ensures ReadConn(c, room).0.Valid() && WriteConn(c, p).0.Valid() && CloseConn(c).0.Valid()
  {
    if !c.closed && c.offset < |c.request| {
      var n := Min(room, |c.request| - c.offset);
      assert c.request[..c.offset] + c.request[c.offset..][..n] == c.request[..c.offset + n];
    }
  }

  /**
   What calls return: after Close only an error; before it a Read gets the next bytes of the request, as many as
   there is room for, or the end of file when there are none.
   */
  lemma ConnAnswers(c: MapConn, room: nat, p: seq<byte>)
    requires c.Valid()
    ensures c.closed ==> ReadConn(c, room) == (c, [], Some(ClosedPipe))
                         && WriteConn(c, p) == (c, Some(ClosedPipe)) && CloseConn(c) == (c, Some(ClosedPipe))
    ensures !c.closed && c.offset == |c.request| ==> ReadConn(c, room) == (c, [], Some(EOF))
    ensures !c.closed && c.offset < |c.request| ==>
              var (d, data, err) := ReadConn(c, room);
              && err == None && d.delivered == c.delivered + data && d.delivered <= c.request
              && (|data| == room || d.delivered == c.request) && |data| <= room
    ensures !c.closed ==> WriteConn(c, p).1 == None && WriteConn(c, p).0.w == c.w + p
    ensures !c.closed ==>
              CloseConn(c).0.responses == c.responses + [if c.w == [] then NoReply else Reply(c.w)]
  {
    if !c.closed && c.offset < |c.request| {
      ConnStepsKeepValid(c, room, p);
    }
  }

  class MemoryMapConn {
    const request: seq<byte>
    var offset: nat
    var w: seq<byte>
    var closed: bool
    ghost var delivered: seq<byte>
    var responses: seq<Response>

    constructor (request: seq<byte>)
      ensures View() == Open(request)
    {
      this.request := request;
      offset, w, closed, delivered, responses := 0, [], false, [], [];
    }

    ghost function View(): MapConn
      reads this
    {
      MapConn(request, offset, w, closed, delivered, responses)
    }

    method Read(p: array<byte>) returns (n: nat, err: Option<Error>)
      requires View().Valid()
      modifies this`offset, this`delivered, p
      ensures var r := ReadConn(old(View()), p.Length);
              && View() == r.0 && err == r.2
              && n == |r.1| && n <= p.Length && p[..n] == r.1 && p[n..] == old(p[..])[n..]
    {
      if closed {
        return 0, Some(ClosedPipe);
      }
      if offset >= |request| {
        return 0, Some(EOF);
      }
      n := Min(p.Length, |request| - offset);
      forall i | 0 <= i < n {
        p[i] := request[offset + i];
      }
      delivered := delivered + p[..n];
      offset := offset + n;
      return n, None;
    }

    method Write(p: seq<byte>) returns (n: nat, err: Option<Error>)
      modifies this`w
      ensures View() == WriteConn(old(View()), p).0 && err == WriteConn(old(View()), p).1
      ensures n == if err.None? then |p| else 0
    {
      if closed {
        return 0, Some(ClosedPipe);
      }
      w := w + p;
      return |p|, None;
    }

    method Close() returns (err: Option<Error>)
      modifies this`closed, this`responses
      ensures View() == CloseConn(old(View())).0 && err == CloseConn(old(View())).1
    {
      if closed {
        return Some(ClosedPipe);
      }
      closed := true;
      responses := responses + [if |w| > 0 then Reply(w) else NoReply];
      return None;
    }

    /** `io.ReadFull` on this connection: exactly n bytes, or what is left and an error. */
    method ReadFull(n: nat) returns (b: seq<byte>, err: Option<Error>)
      requires View().Valid() && !closed
      modifies this`offset, this`delivered
      ensures View().Valid() && old(offset) <= offset && b == request[old(offset)..offset]
      ensures err.None? <==> n <= |request| - old(offset)
      ensures offset == Min(old(offset) + n, |request|)
    {
      b, err := [], None;
      while |b| < n
        invariant View().Valid() && !closed && responses == old(responses)
        invariant |b| <= n && offset == old(offset) + |b| && b == request[old(offset)..offset]
        decreases n - |b|
      {
        var p := new byte[n - |b|];
        ConnStepsKeepValid(View(), p.Length, []);
        var got, readErr := Read(p);
        if readErr.Some? {
          return b, readErr;
        }
        b := b + p[..got];
      }
    }
  }

  // ---------------------------------------------------------------- the agent's handler

  /** Serves requests until a read fails, then closes: the one response holds everything the agent wrote. */
  method SSHAgentHandler(conn: MemoryMapConn, agent: Option<Agent>)
    requires conn.View() == Open(conn.request)
    modifies conn
    ensures conn.closed && conn.View().Valid()
    ensures conn.responses == [match agent
                               case None => NoReply
                               case Some(f) => Answer(ServeOutput(conn.request, f, 0))]
  {
    if agent.Some? {
      ServeAgent(conn, agent.value);
    }
    var _ := conn.Close();
  }

  /** The bytes the handler has not read yet. */
  ghost function Unread(conn: MemoryMapConn): seq<byte>
    requires conn.View().Valid()
    reads conn
  {
    conn.request[conn.offset..]
  }

  /** The reading half of one round: the next request body, or None at the first error. */
  method ReadRequest(conn: MemoryMapConn) returns (req: Option<seq<byte>>)
    requires conn.View().Valid() && !conn.closed
    modifies conn`offset, conn`delivered
    ensures conn.View().Valid()
    ensures req.Some? <==> HasFrame(old(Unread(conn)), MAX_AGENT_RESPONSE_BYTES)
    ensures req.Some? ==>
              && req.value == Body(old(Unread(conn)), MAX_AGENT_RESPONSE_BYTES)
              && Unread(conn) == AfterFrame(old(Unread(conn)), MAX_AGENT_RESPONSE_BYTES)
              && conn.offset > old(conn.offset)
  {
    ghost var input := Unread(conn);
    var length, lengthErr := conn.ReadFull(4);
    if lengthErr.Some? {
      return None;
    }
    assert length == input[..4];
    var l := BE32(length);
    if l == 0 || l > MAX_AGENT_RESPONSE_BYTES {
      return None;
    }
    var body, bodyErr := conn.ReadFull(l);
    if bodyErr.Some? {
      return None;
    }
    assert body == input[4..4 + l];
    return Some(body);
  }

  /** The writing half of one round: header, then body. */
  method WriteReply(conn: MemoryMapConn, reply: seq<byte>)
    requires conn.View().Valid() && !conn.closed && |reply| < 0x1_0000_0000
    modifies conn`w
    ensures conn.View().Valid() && conn.w == old(conn.w) + Encode(reply)
  {
    var _, _ := conn.Write(PutBE32(|reply|));
    var _, _ := conn.Write(reply);
    Regroup(old(conn.w), PutBE32(|reply|), reply);
  }

  /** One round: what was written and what remains to be written make up the same whole. */
  method ServeOne(conn: MemoryMapConn, agent: Agent, served: nat) returns (more: bool)
    requires conn.View().Valid() && !conn.closed
    modifies conn`offset, conn`delivered, conn`w
    ensures conn.View().Valid()
    ensures more ==>
              && conn.offset > old(conn.offset)
              && conn.w + ServeOutput(Unread(conn), agent, served + 1)
                 == old(conn.w) + ServeOutput(old(Unread(conn)), agent, served)
    ensures !more ==> conn.w == old(conn.w) && ServeOutput(old(Unread(conn)), agent, served) == []
  {
    ghost var input := Unread(conn);
    var req := ReadRequest(conn);
    if req.None? {
      return false;
    }
    RepliesStep(input, agent, served);
    var reply := agent(served, req.value);
    if |reply| > MAX_AGENT_RESPONSE_BYTES {
      return false;
    }
    Regroup(conn.w, Encode(reply), ServeOutput(Unread(conn), agent, served + 1));
    WriteReply(conn, reply);
    return true;
  }

  method ServeAgent(conn: MemoryMapConn, agent: Agent)
    requires conn.View() == Open(conn.request)
    modifies conn`offset, conn`delivered, conn`w
    ensures conn.View().Valid() && conn.w == ServeOutput(conn.request, agent, 0)
  {
    assert conn.request[0..] == conn.request;
    var more := true;
    var served: nat := 0;
    while more
      invariant conn.View().Valid() && !conn.closed
      invariant more ==> conn.w + ServeOutput(Unread(conn), agent, served) == ServeOutput(conn.request, agent, 0)
      invariant !more ==> conn.w == ServeOutput(conn.request, agent, 0)
      decreases more, |conn.request| - conn.offset
    {
      more := ServeOne(conn, agent, served);
      served := served + 1;
    }
  }
}
