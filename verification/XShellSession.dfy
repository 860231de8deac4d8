/** A whole XShell connection: greeting, then the agent server reading and writing through the proxy. */
module XShellSession {
  import opened Bytes
  import opened Streams
  import opened Wrappers
  import opened XShellFraming
  import opened XShellProxy
  import opened XShellHandshake
  import opened AgentServer

  /** One Read into n bytes of room: some owed bytes move to the caller, or nothing is owed. */
  method ReadSome(proxy: Proxy, n: nat) returns (b: seq<byte>, ok: bool)
    requires n > 0
    modifies proxy`buf, proxy.conn`incoming
    ensures ok ==> 0 < |b| <= n && b + Owed(proxy.AsReader()) == old(Owed(proxy.AsReader()))
    ensures !ok ==> old(Owed(proxy.AsReader())) == []
  {
    var p := new byte[n];
    ReadStepKeepsOwed(proxy.AsReader(), proxy.conn.ending, n);
    ReadStepProgresses(proxy.AsReader(), proxy.conn.ending, n);
    var got, err := proxy.Read(p);
    return p[..got], err.None?;
  }

  /** `io.ReadFull` on the proxy takes n of the owed bytes, if there are that many. */
  method ReadFull(proxy: Proxy, n: nat) returns (b: seq<byte>, ok: bool)
    modifies proxy`buf, proxy.conn`incoming
    ensures ok <==> n <= |old(Owed(proxy.AsReader()))|
    ensures ok ==> |b| == n && b + Owed(proxy.AsReader()) == old(Owed(proxy.AsReader()))
  {
    b := [];
    while |b| < n
      invariant |b| <= n && b + Owed(proxy.AsReader()) == old(Owed(proxy.AsReader()))
      decreases n - |b|
    {
      var more, got := ReadSome(proxy, n - |b|);
      if !got {
        return b, false;
      }
      Regroup(b, more, Owed(proxy.AsReader()));
      b := b + more;
    }
    return b, true;
  }

  /** The next request body the server accepts, or None. */
  method ReadRequest(proxy: Proxy) returns (req: Option<seq<byte>>)
    modifies proxy`buf, proxy.conn`incoming
    ensures req.Some? <==> HasFrame(old(Owed(proxy.AsReader())), MAX_AGENT_RESPONSE_BYTES)
    ensures req.Some? ==>
              && req.value == Body(old(Owed(proxy.AsReader())), MAX_AGENT_RESPONSE_BYTES)
              && Owed(proxy.AsReader()) == AfterFrame(old(Owed(proxy.AsReader())), MAX_AGENT_RESPONSE_BYTES)
  {
    ghost var owed := Owed(proxy.AsReader());
    var length, lengthOk := ReadFull(proxy, 4);
    if !lengthOk {
      return None;
    }
    var l := BE32(length);
    assert owed[..4] == length && BE32(owed) == l && owed[4..] == Owed(proxy.AsReader());
    if l == 0 || l > MAX_AGENT_RESPONSE_BYTES {
      return None;
    }
    var body, bodyOk := ReadFull(proxy, l);
    if !bodyOk {
      return None;
    }
    assert owed[4..] == body + Owed(proxy.AsReader());
    assert owed[4..][..l] == owed[4..4 + l] && owed[4..][l..] == owed[4 + l..];
    return Some(body);
  }

  /** Header then body: one message on the connection, the whole framed reply, if the connection takes it. */
  method WriteReply(proxy: Proxy, reply: seq<byte>) returns (err: Option<Error>)
    requires proxy.AsWriter() == IDLE && |reply| <= MAX_AGENT_RESPONSE_BYTES
    modifies proxy`wlength, proxy`wbuf, proxy.conn`sent, proxy.conn`writes
    ensures err.None? <==> old(proxy.conn.NextWriteSucceeds())
    ensures err.None? ==>
              && proxy.AsWriter() == IDLE && proxy.conn.sent == old(proxy.conn.sent) + [Encode(reply)]
              && proxy.conn.writes == old(proxy.conn.writes) + 1
    ensures err.Some? ==> proxy.conn.sent == old(proxy.conn.sent)
  {
    WordRoundTrip(|reply|);
    assert [] + PutBE32(|reply|) == PutBE32(|reply|);
    var _, headerErr := proxy.Write(PutBE32(|reply|));
    assert proxy.conn.sent == old(proxy.conn.sent);
    var _, bodyErr := proxy.Write(reply);
    err := bodyErr;
  }

  /** How many of n writes in a row get through, when the first of them has number `from`. */
  function FirstFault(faults: set<nat>, from: nat, n: nat): (m: nat)
    ensures m <= n
    ensures forall i :: from <= i < from + m ==> i !in faults
    ensures m == n || from + m in faults
    decreases n
  {
    if n == 0 || from in faults then 0 else 1 + FirstFault(faults, from + 1, n - 1)
  }

  /** The messages on the wire once these have been written in turn, write number `from` being the first. */
  function Through(messages: seq<seq<byte>>, faults: set<nat>, from: nat): (r: seq<seq<byte>>)
    ensures r <= messages
  {
    messages[..FirstFault(faults, from, |messages|)]
  }

  lemma ThroughStep(message: seq<byte>, rest: seq<seq<byte>>, faults: set<nat>, from: nat)
    ensures Through([message] + rest, faults, from)
         == if from in faults then [] else [message] + Through(rest, faults, from + 1)
  {
  }

  /** What the loop will still put on the wire. */
  ghost function ToSend(proxy: Proxy, agent: Agent, served: nat): seq<seq<byte>>
    reads proxy, proxy.conn
  {
    Through(RepliesTo(Owed(proxy.AsReader()), agent, served), proxy.conn.faults, proxy.conn.writes)
  }

  /** One round of the server's loop: a request answered with one message, or the end. */
  method ServeOne(proxy: Proxy, agent: Agent, served: nat) returns (more: bool)
    requires proxy.AsWriter() == IDLE
    modifies proxy, proxy.conn
    ensures more ==>
              && proxy.AsWriter() == IDLE && |Owed(proxy.AsReader())| < |old(Owed(proxy.AsReader()))|
              && proxy.conn.sent + ToSend(proxy, agent, served + 1)
                 == old(proxy.conn.sent) + old(ToSend(proxy, agent, served))
    ensures !more ==> proxy.conn.sent == old(proxy.conn.sent) && old(ToSend(proxy, agent, served)) == []
  {
    ghost var owed := Owed(proxy.AsReader());
    var req := ReadRequest(proxy);
    if req.None? {
      return false;
    }
    RepliesStep(owed, agent, served);
    var reply := agent(served, req.value);
    if |reply| > MAX_AGENT_RESPONSE_BYTES {
      return false;
    }
    ghost var rest := RepliesTo(Owed(proxy.AsReader()), agent, served + 1);
    ThroughStep(Encode(reply), rest, proxy.conn.faults, proxy.conn.writes);
    var err := WriteReply(proxy, reply);
    if err.Some? {
      return false;
    }
    Regroup(old(proxy.conn.sent), [Encode(reply)], ToSend(proxy, agent, served + 1));
    return true;
  }

  /**
   The server's loop over the proxy: one message per request of the owed stream, in order, up to the first
   write that fails; which write fails decides how many there are.
   */
  method ServeAgent(proxy: Proxy, agent: Agent)
    requires proxy.AsWriter() == IDLE
    modifies proxy, proxy.conn
    ensures proxy.conn.sent == old(proxy.conn.sent)
                               + Through(RepliesTo(old(Owed(proxy.AsReader())), agent, 0),
                                         proxy.conn.faults, old(proxy.conn.writes))
  {
    var more := true;
    var served: nat := 0;
    while more
      invariant more ==>
                  && proxy.AsWriter() == IDLE
                  && proxy.conn.sent + ToSend(proxy, agent, served)
                     == old(proxy.conn.sent) + old(ToSend(proxy, agent, 0))
      invariant !more ==> proxy.conn.sent == old(proxy.conn.sent) + old(ToSend(proxy, agent, 0))
      decreases more, |Owed(proxy.AsReader())|
    {
      more := ServeOne(proxy, agent, served);
      served := served + 1;
    }
  }

  /** The replies an accepted client is due: to each of its bodies, normalised, before the first outgrown one. */
  function Due(frames: seq<byte>, agent: Agent): seq<seq<byte>> {
    Replies(NormaliseAll(BeforeOutgrown(Frames(frames, MAX_AGENT_RESPONSE_BYTES))), agent, 0)
  }

  /**
   The replies due, one by one: to body i, normalised, its own framed reply. They stop where the client's bodies
   do, or at a body that repair pushes past 16777216 bytes, or at a reply of more than that.
   */
  lemma DueAre(frames: seq<byte>, agent: Agent, i: nat)
    ensures var bodies := Frames(frames, 16777216);
            var n := |Due(frames, agent)|;
            && n <= |bodies|
            && (i < n ==> var reply := agent(i, Normalise(bodies[i]));
                          |reply| <= 16777216 && Due(frames, agent)[i] == PutBE32(|reply|) + reply)
            && (n < |bodies| ==> |Normalise(bodies[n])| > 16777216 || |agent(n, Normalise(bodies[n]))| > 16777216)
  {
    var bodies := Frames(frames, MAX_AGENT_RESPONSE_BYTES);
    BeforeOutgrownIs(bodies);
    FramesFit(frames, MAX_AGENT_RESPONSE_BYTES);
    var kept := NormaliseAll(BeforeOutgrown(bodies));
    RepliesAre(kept, agent, 0, i);
  }

  /**
   A connection from beginning to end: a client that greets gets the handshake's answer and then exactly one
   message per request it is due a reply to, in order, up to the first write that fails. Other clients
   get nothing.
   */
  method Connection(conn: Conn, cookie: seq<byte>, agent: Agent) returns (verdict: Verdict)
    modifies conn
    ensures verdict.Accepted? <==> Greets(old(conn.incoming), cookie) && old(conn.NextWriteSucceeds())
    ensures !verdict.Accepted? ==> conn.sent == old(conn.sent)
    ensures verdict.Accepted? ==>
              conn.sent == old(conn.sent) + [[0, 0, 0, 5, 99] + old(conn.incoming)[5..9]]
                           + Through(Due(old(conn.incoming)[13 + |cookie|..], agent), conn.faults, old(conn.writes) + 1)
  {
    var proxy: Proxy?;
    verdict, proxy := Admit(conn, cookie);
    if proxy != null {
      ServerReceives(old(conn.incoming)[13 + |cookie|..]);
      ServeAgent(proxy, agent);
    }
  }
}
