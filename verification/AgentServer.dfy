/** What the SSH agent server makes of a byte stream, whichever connection carries it. */
module AgentServer {
  import opened Bytes
  import opened XShellFraming

  /**
   What the agent answers to request number n of a connection with this body. The number lets the replies of
   a run be any sequence, as they are when the store behind the agent changes between requests.
   */
  type Agent = (nat, seq<byte>) -> seq<byte>

  /** One framed reply per request body, numbered from `first`, up to the first reply too large to send. */
  function Replies(bodies: seq<seq<byte>>, agent: Agent, first: nat): seq<seq<byte>> {
    if bodies == [] || |agent(first, bodies[0])| > MAX_AGENT_RESPONSE_BYTES then []
    else [Encode(agent(first, bodies[0]))] + Replies(bodies[1..], agent, first + 1)
  }

  /** The replies one by one, each with its length in front, and where they stop. */
  lemma {:induction false} RepliesAre(bodies: seq<seq<byte>>, agent: Agent, first: nat, i: nat)
    ensures var n := |Replies(bodies, agent, first)|;
            && n <= |bodies|
            && (i < n ==> var reply := agent(first + i, bodies[i]);
                          |reply| <= 16777216 && Replies(bodies, agent, first)[i] == PutBE32(|reply|) + reply)
            && (n < |bodies| ==> |agent(first + n, bodies[n])| > 16777216)
    decreases bodies
  {
    if bodies != [] && |agent(first, bodies[0])| <= MAX_AGENT_RESPONSE_BYTES {
      RepliesAre(bodies[1..], agent, first + 1, if i > 0 then i - 1 else 0);
    }
  }

  /** The replies to a stream of requests before the server's first error. */
  function RepliesTo(stream: seq<byte>, agent: Agent, first: nat): seq<seq<byte>> {
    Replies(Frames(stream, MAX_AGENT_RESPONSE_BYTES), agent, first)
  }

  /** The same, as the bytes written. */
  function ServeOutput(stream: seq<byte>, agent: Agent, first: nat): seq<byte> {
    Flatten(RepliesTo(stream, agent, first))
  }

  /** The server works through the stream one request and one reply at a time. */
  lemma RepliesStep(stream: seq<byte>, agent: Agent, first: nat)
    requires HasFrame(stream, MAX_AGENT_RESPONSE_BYTES)
    ensures var reply := agent(first, Body(stream, MAX_AGENT_RESPONSE_BYTES));
            var rest := AfterFrame(stream, MAX_AGENT_RESPONSE_BYTES);
            if |reply| > MAX_AGENT_RESPONSE_BYTES then
              RepliesTo(stream, agent, first) == [] && ServeOutput(stream, agent, first) == []
            else
              && RepliesTo(stream, agent, first) == [Encode(reply)] + RepliesTo(rest, agent, first + 1)
              && ServeOutput(stream, agent, first) == Encode(reply) + ServeOutput(rest, agent, first + 1)
  {
    var body := Body(stream, MAX_AGENT_RESPONSE_BYTES);
    var rest := AfterFrame(stream, MAX_AGENT_RESPONSE_BYTES);
    var bodies := Frames(rest, MAX_AGENT_RESPONSE_BYTES);
    assert Frames(stream, MAX_AGENT_RESPONSE_BYTES) == [body] + bodies;
    assert ([body] + bodies)[0] == body && ([body] + bodies)[1..] == bodies;
    var reply := agent(first, body);
    if |reply| <= MAX_AGENT_RESPONSE_BYTES {
      FlattenAppend([Encode(reply)], RepliesTo(rest, agent, first + 1));
      FlattenOne(Encode(reply));
    }
  }
}
