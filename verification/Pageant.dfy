/** Pageant's window: the shared-memory transaction, and the hand-off between window, accept loop and handlers. */
module Pageant {
  import opened Bytes
  import opened Wrappers
  import opened XShellFraming
  import opened AgentServer
  import opened MemoryMap

  const AGENT_MAX_MSGLEN := 8192

  // ---------------------------------------------------------------- one transaction

  /** The mapped bytes a client shares with the window. */
  type Shared = s: seq<byte> | |s| == AGENT_MAX_MSGLEN witness Zeros(AGENT_MAX_MSGLEN)

  /** The bytes forwarded to a handler for these shared bytes: the message length is computed in 32 bits. */
  function Forwarded(shared: Shared): Option<seq<byte>> {
    var h := BE32(shared);
    if h <= AGENT_MAX_MSGLEN - 4 then Some(shared[..h + 4])
    else if h < 0xFFFF_FFFC then None
    else Some(shared[..h - 0xFFFF_FFFC])
  }

  /** The shared bytes after a reply is copied to their front. */
  function Overlaid(shared: Shared, reply: seq<byte>): Shared
    requires |reply| <= AGENT_MAX_MSGLEN
  {
    reply + shared[|reply|..]
  }

  /** What the window makes of the response it was waiting for: its result, and the shared bytes it leaves. */
  function Finish(shared: Shared, resp: Response): (nat, Shared) {
    if resp.Reply? && |resp.data| <= AGENT_MAX_MSGLEN then (1, Overlaid(shared, resp.data)) else (0, shared)
  }

  /**
   Whatever the handlers answer: the result is 1 exactly when a request was forwarded and its reply fits,
   and then the reply is the front of the shared bytes; otherwise they are untouched.
   */
  method WndProc(shared: array<byte>, respond: seq<byte> -> Response)
    returns (lResult: nat, request: Option<seq<byte>>)
    requires shared.Length == AGENT_MAX_MSGLEN
    modifies shared
    ensures request == Forwarded(old(shared[..]))
    ensures request.None? ==> lResult == 0 && shared[..] == old(shared[..])
    ensures request.Some? ==> (lResult, shared[..]) == Finish(old(shared[..]), respond(request.value))
  {
    var size := BE32(shared[..4]);
    assert size == BE32(shared[..]);
    size := (size + 4) % 0x1_0000_0000;
    if size > AGENT_MAX_MSGLEN {
      return 0, None;
    }
    var data := shared[..size];
    request := Some(data);
    var resp := respond(data);
    if resp.Reply? {
      if |resp.data| > AGENT_MAX_MSGLEN {
        return 0, request;
      }
      forall i | 0 <= i < |resp.data| {
        shared[i] := resp.data[i];
      }
      assert shared[..] == Overlaid(old(shared[..]), resp.data);
      return 1, request;
    }
    return 0, request;
  }

  /** What is forwarded: the length word and as many bytes as it says, modulo 2^32, if that is at most 8192. */
  lemma ForwardedIs(shared: Shared)
    ensures |shared| == 8192
    ensures var size := (BE32(shared) + 4) % 0x1_0000_0000;
            Forwarded(shared) == if size <= 8192 then Some(shared[..size]) else None
  {
  }

  /** What the client finds: 1 and the reply in front of its bytes, if there is one of at most 8192 bytes. */
  lemma FinishIs(shared: Shared, written: seq<byte>)
    ensures var (lResult, after) := Finish(shared, Answer(written));
            if 1 <= |written| <= 8192
            then lResult == 1 && after[..|written|] == written && after[|written|..] == shared[|written|..]
            else lResult == 0 && after == shared
  {
  }

  /** The answer of a handler that serves the request with this agent. */
  function Served(agent: Agent): seq<byte> -> Response {
    (request: seq<byte>) => Answer(ServeOutput(request, agent, 0))
  }

  /** A stream that is exactly one request. */
  lemma OneRequest(request: seq<byte>, agent: Agent)
    requires |request| >= 5 && BE32(request) == |request| - 4 <= MAX_AGENT_RESPONSE_BYTES
    ensures var reply := agent(0, request[4..]);
            ServeOutput(request, agent, 0) == if |reply| <= MAX_AGENT_RESPONSE_BYTES then Encode(reply) else []
  {
    assert request[4..4 + BE32(request)] == request[4..];
    assert AfterFrame(request, MAX_AGENT_RESPONSE_BYTES) == [];
    RepliesStep(request, agent, 0);
    NoRequest([], agent, 1);
    assert |agent(0, request[4..])| <= MAX_AGENT_RESPONSE_BYTES ==>
        Encode(agent(0, request[4..])) + [] == Encode(agent(0, request[4..]));
  }

  lemma NoRequest(stream: seq<byte>, agent: Agent, first: nat)
    requires !HasFrame(stream, MAX_AGENT_RESPONSE_BYTES)
    ensures ServeOutput(stream, agent, first) == []
  {
  }

  lemma OrdinaryHeader(shared: Shared, h: nat, agent: Agent)
    requires BE32(shared) == h && 1 <= h <= AGENT_MAX_MSGLEN - 4
    ensures Forwarded(shared) == Some(shared[..h + 4])
    ensures var reply := agent(0, shared[4..h + 4]);
            ServeOutput(shared[..h + 4], agent, 0) == if |reply| <= MAX_AGENT_RESPONSE_BYTES then Encode(reply) else []
  {
    var request := shared[..h + 4];
    assert BE32(request) == h && request[4..] == shared[4..h + 4];
    OneRequest(request, agent);
  }

  /** An empty message, or one that is short because its length wrapped, holds no request. */
  lemma OtherHeader(shared: Shared, agent: Agent)
    requires Forwarded(shared).Some? && !(1 <= BE32(shared) <= AGENT_MAX_MSGLEN - 4)
    ensures ServeOutput(Forwarded(shared).value, agent, 0) == []
  {
    var request := Forwarded(shared).value;
    assert BE32(shared) == 0 ==> BE32(request) == 0;
    NoRequest(request, agent, 0);
  }

  /**
   With the agent's own handler, for every header value: a header of 1 to 8188 is one request and its reply is
   the agent's, framed; any other header, wrapping or not, gets no reply.
   */
  lemma HeaderDecides(shared: Shared, agent: Agent)
    ensures var h := BE32(shared);
            if 1 <= h <= 8188 then
              && Forwarded(shared).Some?
              && var reply := agent(0, shared[4..h + 4]);
              Served(agent)(Forwarded(shared).value)
                == if |reply| <= MAX_AGENT_RESPONSE_BYTES then Reply(Encode(reply)) else NoReply
            else Forwarded(shared).Some? ==> Served(agent)(Forwarded(shared).value) == NoReply
  {
    var h := BE32(shared);
    if 1 <= h <= AGENT_MAX_MSGLEN - 4 {
      OrdinaryHeader(shared, h, agent);
    } else if Forwarded(shared).Some? {
      OtherHeader(shared, agent);
    }
  }

  // ---------------------------------------------------------------- window, accept loop and handlers

  /** The window thread: idle, blocked on handing a request over, or blocked on that request's response. */
  datatype Window = Idle | Offering(shared: Shared) | Waiting(id: nat, shared: Shared)

  /** A finished transaction: the shared bytes before and after, the result, and the connection it went to, if any. */
  datatype Outcome = Outcome(before: Shared, lResult: nat, after: Shared, id: Option<nat>)

  datatype Loop = Accepting | Draining | Returned

  /**
   `conns` are the accepted connections by order of acceptance; `running` those whose handler has not returned;
   `log` the transactions that are over.
   */
  datatype State = State(
    window: Window, loop: Loop, cancelled: bool, conns: seq<MapConn>, running: set<nat>, waitGroup: int,
    log: seq<Outcome>)

  datatype Step =
    | Post(shared: Shared)
    | Cancel
    | Accept
    | StopAccepting
    | WaitReturns
    | HandlerReads(id: nat, room: nat)
    | HandlerWrites(id: nat, p: seq<byte>)
    | HandlerCloses(id: nat)
    | HandlerReturns(id: nat)

  const START := State(Idle, Accepting, false, [], {}, 0, [])

  predicate Serving(s: State, id: nat) {
    id in s.running && id < |s.conns|
  }

  predicate WaitsFor(s: State, id: nat) {
    s.window.Waiting? && s.window.id == id
  }

  /** How the transaction that this connection belongs to ends if it is closed now. */
  function Transaction(s: State, id: nat): Outcome
    requires s.window.Waiting? && id < |s.conns|
  {
    var (lResult, after) := Finish(s.window.shared, Answer(s.conns[id].w));
    Outcome(s.window.shared, lResult, after, Some(id))
  }

  /** A handler only returns after its deferred Close; closing an open connection is a rendezvous with the window. */
  function Next(s: State, step: Step): Option<State> {
    match step
    case Post(shared) =>
      if s.window != Idle then None
      else if Forwarded(shared).None? then Some(s.(log := s.log + [Outcome(shared, 0, shared, None)]))
      else Some(s.(window := Offering(shared)))
    case Cancel => Some(s.(cancelled := true))
    case Accept =>
      if s.window.Offering? && s.loop == Accepting && Forwarded(s.window.shared).Some? then
        Some(s.(window := Waiting(|s.conns|, s.window.shared),
                conns := s.conns + [Open(Forwarded(s.window.shared).value)],
                running := s.running + {|s.conns|}, waitGroup := s.waitGroup + 1))
      else None
    case StopAccepting => if s.loop == Accepting && s.cancelled then Some(s.(loop := Draining)) else None
    case WaitReturns => if s.loop == Draining && s.waitGroup == 0 then Some(s.(loop := Returned)) else None
    case HandlerReads(id, room) =>
      if Serving(s, id) then Some(s.(conns := s.conns[id := ReadConn(s.conns[id], room).0])) else None
    case HandlerWrites(id, p) =>
      if Serving(s, id) then Some(s.(conns := s.conns[id := WriteConn(s.conns[id], p).0])) else None
    case HandlerCloses(id) =>
      if !Serving(s, id) then None
      else if s.conns[id].closed then Some(s)
      else if WaitsFor(s, id) then
        Some(s.(conns := s.conns[id := CloseConn(s.conns[id]).0], window := Idle, log := s.log + [Transaction(s, id)]))
      else None
    case HandlerReturns(id) =>
      if Serving(s, id) && s.conns[id].closed
      then Some(s.(running := s.running - {id}, waitGroup := s.waitGroup - 1))
      else None
  }

  /** Connections keep their own invariant. */
  predicate ConnsValid(s: State) {
    forall id :: 0 <= id < |s.conns| ==> s.conns[id].Valid()
  }

  /** A connection is open exactly while the window waits for it. */
  predicate WindowOk(s: State) {
    && (forall id :: 0 <= id < |s.conns| ==> (!s.conns[id].closed <==> WaitsFor(s, id)))
    && (s.window.Waiting? ==> s.window.id < |s.conns|)
  }

  /** Whoever holds an open connection is running. */
  predicate OpenIsRunning(s: State) {
    forall id :: 0 <= id < |s.conns| && !s.conns[id].closed ==> id in s.running
  }

  /** The wait group counts the running handlers, and none is left once the loop has returned. */
  predicate CountsOf(conns: nat, running: set<nat>, waitGroup: int, loop: Loop) {
    && (forall id <- running :: id < conns)
    && waitGroup == |running|
    && (loop == Returned ==> running == {})
  }

  predicate Counts(s: State) {
    CountsOf(|s.conns|, s.running, s.waitGroup, s.loop)
  }

  /** How many of these transactions went to a connection. */
  function Answered(log: seq<Outcome>): nat {
    if log == [] then 0 else Answered(log[..|log| - 1]) + if log[|log| - 1].id.Some? then 1 else 0
  }

  predicate LogInOrder(log: seq<Outcome>) {
    forall k :: 0 <= k < |log| && log[k].id.Some? ==> log[k].id.value == Answered(log[..k])
  }

  /** Connections are answered one at a time, in the order of acceptance. */
  predicate InOrder(s: State) {
    && LogInOrder(s.log)
    && |s.conns| == Answered(s.log) + (if s.window.Waiting? then 1 else 0)
    && (s.window.Waiting? ==> s.window.id == Answered(s.log))
    && (s.window.Offering? ==> Forwarded(s.window.shared).Some?)
  }

  /** This transaction went as it should, given the connections. */
  predicate Settled(o: Outcome, conns: seq<MapConn>) {
    match o.id
    case None => Forwarded(o.before).None? && o.lResult == 0 && o.after == o.before
    case Some(id) =>
      && id < |conns| && conns[id].closed
      && Forwarded(o.before) == Some(conns[id].request)
      && (o.lResult, o.after) == Finish(o.before, Answer(conns[id].w))
  }

  predicate Logs(s: State) {
    && (forall k :: 0 <= k < |s.log| ==> Settled(s.log[k], s.conns))
    && (s.window.Waiting? && s.window.id < |s.conns| ==>
          Forwarded(s.window.shared) == Some(s.conns[s.window.id].request))
  }

  predicate Inv(s: State) {
    ConnsValid(s) && WindowOk(s) && OpenIsRunning(s) && Counts(s) && InOrder(s) && Logs(s)
  }

  /** A closed connection stays as it is, and no connection's request changes. */
  lemma NextKeepsClosed(s: State, step: Step, id: nat)
    requires Next(s, step).Some? && id < |s.conns|
    ensures var t := Next(s, step).value;
            && id < |t.conns| && t.conns[id].request == s.conns[id].request
            && (s.conns[id].closed ==> t.conns[id] == s.conns[id])
  {
  }

  lemma LogAppend(log: seq<Outcome>, o: Outcome)
    requires LogInOrder(log) && (o.id.Some? ==> o.id.value == Answered(log))
    ensures LogInOrder(log + [o]) && Answered(log + [o]) == Answered(log) + if o.id.Some? then 1 else 0
  {
    var longer := log + [o];
    assert longer[..|log|] == log;
    forall k | 0 <= k < |log| && longer[k].id.Some? ensures longer[k].id.value == Answered(longer[..k]) {
      assert longer[..k] == log[..k];
    }
  }

  lemma NextKeepsOrder(s: State, step: Step)
    requires InOrder(s) && Next(s, step).Some?
    ensures InOrder(Next(s, step).value)
  {
    match step
    case Post(shared) => LogAppend(s.log, Outcome(shared, 0, shared, None));
    case HandlerCloses(id) =>
      if WaitsFor(s, id) && Serving(s, id) {
        LogAppend(s.log, Transaction(s, id));
      }
    case _ =>
  }

  lemma NextKeepsLogs(s: State, step: Step)
    requires Logs(s) && WindowOk(s) && Next(s, step).Some?
    ensures Logs(Next(s, step).value)
  {
    var t := Next(s, step).value;
    forall k | 0 <= k < |s.log| ensures Settled(s.log[k], t.conns) {
      if s.log[k].id.Some? {
        NextKeepsClosed(s, step, s.log[k].id.value);
      }
    }
    if s.window.Waiting? {
      NextKeepsClosed(s, step, s.window.id);
    }
  }

  lemma NextKeepsWindow(s: State, step: Step)
    requires WindowOk(s) && Next(s, step).Some?
    ensures WindowOk(Next(s, step).value)
  {
  }

  lemma NextKeepsConns(s: State, step: Step)
    requires ConnsValid(s) && Next(s, step).Some?
    ensures ConnsValid(Next(s, step).value)
  {
    match step
    case HandlerReads(id, room) => ConnStepsKeepValid(s.conns[id], room, []);
    case HandlerWrites(id, p) => ConnStepsKeepValid(s.conns[id], 0, p);
    case HandlerCloses(id) => ConnStepsKeepValid(s.conns[id], 0, []);
    case _ =>
  }

  lemma NextKeepsRunning(s: State, step: Step)
    requires OpenIsRunning(s) && Next(s, step).Some?
    ensures OpenIsRunning(Next(s, step).value)
  {
  }

  /** Only accepting and returning change who is running. */
  lemma NextOnRunning(s: State, step: Step)
    requires Next(s, step).Some?
    ensures var t := Next(s, step).value;
            match step
            case Accept =>
              && |t.conns| == |s.conns| + 1 && t.running == s.running + {|s.conns|} && t.waitGroup == s.waitGroup + 1
              && t.loop == s.loop == Accepting
            case HandlerReturns(id) =>
              && |t.conns| == |s.conns| && id in s.running && t.running == s.running - {id}
              && t.waitGroup == s.waitGroup - 1 && t.loop == s.loop
            case _ =>
              && |t.conns| == |s.conns| && t.running == s.running && t.waitGroup == s.waitGroup
              && (t.loop == Returned ==> s.loop == Returned || s.waitGroup == 0)
  {
  }

  lemma NextKeepsCount(s: State, step: Step)
    requires Counts(s) && Next(s, step).Some?
    ensures Counts(Next(s, step).value)
  {
    NextOnRunning(s, step);
    assert |s.conns| !in s.running;
  }

  function Run(s: State, steps: seq<Step>): Option<State>
    decreases steps
  {
    if steps == [] then Some(s)
    else
      match Next(s, steps[0])
      case None => None
      case Some(t) => Run(t, steps[1..])
  }

  lemma {:induction false} RunKeepsInv(s: State, steps: seq<Step>)
    requires Inv(s) && Run(s, steps).Some?
    ensures Inv(Run(s, steps).value)
    decreases steps
  {
    if steps != [] {
      NextKeepsConns(s, steps[0]);
      NextKeepsWindow(s, steps[0]);
      NextKeepsRunning(s, steps[0]);
      NextKeepsCount(s, steps[0]);
      NextKeepsOrder(s, steps[0]);
      NextKeepsLogs(s, steps[0]);
      RunKeepsInv(Next(s, steps[0]).value, steps[1..]);
    }
  }

  /** What this handler writes before it closes. */
  function Written(steps: seq<Step>, id: nat): seq<byte> {
    if steps == [] || steps[0] == HandlerCloses(id) then []
    else WrittenBy(steps[0], id) + Written(steps[1..], id)
  }

  /** What has been written on a connection, nothing if it is still to come. */
  function WrittenSoFar(s: State, id: nat): seq<byte> {
    if id < |s.conns| then s.conns[id].w else []
  }

  predicate ClosedAt(s: State, id: nat) {
    id < |s.conns| && s.conns[id].closed
  }

  function WrittenBy(step: Step, id: nat): seq<byte> {
    if step.HandlerWrites? && step.id == id then step.p else []
  }

  /** One step as the connection sees it: these bytes written, and it closes if `closes`. */
  predicate Sees(s: State, t: State, id: nat, written: seq<byte>, closes: bool) {
    if ClosedAt(s, id) then ClosedAt(t, id) && WrittenSoFar(t, id) == WrittenSoFar(s, id)
    else WrittenSoFar(t, id) == WrittenSoFar(s, id) + written && (ClosedAt(t, id) <==> closes)
  }

  lemma NextOnConn(s: State, step: Step, id: nat)
    requires Next(s, step).Some?
    ensures Sees(s, Next(s, step).value, id, WrittenBy(step, id), step == HandlerCloses(id))
  {
  }

  lemma SeesThenWrites(s: State, mid: State, t: State, id: nat, written: seq<byte>, closes: bool, more: seq<byte>)
    requires Sees(s, mid, id, written, closes) && (closes ==> written == [])
    requires WrittenSoFar(t, id) == WrittenSoFar(mid, id) + if ClosedAt(mid, id) then [] else more
    ensures WrittenSoFar(t, id) == WrittenSoFar(s, id) + if ClosedAt(s, id) || closes then [] else written + more
  {
    assert WrittenSoFar(s, id) + (written + more) == WrittenSoFar(s, id) + written + more;
  }

  lemma {:induction false} RunCollectsWrites(s: State, steps: seq<Step>, id: nat)
    requires Run(s, steps).Some?
    ensures WrittenSoFar(Run(s, steps).value, id)
         == WrittenSoFar(s, id) + if ClosedAt(s, id) then [] else Written(steps, id)
    decreases steps
  {
    if steps == [] {
      assert WrittenSoFar(s, id) + [] == WrittenSoFar(s, id);
    } else {
      var mid := Next(s, steps[0]).value;
      NextOnConn(s, steps[0], id);
      RunCollectsWrites(mid, steps[1..], id);
      SeesThenWrites(s, mid, Run(mid, steps[1..]).value, id, WrittenBy(steps[0], id), steps[0] == HandlerCloses(id),
                     Written(steps[1..], id));
    }
  }

  lemma ReachedConnIsValid(steps: seq<Step>, id: nat)
    requires Run(START, steps).Some? && id < |Run(START, steps).value.conns|
    ensures Run(START, steps).value.conns[id].Valid()
  {
    RunKeepsInv(START, steps);
  }

  /**
   In every reachable state an accepted request has had no response while its connection is open and exactly
   one once it is closed: all that was written before the close, or none. Reads returned a prefix of it.
   */
  lemma ResponsesAreExact(steps: seq<Step>, id: nat)
    requires Run(START, steps).Some? && id < |Run(START, steps).value.conns|
    ensures var c := Run(START, steps).value.conns[id];
            && c.responses == (if c.closed then [Answer(Written(steps, id))] else [])
            && c.delivered <= c.request
  {
    ReachedConnIsValid(steps, id);
    RunCollectsWrites(START, steps, id);
    assert [] + Written(steps, id) == Written(steps, id);
    assert WrittenSoFar(Run(START, steps).value, id) == Written(steps, id);
  }

  /**
   Every transaction that is over left the client's bytes as it should, however the handlers interleaved: one that
   forwarded nothing changed nothing; any other went to the next connection in order, which was given the
   bytes the header announced, and what that connection's handler wrote before its close is the reply
   laid over the front, if it wrote anything and that fits.
   */
  lemma TransactionsAreExact(steps: seq<Step>, k: nat)
    requires Run(START, steps).Some? && k < |Run(START, steps).value.log|
    ensures var t := Run(START, steps).value;
            var o := t.log[k];
            match o.id
            case None => Forwarded(o.before).None? && o.lResult == 0 && o.after == o.before
            case Some(id) =>
              && id == Answered(t.log[..k]) < |t.conns|
              && Forwarded(o.before) == Some(t.conns[id].request)
              && (o.lResult, o.after) == Finish(o.before, Answer(Written(steps, id)))
  {
    RunKeepsInv(START, steps);
    var t := Run(START, steps).value;
    assert Settled(t.log[k], t.conns);
    if t.log[k].id.Some? {
      RunCollectsWrites(START, steps, t.log[k].id.value);
      assert [] + Written(steps, t.log[k].id.value) == Written(steps, t.log[k].id.value);
    }
  }

  lemma {:induction false} RunAppend(s: State, steps: seq<Step>, more: seq<Step>)
    requires Run(s, steps).Some?
    ensures Run(s, steps + more) == Run(Run(s, steps).value, more)
    decreases steps
  {
    if steps == [] {
      assert steps + more == more;
    } else {
      assert (steps + more)[1..] == steps[1..] + more;
      RunAppend(Next(s, steps[0]).value, steps[1..], more);
    }
  }

  lemma RunOne(s: State, step: Step, rest: seq<Step>)
    requires Next(s, step).Some?
    ensures Run(s, [step] + rest) == Run(Next(s, step).value, rest)
  {
    assert ([step] + rest)[1..] == rest;
  }

  /**
   A running handler is never held up: it can read what is left of its request, write, and close, a second Close
   changing nothing, and once closed it can return. Nor is a cancellation.
   */
  lemma HandlersNeverBlock(steps: seq<Step>, id: nat, room: nat, p: seq<byte>)
    requires Run(START, steps).Some? && id in Run(START, steps).value.running
    ensures var s := Run(START, steps).value;
            && id < |s.conns|
            && var c := s.conns[id];
               && Next(s, HandlerReads(id, room)) == Some(s.(conns := s.conns[id := ReadConn(c, room).0]))
               && Next(s, HandlerWrites(id, p)) == Some(s.(conns := s.conns[id := WriteConn(c, p).0]))
               && (c.closed ==> Next(s, HandlerCloses(id)) == Some(s))
               && (!c.closed ==> Next(s, HandlerCloses(id)).Some?)
               && (c.closed ==> Next(s, HandlerReturns(id)).Some?)
               && Next(s, Cancel) == Some(s.(cancelled := true))
  {
    RunKeepsInv(START, steps);
  }

  /** A client's request handled without interruption. */
  function Handled(id: nat, shared: Shared, p: seq<byte>): seq<Step> {
    [Post(shared)] + ([Accept] + ([HandlerWrites(id, p)] + ([HandlerCloses(id)] + [])))
  }

  lemma HandledRuns(s: State, shared: Shared, p: seq<byte>)
    requires s.window == Idle && s.loop == Accepting && Forwarded(shared).Some?
    requires forall id <- s.running :: id < |s.conns|
    ensures var id := |s.conns|;
            var (lResult, after) := Finish(shared, Answer(p));
            && Run(s, Handled(id, shared, p)).Some?
            && var t := Run(s, Handled(id, shared, p)).value;
               && t.window == Idle && t.loop == Accepting && |t.conns| == id + 1
               && t.conns[id].request == Forwarded(shared).value && t.conns[..id] == s.conns
               && t.log == s.log + [Outcome(shared, lResult, after, Some(id))]
  {
    var id := |s.conns|;
    var s1 := s.(window := Offering(shared));
    var s2 := Next(s1, Accept).value;
    var s3 := Next(s2, HandlerWrites(id, p)).value;
    assert s3.conns[id].w == [] + p == p;
    var s4 := Next(s3, HandlerCloses(id)).value;
    RunOne(s3, HandlerCloses(id), []);
    RunOne(s2, HandlerWrites(id, p), [HandlerCloses(id)] + []);
    RunOne(s1, Accept, [HandlerWrites(id, p)] + ([HandlerCloses(id)] + []));
    RunOne(s, Post(shared), [Accept] + ([HandlerWrites(id, p)] + ([HandlerCloses(id)] + [])));
    assert s4.conns[..id] == s.conns;
  }

  /**
   A request is served: from every reachable state in which the window is idle and the loop accepts, whatever
   is forwarded reaches a new handler, and whatever that handler writes becomes the outcome of this request.
   */
  lemma RequestIsServed(steps: seq<Step>, shared: Shared, p: seq<byte>)
    requires Run(START, steps).Some? && Forwarded(shared).Some?
    requires Run(START, steps).value.window == Idle && Run(START, steps).value.loop == Accepting
    ensures var s := Run(START, steps).value;
            var id := |s.conns|;
            var more := Handled(id, shared, p);
            && more == [Post(shared), Accept, HandlerWrites(id, p), HandlerCloses(id)]
            && Run(START, steps + more).Some?
            && var t := Run(START, steps + more).value;
               && |t.conns| == id + 1 && t.conns[..id] == s.conns
               && Some(t.conns[id].request) == Forwarded(shared)
               && t.log == s.log + [Outcome(shared, Finish(shared, Answer(p)).0, Finish(shared, Answer(p)).1, Some(id))]
               && t.window == Idle && t.loop == Accepting
  {
    RunKeepsInv(START, steps);
    HandledRuns(Run(START, steps).value, shared, p);
    RunAppend(START, steps, Handled(|Run(START, steps).value.conns|, shared, p));
  }

  /** In particular a client of the agent gets its result, in every such state. */
  lemma AgentClientIsServed(steps: seq<Step>, shared: Shared, agent: Agent)
    requires Run(START, steps).Some? && Forwarded(shared).Some?
    requires Run(START, steps).value.window == Idle && Run(START, steps).value.loop == Accepting
    ensures var s := Run(START, steps).value;
            var more := Handled(|s.conns|, shared, ServeOutput(Forwarded(shared).value, agent, 0));
            var (lResult, after) := AgentResult(shared, agent);
            && Run(START, steps + more).Some?
            && Run(START, steps + more).value.log == s.log + [Outcome(shared, lResult, after, Some(|s.conns|))]
  {
    RequestIsServed(steps, shared, ServeOutput(Forwarded(shared).value, agent, 0));
    AgentFinishes(shared, agent);
  }

  /** A request that is not forwarded is over at once, with nothing changed. */
  lemma RefusedAtOnce(steps: seq<Step>, shared: Shared)
    requires Run(START, steps).Some? && Run(START, steps).value.window == Idle && Forwarded(shared).None?
    ensures var s := Run(START, steps).value;
            Next(s, Post(shared)) == Some(s.(log := s.log + [Outcome(shared, 0, shared, None)]))
  {
  }

  /**
   After a cancellation the loop can always come to its end: the open connection is closed, the handlers return,
   and then Run returns.
   */
  lemma {:induction false} CanReturn(s: State) returns (more: seq<Step>)
    requires Inv(s) && s.cancelled && s.loop != Returned
    ensures Run(s, more).Some? && Run(s, more).value.loop == Returned
    decreases |s.running|, s.loop != Draining, s.window.Waiting?
  {
    var step: Step;
    if s.window.Waiting? {
      step := HandlerCloses(s.window.id);
    } else if s.loop == Accepting {
      step := StopAccepting;
    } else if s.running != {} {
      var id :| id in s.running;
      step := HandlerReturns(id);
    } else {
      RunOne(s, WaitReturns, []);
      more := [WaitReturns] + [];
      return;
    }
    var t := Next(s, step).value;
    assert Run(s, [step]) == Some(t) by {
      RunOne(s, step, []);
      assert [step] == [step] + [];
    }
    RunKeepsInv(s, [step]);
    var rest := CanReturn(t);
    RunOne(s, step, rest);
    more := [step] + rest;
  }

  /** If this transaction went to a handler, it wrote what the agent server writes for the forwarded bytes. */
  predicate ServedBy(o: Outcome, steps: seq<Step>, agent: Agent) {
    o.id.Some? && Forwarded(o.before).Some? ==>
      Written(steps, o.id.value) == ServeOutput(Forwarded(o.before).value, agent, 0)
  }

  /**
   What a client of the agent gets: with a header of 1 to 8188 and a reply that fits, the result 1 and the framed
   reply in front of its bytes; else 0 and its bytes untouched.
   */
  function AgentResult(shared: Shared, agent: Agent): (nat, Shared) {
    var h := BE32(shared);
    if 1 <= h <= 8188 && |agent(0, shared[4..h + 4])| <= 8188
    then (1, Overlaid(shared, Encode(agent(0, shared[4..h + 4]))))
    else (0, shared)
  }

  lemma AgentFinishes(shared: Shared, agent: Agent)
    requires Forwarded(shared).Some?
    ensures Finish(shared, Served(agent)(Forwarded(shared).value)) == AgentResult(shared, agent)
  {
    HeaderDecides(shared, agent);
  }

  lemma AgentSettles(o: Outcome, written: seq<byte>, agent: Agent)
    requires match o.id
             case None => Forwarded(o.before).None? && o.lResult == 0 && o.after == o.before
             case Some(_) =>
               && Forwarded(o.before).Some? && (o.lResult, o.after) == Finish(o.before, Answer(written))
               && written == ServeOutput(Forwarded(o.before).value, agent, 0)
    ensures (o.lResult, o.after) == AgentResult(o.before, agent)
  {
    if o.id.Some? {
      AgentFinishes(o.before, agent);
      assert Served(agent)(Forwarded(o.before).value) == Answer(written);
    }
  }

  /** With handlers that serve the agent, every finished transaction has that result, in any interleaving. */
  lemma AgentTransactionsAreExact(steps: seq<Step>, k: nat, agent: Agent)
    requires Run(START, steps).Some? && k < |Run(START, steps).value.log|
    requires ServedBy(Run(START, steps).value.log[k], steps, agent)
    ensures var o := Run(START, steps).value.log[k];
            (o.lResult, o.after) == AgentResult(o.before, agent)
  {
    TransactionsAreExact(steps, k);
    var o := Run(START, steps).value.log[k];
    AgentSettles(o, if o.id.Some? then Written(steps, o.id.value) else [], agent);
  }

  lemma {:induction false} AnsweredHas(log: seq<Outcome>, id: nat) returns (k: nat)
    requires id < Answered(log)
    ensures k < |log| && log[k].id.Some? && Answered(log[..k]) == id
  {
    var front := log[..|log| - 1];
    if id < Answered(front) {
      k := AnsweredHas(front, id);
      assert log[..k] == front[..k];
    } else {
      k := |log| - 1;
    }
  }

  /** And every connection that is closed had its transaction: none is lost, none is answered out of turn. */
  lemma ClosedHasTransaction(steps: seq<Step>, id: nat) returns (k: nat)
    requires Run(START, steps).Some? && ClosedAt(Run(START, steps).value, id)
    ensures var t := Run(START, steps).value;
            k < |t.log| && t.log[k].id == Some(id)
  {
    RunKeepsInv(START, steps);
    var t := Run(START, steps).value;
    assert id != Answered(t.log) || !t.window.Waiting?;
    k := AnsweredHas(t.log, id);
  }

  /** The run loop returns only when every accepted request has been answered. */
  lemma ReturnsAfterAnswering(steps: seq<Step>)
    requires Run(START, steps).Some? && Run(START, steps).value.loop == Returned
    ensures var t := Run(START, steps).value;
            forall id :: 0 <= id < |t.conns| ==> t.conns[id].responses == [Answer(t.conns[id].w)]
  {
    RunKeepsInv(START, steps);
  }

  /** An accepted request can always be answered: its handler's Close is never blocked on the window. */
  lemma CloseNeverBlocks(steps: seq<Step>, id: nat)
    requires Run(START, steps).Some? && id < |Run(START, steps).value.conns|
    ensures var t := Run(START, steps).value;
            !t.conns[id].closed ==>
              && Inv(t)
              && Next(t, HandlerCloses(id)).Some?
              && Next(t, HandlerCloses(id)).value.window == Idle
  {
    RunKeepsInv(START, steps);
  }
}
