/** The relay's own loops: dialling until the outcome is final, and the copy loop its transition system abstracts. */
module RelayLoops {
  import opened Bytes
  import opened Wrappers
  import opened Relay

  // ---------------------------------------------------------------- dialling

  const POLL_INTERVAL: nat := 200_000_000  // nanoseconds

  datatype DialOutcome = Connected(conn: nat) | NotExist | TimedOut | DialFailed(code: nat)

  /**
   Returns the first outcome that is not worth another attempt, having slept once per earlier one;
   None while every outcome so far asked for a retry.
   */
  method DialPipeWithPoll(outcomes: seq<DialOutcome>, poll: bool) returns (result: Option<DialOutcome>, slept: nat)
    ensures result.Some? ==>
              exists i :: 0 <= i < |outcomes| && result == Some(outcomes[i])
                          && (poll ==> outcomes[i] != NotExist && outcomes[i] != TimedOut)
                          && slept == i * 200_000_000
                          && forall j :: 0 <= j < i ==> poll && (outcomes[j] == NotExist || outcomes[j] == TimedOut)
    ensures result.None? ==> forall outcome <- outcomes :: poll && (outcome == NotExist || outcome == TimedOut)
    ensures !poll && outcomes != [] ==> result == Some(outcomes[0]) && slept == 0
  {
    slept := 0;
    var i := 0;
    while i < |outcomes|
      invariant 0 <= i <= |outcomes| && slept == i * 200_000_000
      invariant forall j :: 0 <= j < i ==> poll && (outcomes[j] == NotExist || outcomes[j] == TimedOut)
    {
      if outcomes[i].Connected? {
        return Some(outcomes[i]), slept;
      }
      if poll && (outcomes[i] == NotExist || outcomes[i] == TimedOut) {
        slept := slept + POLL_INTERVAL;
        i := i + 1;
        continue;
      }
      return Some(outcomes[i]), slept;
    }
    return None, slept;
  }

  // ---------------------------------------------------------------- copying

  datatype SourceRead = SourceRead(chunk: seq<byte>, end: ReadEnd)

  function Chunks(answers: seq<SourceRead>): seq<byte> {
    if answers == [] then [] else Chunks(answers[..|answers| - 1]) + answers[|answers| - 1].chunk
  }

  /** The chunks in order: nothing of none, one of one, and one after the other. */
  lemma {:induction false} ChunksInOrder(first: seq<SourceRead>, answer: SourceRead, after: seq<SourceRead>)
    ensures Chunks([]) == [] && Chunks([answer]) == answer.chunk
    ensures Chunks(first + after) == Chunks(first) + Chunks(after)
    decreases after
  {
    assert [answer][..0] == [];
    if after == [] {
      assert first + after == first;
    } else {
      var front := after[..|after| - 1];
      ChunksInOrder(first, answer, front);
      assert (first + after)[..|first + after| - 1] == first + front;
      Regroup(Chunks(first), Chunks(front), after[|after| - 1].chunk);
    }
  }

  /** A run of copy events from one loop state; a failure is its last event. */
  function RunCopy(c: Copier, events: seq<CopyEvent>): Option<CopyOutcome>
    decreases events
  {
    if events == [] then Some(Goes(c))
    else
      match CopyNext(c, events[0])
      case None => None
      case Some(Fails(d)) => if |events| == 1 then Some(Fails(d)) else None
      case Some(Goes(d)) => RunCopy(d, events[1..])
  }

  lemma {:induction false} RunCopyAppend(c: Copier, events: seq<CopyEvent>, e: CopyEvent)
    requires RunCopy(c, events).Some? && RunCopy(c, events).value.Goes?
    ensures RunCopy(c, events + [e]) == CopyNext(RunCopy(c, events).value.copier, e)
    decreases events
  {
    if events == [] {
      assert events + [e] == [e];
    } else {
      assert (events + [e])[1..] == events[1..] + [e];
      RunCopyAppend(CopyNext(c, events[0]).value.copier, events[1..], e);
    }
  }

  datatype CopyResult = Finished | Fatal | Blocked

  /**
   `copyOrFatal` from a source that gives these answers and then blocks, to a destination with this much
   room. Every read up to the n-th was taken; unless the copy is fatal all of it was written, and a
   clean finish is a read that met the end with everything fitting. The loop is a run of copy events.
   */
  method CopyOrFatal(answers: seq<SourceRead>, room: nat)
    returns (written: seq<byte>, n: nat, result: CopyResult, ghost events: seq<CopyEvent>)
    ensures n <= |answers| && |written| <= room && written <= Chunks(answers[..n])
    ensures result != Fatal ==> written == Chunks(answers[..n])
    ensures result == Finished <==> n > 0 && answers[n - 1].end == End && |Chunks(answers[..n])| <= room
    ensures forall i :: 0 <= i < n - 1 ==> answers[i].end == More
    ensures result == Fatal <==> n > 0 && (|Chunks(answers[..n])| > room || answers[n - 1].end == Broken)
    ensures result == Fatal ==> |written| == Min(|Chunks(answers[..n])|, room)
    ensures result == Blocked ==> n == |answers| && (n > 0 ==> answers[n - 1].end == More)
    ensures RunCopy(START_COPIER, events).Some?
    ensures var outcome := RunCopy(START_COPIER, events).value;
            && outcome.copier.taken == Chunks(answers[..n]) && outcome.copier.delivered == written
            && (outcome.Fails? <==> result == Fatal)
            && (outcome.copier.at.Copied? <==> result == Finished)
  {
    written, n, events := [], 0, [];
    while n < |answers|
      invariant n <= |answers| && |written| <= room
      invariant written == Chunks(answers[..n])
      invariant forall i :: 0 <= i < n ==> answers[i].end == More
      invariant RunCopy(START_COPIER, events) == Some(Goes(Copier(Reading, written, written)))
    {
      var chunk, end := answers[n].chunk, answers[n].end;
      n := n + 1;
      assert answers[..n][..n - 1] == answers[..n - 1];
      assert Chunks(answers[..n]) == written + chunk;
      RunCopyAppend(START_COPIER, events, Reads(chunk, end));
      events := events + [Reads(chunk, end)];
      if chunk != [] {
        var nw := Min(|chunk|, room - |written|);
        if nw > 0 {
          RunCopyAppend(START_COPIER, events, Pushes(nw));
          events := events + [Pushes(nw)];
        }
        ghost var before := written;
        written := written + chunk[..nw];
        if nw < |chunk| {
          RunCopyAppend(START_COPIER, events, WriteFails);
          events := events + [WriteFails];
          return written, n, Fatal, events;
        }
        assert written == before + chunk;
        RunCopyAppend(START_COPIER, events, WriteReturns);
        events := events + [WriteReturns];
      }
      match end {
        case More =>
        case End => return written, n, Finished, events;
        case Broken => return written, n, Fatal, events;
      }
    }
    result := Blocked;
  }
}
