/**
 The relay between standard input/output and a named pipe: two copy loops running concurrently, the
 flags that end the process early, and the drain timeout, as a transition system whose steps may be
 taken in any order the two goroutines and the environment allow.
 */
module Relay {
  import opened Bytes
  import opened Wrappers

  const STDIN_DRAIN_TIMEOUT: nat := 5_000_000_000  // nanoseconds

  // ---------------------------------------------------------------- one copy loop

  /** What a Read reports besides its bytes. */
  datatype ReadEnd = More | End | Broken

  /** Where a copy loop stands: in a Read, in a Write of which `held` is not out yet, or past a clean end. */
  datatype CopyAt = Reading | Writing(held: seq<byte>, end: ReadEnd) | Copied

  datatype Copier = Copier(at: CopyAt, taken: seq<byte>, delivered: seq<byte>) {
    function Held(): seq<byte> {
      if at.Writing? then at.held else []
    }

    /** Everything taken from the source is delivered or held by the loop right now. */
    predicate Conserves() {
      taken == delivered + Held()
    }
  }

  /** A read returning; bytes reaching the destination during a Write; that Write returning well or badly. */
  datatype CopyEvent = Reads(chunk: seq<byte>, end: ReadEnd) | Pushes(n: nat) | WriteReturns | WriteFails

  datatype CopyOutcome = Goes(copier: Copier) | Fails(copier: Copier)

  function After(c: Copier, end: ReadEnd): CopyOutcome {
    match end
    case More => Goes(c.(at := Reading))
    case End => Goes(c.(at := Copied))
    case Broken => Fails(c.(at := Reading))
  }

  /** One event of `io.Copy`; None when it cannot happen here. */
  function CopyNext(c: Copier, e: CopyEvent): Option<CopyOutcome> {
    match (c.at, e)
    case (Reading, Reads(chunk, end)) =>
      if chunk == [] then Some(After(c, end))
      else Some(Goes(c.(at := Writing(chunk, end), taken := c.taken + chunk)))
    case (Writing(held, end), Pushes(n)) =>
      if 0 < n <= |held|
      then Some(Goes(c.(at := Writing(held[n..], end), delivered := c.delivered + held[..n])))
      else None
    case (Writing(held, end), WriteReturns) => if held == [] then Some(After(c, end)) else None
    case (Writing(held, end), WriteFails) => Some(Fails(c))
    case _ => None
  }

  lemma CopyNextConserves(c: Copier, e: CopyEvent)
    requires c.Conserves() && CopyNext(c, e).Some?
    ensures CopyNext(c, e).value.copier.Conserves()
    ensures CopyNext(c, e).value.copier.taken == c.taken + if e.Reads? then e.chunk else []
    ensures CopyNext(c, e).value.copier.delivered == c.delivered + if e.Pushes? then c.at.held[..e.n] else []
    ensures CopyNext(c, e).value.copier.at.Copied? ==> CopyNext(c, e).value.copier.Held() == []
  {
    if e.Pushes? {
      var held := c.at.held;
      assert c.delivered + held == c.delivered + held[..e.n] + held[e.n..];
    }
  }

  // ---------------------------------------------------------------- the process

  datatype Flags = Flags(closeWrite: bool, exitOnPipeEOF: bool, exitOnStdinEOF: bool, pipeHalfCloses: bool)

  /** The stdin goroutine after its copy: half-close, decide about -ei, signal. */
  datatype UpPhase = UpCopying | UpHalfClosing | UpDeciding | UpSignalled

  /** The main goroutine after its copy: decide about -ep, close stdout, wait for stdin or the timer. */
  datatype MainPhase = MainCopying | MainDeciding | MainClosing | MainWaiting(deadline: nat)

  datatype Ending = Running | StdinDone | DrainTimedOut | ExitOnStdinEOF | ExitOnPipeEOF | FatalUp | FatalDown

  datatype PipeOp = PipeWrite(bytes: seq<byte>) | CloseWrite

  datatype State = State(
    up: Copier, down: Copier, upPhase: UpPhase, mainPhase: MainPhase, ending: Ending,
    pipeOps: seq<PipeOp>, stdoutOpen: bool, clock: nat)

  datatype Step =
    | Up(e: CopyEvent)      // the stdin goroutine copies
    | UpHalfClose           // ... handles -s
    | UpDecide              // ... exits under -ei, or signals stdinDone
    | Down(e: CopyEvent)    // the main goroutine copies
    | MainDecide            // ... exits under -ep, or goes on
    | MainClose             // ... closes stdout and starts the timer
    | MainSeesStdinDone     // ... returns
    | MainTimesOut          // ... returns
    | Tick(d: nat)          // model time passes

  const START_COPIER := Copier(Reading, [], [])

  function Start(now: nat): State {
    State(START_COPIER, START_COPIER, UpCopying, MainCopying, Running, [], true, now)
  }

  /** Time does not pass while the main goroutine has an instruction to run, nor beyond its timer. */
  predicate MayTick(s: State, d: nat) {
    match s.mainPhase
    case MainCopying => true
    case MainWaiting(deadline) => s.clock + d <= deadline
    case _ => false
  }

  function Next(f: Flags, s: State, step: Step): Option<State> {
    if s.ending != Running then None
    else
      match step
      case Up(e) =>
        if s.upPhase != UpCopying then None
        else (match CopyNext(s.up, e)
              case None => None
              case Some(Fails(c)) => Some(s.(up := c, ending := FatalUp))
              case Some(Goes(c)) =>
                Some(s.(up := c,
                        upPhase := if c.at.Copied? then UpHalfClosing else UpCopying,
                        pipeOps := if e.Pushes? then s.pipeOps + [PipeWrite(s.up.at.held[..e.n])] else s.pipeOps)))
      case UpHalfClose =>
        if s.upPhase != UpHalfClosing then None
        else Some(s.(upPhase := UpDeciding,
                     pipeOps := if f.closeWrite && f.pipeHalfCloses then s.pipeOps + [CloseWrite] else s.pipeOps))
      case UpDecide =>
        if s.upPhase != UpDeciding then None
        else if f.exitOnStdinEOF then Some(s.(ending := ExitOnStdinEOF))
        else Some(s.(upPhase := UpSignalled))
      case Down(e) =>
        if s.mainPhase != MainCopying then None
        else (match CopyNext(s.down, e)
              case None => None
              case Some(Fails(c)) => Some(s.(down := c, ending := FatalDown))
              case Some(Goes(c)) =>
                Some(s.(down := c, mainPhase := if c.at.Copied? then MainDeciding else MainCopying)))
      case MainDecide =>
        if s.mainPhase != MainDeciding then None
        else if f.exitOnPipeEOF then Some(s.(ending := ExitOnPipeEOF))
        else Some(s.(mainPhase := MainClosing))
      case MainClose =>
        if s.mainPhase != MainClosing then None
        else Some(s.(mainPhase := MainWaiting(s.clock + STDIN_DRAIN_TIMEOUT), stdoutOpen := false))
      case MainSeesStdinDone =>
        if s.mainPhase.MainWaiting? && s.upPhase == UpSignalled then Some(s.(ending := StdinDone)) else None
      case MainTimesOut =>
        if s.mainPhase.MainWaiting? && s.clock >= s.mainPhase.deadline then Some(s.(ending := DrainTimedOut)) else None
      case Tick(d) =>
        if d > 0 && MayTick(s, d) then Some(s.(clock := s.clock + d)) else None
  }

  /** The state a schedule leads to; None when some step of it cannot happen. */
  function Run(f: Flags, s: State, steps: seq<Step>): Option<State>
    decreases steps
  {
    if steps == [] then Some(s)
    else
      match Next(f, s, steps[0])
      case None => None
      case Some(t) => Run(f, t, steps[1..])
  }

  // ---------------------------------------------------------------- what every step keeps

  function PipeBytes(ops: seq<PipeOp>): seq<byte> {
    if ops == [] then [] else PipeBytes(ops[..|ops| - 1]) + match ops[|ops| - 1]
                                                           case PipeWrite(b) => b
                                                           case CloseWrite => []
  }

  /** -s was asked for and this pipe can honour it. */
  predicate HalfCloses(f: Flags) {
    f.closeWrite && f.pipeHalfCloses
  }

  /** Conservation in both directions, and everything delivered upward is on the pipe's record. */
  predicate Flows(s: State) {
    s.up.Conserves() && s.down.Conserves() && PipeBytes(s.pipeOps) == s.up.delivered
  }

  /** Each goroutine leaves its copy loop exactly at a clean end; stdout is open until the wait begins. */
  predicate InPhase(s: State) {
    && (s.upPhase != UpCopying <==> s.up.at.Copied?)
    && (s.mainPhase != MainCopying <==> s.down.at.Copied?)
    && (s.stdoutOpen <==> !s.mainPhase.MainWaiting?)
  }

  /** The close-write marker is the last pipe operation, present exactly once that step is behind the goroutine. */
  predicate MarksLast(f: Flags, s: State) {
    && (forall i :: 0 <= i < |s.pipeOps| - 1 ==> s.pipeOps[i] != CloseWrite)
    && (CloseWrite in s.pipeOps <==> HalfCloses(f) && (s.upPhase == UpDeciding || s.upPhase == UpSignalled))
  }

  /** How the process may have ended, and how far its timer may have run. */
  predicate EndsRightly(f: Flags, s: State) {
    && (s.mainPhase == MainClosing || s.mainPhase.MainWaiting? ==> !f.exitOnPipeEOF)
    && (s.upPhase == UpSignalled ==> !f.exitOnStdinEOF)
    && (s.mainPhase.MainWaiting? ==> s.clock <= s.mainPhase.deadline <= s.clock + STDIN_DRAIN_TIMEOUT)
    && match s.ending
       case Running => true
       case StdinDone => s.upPhase == UpSignalled && s.mainPhase.MainWaiting?
       case DrainTimedOut => s.mainPhase.MainWaiting? && s.clock == s.mainPhase.deadline
       case ExitOnStdinEOF => s.upPhase == UpDeciding && f.exitOnStdinEOF
       case ExitOnPipeEOF => s.mainPhase == MainDeciding && f.exitOnPipeEOF
       case FatalUp => s.upPhase == UpCopying
       case FatalDown => s.mainPhase == MainCopying
  }

  predicate Inv(f: Flags, s: State) {
    Flows(s) && InPhase(s) && MarksLast(f, s) && EndsRightly(f, s)
  }

  lemma PipeBytesAppend(ops: seq<PipeOp>, op: PipeOp)
    ensures PipeBytes(ops + [op]) == PipeBytes(ops) + if op.PipeWrite? then op.bytes else []
  {
    assert (ops + [op])[..|ops|] == ops;
  }

  lemma NextKeepsFlows(f: Flags, s: State, step: Step)
    requires Flows(s) && Next(f, s, step).Some?
    ensures Flows(Next(f, s, step).value)
  {
    match step
    case Up(e) =>
      CopyNextConserves(s.up, e);
      if e.Pushes? {
        PipeBytesAppend(s.pipeOps, PipeWrite(s.up.at.held[..e.n]));
      }
    case Down(e) => CopyNextConserves(s.down, e);
    case UpHalfClose => PipeBytesAppend(s.pipeOps, CloseWrite);
    case _ =>
  }

  lemma NextKeepsPhase(f: Flags, s: State, step: Step)
    requires InPhase(s) && Next(f, s, step).Some?
    ensures InPhase(Next(f, s, step).value)
  {
  }

  lemma NextKeepsMark(f: Flags, s: State, step: Step)
    requires MarksLast(f, s) && Next(f, s, step).Some?
    ensures MarksLast(f, Next(f, s, step).value)
  {
    var t := Next(f, s, step).value;
    if step.Up? && step.e.Pushes? {
      assert CloseWrite !in s.pipeOps;
    }
  }

  lemma NextKeepsEndings(f: Flags, s: State, step: Step)
    requires EndsRightly(f, s) && Next(f, s, step).Some?
    ensures EndsRightly(f, Next(f, s, step).value)
  {
  }

  lemma {:induction false} RunKeepsInv(f: Flags, s: State, steps: seq<Step>)
    requires Inv(f, s) && Run(f, s, steps).Some?
    ensures Inv(f, Run(f, s, steps).value)
    decreases steps
  {
    if steps != [] {
      NextKeepsFlows(f, s, steps[0]);
      NextKeepsPhase(f, s, steps[0]);
      NextKeepsMark(f, s, steps[0]);
      NextKeepsEndings(f, s, steps[0]);
      RunKeepsInv(f, Next(f, s, steps[0]).value, steps[1..]);
    }
  }
}
