/** What every schedule of the relay guarantees: conservation, endings, the close-write marker, bounded exit. */
module RelayProperties {
  import opened Bytes
  import opened Wrappers
  import opened Relay

  // ---------------------------------------------------------------- conservation over a schedule

  datatype Side = Upward | Downward

  function CopierOf(s: State, side: Side): Copier {
    if side == Upward then s.up else s.down
  }

  /** The copy event of this side that a step performs, if any. */
  function EventOf(step: Step, side: Side): Option<CopyEvent> {
    match step
    case Up(e) => if side == Upward then Some(e) else None
    case Down(e) => if side == Downward then Some(e) else None
    case _ => None
  }

  function ChunkOf(step: Step, side: Side): seq<byte> {
    var e := EventOf(step, side);
    if e.Some? && e.value.Reads? then e.value.chunk else []
  }

  /** Everything the environment handed to this side's reads, in order. */
  function BytesRead(steps: seq<Step>, side: Side): seq<byte> {
    if steps == [] then [] else ChunkOf(steps[0], side) + BytesRead(steps[1..], side)
  }

  /** The chunk this side read last, `before` if none. */
  function LastChunk(before: seq<byte>, steps: seq<Step>, side: Side): seq<byte>
    decreases steps
  {
    if steps == [] then before
    else LastChunk(Latest(before, steps[0], side), steps[1..], side)
  }

  predicate ReadsToEnd(step: Step, side: Side) {
    var e := EventOf(step, side);
    e.Some? && e.value.Reads? && e.value.end == End
  }

  predicate SawEOF(steps: seq<Step>, side: Side) {
    exists i :: 0 <= i < |steps| && ReadsToEnd(steps[i], side)
  }

  predicate IsSuffix(a: seq<byte>, b: seq<byte>) {
    |a| <= |b| && b[|b| - |a|..] == a
  }

  /** The read that met the end is behind this loop. */
  predicate PastEnd(c: Copier) {
    c.at.Copied? || (c.at.Writing? && c.at.end == End)
  }

  /** A loop moved from c to d by reading these bytes, `chunk` being the last one, and the end if `eof`. */
  predicate Takes(c: Copier, d: Copier, read: seq<byte>, chunk: seq<byte>, eof: bool) {
    && d.taken == c.taken + read
    && IsSuffix(d.Held(), chunk)
    && (PastEnd(d) ==> PastEnd(c) || eof)
  }

  function Latest(before: seq<byte>, step: Step, side: Side): seq<byte> {
    if ChunkOf(step, side) == [] then before else ChunkOf(step, side)
  }

  lemma CopyNextTakes(c: Copier, e: CopyEvent, chunk: seq<byte>)
    requires CopyNext(c, e).Some? && IsSuffix(c.Held(), chunk)
    ensures var read := if e.Reads? then e.chunk else [];
            Takes(c, CopyNext(c, e).value.copier, read, if read == [] then chunk else read, e.Reads? && e.end == End)
  {
  }

  lemma NextTakes(f: Flags, s: State, step: Step, side: Side, chunk: seq<byte>)
    requires Next(f, s, step).Some? && IsSuffix(CopierOf(s, side).Held(), chunk)
    ensures Takes(CopierOf(s, side), CopierOf(Next(f, s, step).value, side), ChunkOf(step, side),
                  Latest(chunk, step, side), ReadsToEnd(step, side))
  {
    var e := EventOf(step, side);
    if e.Some? {
      CopyNextTakes(CopierOf(s, side), e.value, chunk);
    }
  }

  lemma {:induction false} RunTakes(f: Flags, s: State, steps: seq<Step>, side: Side, chunk: seq<byte>)
    requires Run(f, s, steps).Some? && IsSuffix(CopierOf(s, side).Held(), chunk)
    ensures Takes(CopierOf(s, side), CopierOf(Run(f, s, steps).value, side), BytesRead(steps, side),
                  LastChunk(chunk, steps, side), SawEOF(steps, side))
    decreases steps
  {
    if steps != [] {
      var mid := Next(f, s, steps[0]).value;
      var latest := Latest(chunk, steps[0], side);
      NextTakes(f, s, steps[0], side, chunk);
      RunTakes(f, mid, steps[1..], side, latest);
      if SawEOF(steps[1..], side) {
        var i :| 0 <= i < |steps[1..]| && ReadsToEnd(steps[1..][i], side);
        assert ReadsToEnd(steps[i + 1], side);
      }
      TakesCompose(CopierOf(s, side), CopierOf(mid, side), CopierOf(Run(f, mid, steps[1..]).value, side),
                   ChunkOf(steps[0], side), latest, ReadsToEnd(steps[0], side),
                   BytesRead(steps[1..], side), LastChunk(latest, steps[1..], side), SawEOF(steps[1..], side));
    }
  }

  lemma TakesCompose(c: Copier, d: Copier, e: Copier, read: seq<byte>, chunk: seq<byte>, eof: bool,
                     more: seq<byte>, moreChunk: seq<byte>, moreEof: bool)
    requires Takes(c, d, read, chunk, eof) && Takes(d, e, more, moreChunk, moreEof)
    ensures Takes(c, e, read + more, moreChunk, eof || moreEof)
  {
    assert c.taken + read + more == c.taken + (read + more);
  }

  /**
   Conservation in every reachable state, stopped or not: on each side the bytes delivered are a prefix
   of the bytes read, and what is missing is a part of the last chunk, held by that side's copy loop.
   */
  lemma RelayConserves(f: Flags, now: nat, steps: seq<Step>, side: Side)
    requires Run(f, Start(now), steps).Some?
    ensures var c := CopierOf(Run(f, Start(now), steps).value, side);
            && c.delivered <= BytesRead(steps, side)
            && c.delivered + c.Held() == BytesRead(steps, side)
            && IsSuffix(c.Held(), LastChunk([], steps, side))
  {
    RunKeepsInv(f, Start(now), steps);
    RunTakes(f, Start(now), steps, side, []);
    var c := CopierOf(Run(f, Start(now), steps).value, side);
    assert [] + BytesRead(steps, side) == BytesRead(steps, side);
    assert c.Conserves();
  }

  /** A side that is done has read up to its end of file and delivered every byte of it. */
  predicate Drained(f: Flags, now: nat, steps: seq<Step>, side: Side)
    requires Run(f, Start(now), steps).Some?
  {
    && SawEOF(steps, side)
    && CopierOf(Run(f, Start(now), steps).value, side).delivered == BytesRead(steps, side)
  }

  lemma CopiedIsDrained(f: Flags, now: nat, steps: seq<Step>, side: Side)
    requires Run(f, Start(now), steps).Some?
    requires CopierOf(Run(f, Start(now), steps).value, side).at.Copied?
    ensures Drained(f, now, steps, side)
  {
    RelayConserves(f, now, steps, side);
    RunTakes(f, Start(now), steps, side, []);
  }

  /** Returning because stdin is done loses nothing in either direction, whatever the interleaving. */
  lemma NormalEndIsLossless(f: Flags, now: nat, steps: seq<Step>)
    requires Run(f, Start(now), steps).Some? && Run(f, Start(now), steps).value.ending == StdinDone
    ensures Drained(f, now, steps, Upward) && Drained(f, now, steps, Downward)
  {
    RunKeepsInv(f, Start(now), steps);
    CopiedIsDrained(f, now, steps, Upward);
    CopiedIsDrained(f, now, steps, Downward);
  }

  /** The early exits are lossless on the side whose end of file caused them. */
  lemma EarlyExitsDrainOneSide(f: Flags, now: nat, steps: seq<Step>)
    requires Run(f, Start(now), steps).Some?
    ensures var ending := Run(f, Start(now), steps).value.ending;
            && (ending == ExitOnStdinEOF ==> Drained(f, now, steps, Upward))
            && (ending == ExitOnPipeEOF || ending == DrainTimedOut ==> Drained(f, now, steps, Downward))
  {
    RunKeepsInv(f, Start(now), steps);
    var t := Run(f, Start(now), steps).value;
    if t.ending == ExitOnStdinEOF {
      CopiedIsDrained(f, now, steps, Upward);
    } else if t.ending == ExitOnPipeEOF || t.ending == DrainTimedOut {
      CopiedIsDrained(f, now, steps, Downward);
    }
  }

  // ---------------------------------------------------------------- each other exit can lose a chunk

  lemma RunCons(f: Flags, s: State, step: Step, rest: seq<Step>)
    requires Next(f, s, step).Some?
    ensures Run(f, s, [step] + rest) == Run(f, Next(f, s, step).value, rest)
  {
    assert ([step] + rest)[1..] == rest;
  }

  /** Under -ei a chunk from the pipe can be read and never reach stdout. */
  lemma StdinExitCanLose(f: Flags, now: nat) returns (steps: seq<Step>)
    requires f.exitOnStdinEOF
    ensures Run(f, Start(now), steps).Some?
    ensures var t := Run(f, Start(now), steps).value; t.ending == ExitOnStdinEOF && t.down.Held() != []
  {
    var s1 := Next(f, Start(now), Down(Reads([1], More))).value;
    var s2 := Next(f, s1, Up(Reads([], End))).value;
    var s3 := Next(f, s2, UpHalfClose).value;
    RunCons(f, s3, UpDecide, []);
    RunCons(f, s2, UpHalfClose, [UpDecide] + []);
    RunCons(f, s1, Up(Reads([], End)), [UpHalfClose] + ([UpDecide] + []));
    RunCons(f, Start(now), Down(Reads([1], More)), [Up(Reads([], End))] + ([UpHalfClose] + ([UpDecide] + [])));
    steps := [Down(Reads([1], More))] + ([Up(Reads([], End))] + ([UpHalfClose] + ([UpDecide] + [])));
  }

  /** A chunk read from stdin, then the pipe's end of file. */
  function CaughtHolding(now: nat): State {
    Start(now).(up := Copier(Writing([1], More), [] + [1], []), down := Copier(Copied, [], []),
                mainPhase := MainDeciding)
  }

  lemma ReachCaughtHolding(f: Flags, now: nat, rest: seq<Step>)
    ensures Run(f, Start(now), [Up(Reads([1], More))] + ([Down(Reads([], End))] + rest))
         == Run(f, CaughtHolding(now), rest)
  {
    var s1 := Next(f, Start(now), Up(Reads([1], More))).value;
    RunCons(f, s1, Down(Reads([], End)), rest);
    RunCons(f, Start(now), Up(Reads([1], More)), [Down(Reads([], End))] + rest);
  }

  /** Under -ep a chunk from stdin can be read and never reach the pipe. */
  lemma PipeExitCanLose(f: Flags, now: nat) returns (steps: seq<Step>)
    requires f.exitOnPipeEOF
    ensures Run(f, Start(now), steps).Some?
    ensures var t := Run(f, Start(now), steps).value; t.ending == ExitOnPipeEOF && t.up.Held() != []
  {
    ReachCaughtHolding(f, now, [MainDecide] + []);
    RunCons(f, CaughtHolding(now), MainDecide, []);
    steps := [Up(Reads([1], More))] + ([Down(Reads([], End))] + ([MainDecide] + []));
  }

  /** So it can when the drain timeout runs out. */
  lemma TimeoutCanLose(f: Flags, now: nat) returns (steps: seq<Step>)
    requires !f.exitOnPipeEOF
    ensures Run(f, Start(now), steps).Some?
    ensures var t := Run(f, Start(now), steps).value; t.ending == DrainTimedOut && t.up.Held() != []
  {
    var s1 := Next(f, CaughtHolding(now), MainDecide).value;
    var s2 := Next(f, s1, MainClose).value;
    var s3 := Next(f, s2, Tick(STDIN_DRAIN_TIMEOUT)).value;
    var rest3 := [MainTimesOut] + [];
    var rest2 := [Tick(STDIN_DRAIN_TIMEOUT)] + rest3;
    var rest1 := [MainClose] + rest2;
    RunCons(f, s3, MainTimesOut, []);
    RunCons(f, s2, Tick(STDIN_DRAIN_TIMEOUT), rest3);
    RunCons(f, s1, MainClose, rest2);
    RunCons(f, CaughtHolding(now), MainDecide, rest1);
    ReachCaughtHolding(f, now, [MainDecide] + rest1);
    steps := [Up(Reads([1], More))] + ([Down(Reads([], End))] + ([MainDecide] + rest1));
  }

  /** A copy error, on whichever side, can lose a chunk on both. */
  lemma FatalCanLoseBoth(f: Flags, now: nat, side: Side) returns (steps: seq<Step>)
    ensures Run(f, Start(now), steps).Some?
    ensures var t := Run(f, Start(now), steps).value;
            && t.ending == (if side == Upward then FatalUp else FatalDown)
            && t.up.Held() != [] && t.down.Held() != []
  {
    var s1 := Next(f, Start(now), Down(Reads([1], More))).value;
    var s2 := Next(f, s1, Up(Reads([2], More))).value;
    var fails := if side == Upward then Up(WriteFails) else Down(WriteFails);
    RunCons(f, s2, fails, []);
    RunCons(f, s1, Up(Reads([2], More)), [fails] + []);
    RunCons(f, Start(now), Down(Reads([1], More)), [Up(Reads([2], More))] + ([fails] + []));
    steps := [Down(Reads([1], More))] + ([Up(Reads([2], More))] + ([fails] + []));
  }

  // ---------------------------------------------------------------- which flags make it lossless

  /** The run has ended, and not by a copy error. */
  predicate EndsCleanly(f: Flags, now: nat, steps: seq<Step>) {
    && Run(f, Start(now), steps).Some?
    && var ending := Run(f, Start(now), steps).value.ending;
       ending != Running && ending != FatalUp && ending != FatalDown
  }

  /** Every run that ends without a copy error has drained this side. */
  ghost predicate AlwaysDrains(f: Flags, now: nat, side: Side) {
    forall steps :: EndsCleanly(f, now, steps) ==> Drained(f, now, steps, side)
  }

  lemma HoldingIsNotDrained(f: Flags, now: nat, steps: seq<Step>, side: Side)
    requires Run(f, Start(now), steps).Some? && CopierOf(Run(f, Start(now), steps).value, side).Held() != []
    ensures !Drained(f, now, steps, side)
  {
    RelayConserves(f, now, steps, side);
  }

  /** The pipe's side is lossless in every run without a copy error if and only if -ei is off. */
  lemma PipeSideDrainsIff(f: Flags, now: nat)
    ensures AlwaysDrains(f, now, Downward) <==> !f.exitOnStdinEOF
  {
    if f.exitOnStdinEOF {
      var steps := StdinExitCanLose(f, now);
      HoldingIsNotDrained(f, now, steps, Downward);
      assert EndsCleanly(f, now, steps);
    } else {
      forall steps | EndsCleanly(f, now, steps) ensures Drained(f, now, steps, Downward) {
        RunKeepsInv(f, Start(now), steps);
        EarlyExitsDrainOneSide(f, now, steps);
        if Run(f, Start(now), steps).value.ending == StdinDone {
          NormalEndIsLossless(f, now, steps);
        }
      }
    }
  }

  /** No choice of flags makes the stdin side lossless. */
  lemma StdinSideMayLose(f: Flags, now: nat)
    ensures !AlwaysDrains(f, now, Upward)
  {
    var steps;
    if f.exitOnPipeEOF {
      steps := PipeExitCanLose(f, now);
    } else {
      steps := TimeoutCanLose(f, now);
    }
    HoldingIsNotDrained(f, now, steps, Upward);
    assert EndsCleanly(f, now, steps);
  }

  // ---------------------------------------------------------------- the close-write marker

  /**
   In every reachable state the marker was written at most once, nothing follows it on the pipe, and
   all of stdin up to its end of file stands before it; a run that ends under -ei has written it.
   */
  lemma CloseWriteIsLast(f: Flags, now: nat, steps: seq<Step>)
    requires Run(f, Start(now), steps).Some?
    ensures var t := Run(f, Start(now), steps).value;
            && multiset(t.pipeOps)[CloseWrite] <= 1
            && (CloseWrite in t.pipeOps ==>
                  && f.closeWrite && f.pipeHalfCloses
                  && t.pipeOps[|t.pipeOps| - 1] == CloseWrite
                  && PipeBytes(t.pipeOps[..|t.pipeOps| - 1]) == BytesRead(steps, Upward)
                  && SawEOF(steps, Upward))
            && (t.ending == ExitOnStdinEOF || t.ending == StdinDone ==>
                  (CloseWrite in t.pipeOps <==> f.closeWrite && f.pipeHalfCloses))
  {
    RunKeepsInv(f, Start(now), steps);
    var ops := Run(f, Start(now), steps).value.pipeOps;
    if ops != [] {
      var front := ops[..|ops| - 1];
      assert ops == front + [ops[|ops| - 1]];
      assert CloseWrite !in front;
      assert multiset(ops) == multiset(front) + multiset{ops[|ops| - 1]};
    }
    if CloseWrite in ops {
      assert ops[|ops| - 1] == CloseWrite;
      CopiedIsDrained(f, now, steps, Upward);
      assert PipeBytes(ops) == PipeBytes(ops[..|ops| - 1]) + [];
    }
  }

  // ---------------------------------------------------------------- bounded end

  /** Steps of the main goroutine, and the passing of time. */
  predicate IsMainOrTick(step: Step) {
    !step.Up? && !step.UpHalfClose? && !step.UpDecide?
  }

  function CountMainOrTick(steps: seq<Step>): nat {
    if steps == [] then 0 else (if IsMainOrTick(steps[0]) then 1 else 0) + CountMainOrTick(steps[1..])
  }

  /** How many more main or clock steps there can be once the pipe has ended. */
  function Remaining(s: State): nat
    requires s.mainPhase.MainWaiting? ==> s.clock <= s.mainPhase.deadline
  {
    if s.ending != Running then 0
    else
      match s.mainPhase
      case MainWaiting(deadline) => deadline - s.clock + 1
      case MainClosing => STDIN_DRAIN_TIMEOUT + 2
      case _ => STDIN_DRAIN_TIMEOUT + 3
  }

  /** The latest the clock can still reach. */
  function Horizon(s: State): nat {
    if s.mainPhase.MainWaiting? then s.mainPhase.deadline else s.clock + STDIN_DRAIN_TIMEOUT
  }

  lemma NextDecreasesRemaining(f: Flags, s: State, step: Step)
    requires Inv(f, s) && s.mainPhase != MainCopying && Next(f, s, step).Some?
    ensures var t := Next(f, s, step).value;
            && Inv(f, t) && t.mainPhase != MainCopying
            && Remaining(t) + (if IsMainOrTick(step) then 1 else 0) <= Remaining(s)
            && t.clock <= Horizon(t) <= Horizon(s)
  {
    NextKeepsFlows(f, s, step);
    NextKeepsPhase(f, s, step);
    NextKeepsMark(f, s, step);
    NextKeepsEndings(f, s, step);
  }

  /**
   From the pipe's end of file on, any schedule, whatever stdin does, has at most `Remaining` main or
   clock steps, and the clock never passes the horizon: at most the drain timeout from there.
   */
  lemma {:induction false} EndIsBounded(f: Flags, s: State, steps: seq<Step>)
    requires Inv(f, s) && s.mainPhase != MainCopying && Run(f, s, steps).Some?
    ensures var t := Run(f, s, steps).value;
            && Inv(f, t)
            && CountMainOrTick(steps) + Remaining(t) <= Remaining(s) <= 5_000_000_003
            && t.clock <= Horizon(s) <= s.clock + 5_000_000_000
    decreases steps
  {
    if steps != [] {
      NextDecreasesRemaining(f, s, steps[0]);
      EndIsBounded(f, Next(f, s, steps[0]).value, steps[1..]);
    }
  }

  /** And it is never stuck: until it ends, the main goroutine or the clock has a step to take. */
  lemma EndIsNeverBlocked(f: Flags, s: State) returns (step: Step)
    requires Inv(f, s) && s.mainPhase != MainCopying && s.ending == Running
    ensures IsMainOrTick(step) && Next(f, s, step).Some?
  {
    match s.mainPhase
    case MainDeciding => step := MainDecide;
    case MainClosing => step := MainClose;
    case MainWaiting(deadline) =>
      step := if s.clock < deadline then Tick(deadline - s.clock) else MainTimesOut;
  }

  /** The drain timer runs its full five seconds: it never ends the process earlier, or later. */
  lemma {:induction false} DrainTakesFullTimeout(f: Flags, s: State, steps: seq<Step>)
    requires s.mainPhase == MainClosing && s.ending == Running && Run(f, s, steps).Some?
    ensures Run(f, s, steps).value.ending == DrainTimedOut ==> Run(f, s, steps).value.clock == s.clock + 5_000_000_000
    decreases steps
  {
    if steps != [] {
      var t := Next(f, s, steps[0]).value;
      if t.ending != Running {
        assert steps[1..] == [];
      } else if t.mainPhase == MainClosing {
        DrainTakesFullTimeout(f, t, steps[1..]);
      } else {
        TimerKeepsDeadline(f, t, steps[1..]);
      }
    }
  }

  lemma {:induction false} TimerKeepsDeadline(f: Flags, s: State, steps: seq<Step>)
    requires s.mainPhase.MainWaiting? && s.clock <= s.mainPhase.deadline && s.ending == Running
    requires Run(f, s, steps).Some?
    ensures Run(f, s, steps).value.ending == DrainTimedOut ==> Run(f, s, steps).value.clock == s.mainPhase.deadline
    decreases steps
  {
    if steps != [] {
      var t := Next(f, s, steps[0]).value;
      if t.ending != Running {
        assert steps[1..] == [];
      } else {
        TimerKeepsDeadline(f, t, steps[1..]);
      }
    }
  }

  // ---------------------------------------------------------------- what the process can always do

  /** Once stdin is done, a process that waits for it returns in one step, with no time passing. */
  lemma WaitingReturnsAtOnce(f: Flags, now: nat, steps: seq<Step>)
    requires Run(f, Start(now), steps).Some?
    ensures var s := Run(f, Start(now), steps).value;
            s.ending == Running && s.mainPhase.MainWaiting? && s.upPhase == UpSignalled ==>
              Next(f, s, MainSeesStdinDone) == Some(s.(ending := StdinDone))
  {
  }

  /** While the pipe is being copied time passes freely; while the timer runs, up to its deadline. */
  lemma TimeMayPass(f: Flags, s: State, d: nat)
    requires s.ending == Running && d > 0
    ensures s.mainPhase == MainCopying || (s.mainPhase.MainWaiting? && s.clock + d <= s.mainPhase.deadline) ==>
              Next(f, s, Tick(d)) == Some(s.(clock := s.clock + d))
  {
  }

  function CopyStep(side: Side, e: CopyEvent): Step {
    if side == Upward then Up(e) else Down(e)
  }

  predicate Copying(s: State, side: Side) {
    s.ending == Running && if side == Upward then s.upPhase == UpCopying else s.mainPhase == MainCopying
  }

  function FatalEnding(side: Side): Ending {
    if side == Upward then FatalUp else FatalDown
  }

  /**
   A side that copies takes whatever its read or write returns, whatever the other side is doing: bytes read
   are held, pushed bytes are delivered, a clean end ends the copy, and an error ends the process: at
   once, or for a read that brought bytes too once these are written.
   */
  lemma CopyingTakesAnyAnswer(f: Flags, s: State, side: Side, chunk: seq<byte>, n: nat)
    requires Copying(s, side)
    ensures var c := CopierOf(s, side);
            match c.at
            case Reading =>
              && (chunk != [] ==>
                    forall end :: TakesTo(f, s, side, Reads(chunk, end),
                                          Copier(Writing(chunk, end), c.taken + chunk, c.delivered)))
              && TakesTo(f, s, side, Reads([], More), c)
              && TakesTo(f, s, side, Reads([], End), c.(at := Copied))
              && Breaks(f, s, side, Reads([], Broken))
            case Writing(held, end) =>
              && (0 < n <= |held| ==>
                    TakesTo(f, s, side, Pushes(n), Copier(Writing(held[n..], end), c.taken, c.delivered + held[..n])))
              && Breaks(f, s, side, WriteFails)
              && (held == [] && end == More ==> TakesTo(f, s, side, WriteReturns, c.(at := Reading)))
              && (held == [] && end == End ==> TakesTo(f, s, side, WriteReturns, c.(at := Copied)))
              && (held == [] && end == Broken ==> Breaks(f, s, side, WriteReturns))
            case Copied => true
  {
  }

  /** This event is possible and leaves the side's loop like that and the process running. */
  predicate TakesTo(f: Flags, s: State, side: Side, e: CopyEvent, d: Copier) {
    && Next(f, s, CopyStep(side, e)).Some?
    && var t := Next(f, s, CopyStep(side, e)).value;
       t.ending == Running && CopierOf(t, side) == d
  }

  /** This event is possible and ends the process. */
  predicate Breaks(f: Flags, s: State, side: Side, e: CopyEvent) {
    && Next(f, s, CopyStep(side, e)).Some?
    && Next(f, s, CopyStep(side, e)).value.ending == FatalEnding(side)
  }

  /** Behind a clean end of stdin the goroutine is never held up: it half-closes, then exits or signals. */
  lemma StdinGoroutineFinishes(f: Flags, s: State)
    requires s.ending == Running && s.upPhase == UpHalfClosing
    ensures Run(f, s, [UpHalfClose, UpDecide]).Some?
    ensures var t := Run(f, s, [UpHalfClose, UpDecide]).value;
            if f.exitOnStdinEOF then t.ending == ExitOnStdinEOF else t.upPhase == UpSignalled && t.ending == Running
  {
    var mid := Next(f, s, UpHalfClose).value;
    RunCons(f, mid, UpDecide, []);
    RunCons(f, s, UpHalfClose, [UpDecide]);
    assert [UpHalfClose] + [UpDecide] == [UpHalfClose, UpDecide] && [UpDecide] + [] == [UpDecide];
  }

  /** The steps that carry these bytes over in one chunk, up to the end of file. */
  function Carry(side: Side, bytes: seq<byte>): seq<Step> {
    if bytes == [] then [CopyStep(side, Reads([], End))]
    else [CopyStep(side, Reads(bytes, End)), CopyStep(side, Pushes(|bytes|)), CopyStep(side, WriteReturns)]
  }

  lemma {:induction false} RunAppend(f: Flags, s: State, steps: seq<Step>, more: seq<Step>)
    requires Run(f, s, steps).Some?
    ensures Run(f, s, steps + more) == Run(f, Run(f, s, steps).value, more)
    decreases steps
  {
    if steps == [] {
      assert steps + more == more;
    } else {
      assert (steps + more)[1..] == steps[1..] + more;
      RunAppend(f, Next(f, s, steps[0]).value, steps[1..], more);
    }
  }

  lemma {:induction false} BytesReadAppend(steps: seq<Step>, more: seq<Step>, side: Side)
    ensures BytesRead(steps + more, side) == BytesRead(steps, side) + BytesRead(more, side)
  {
    if steps == [] {
      assert steps + more == more;
    } else {
      assert (steps + more)[1..] == steps[1..] + more;
      BytesReadAppend(steps[1..], more, side);
    }
  }

  lemma CarryReads(side: Side, bytes: seq<byte>, other: Side)
    ensures BytesRead(Carry(side, bytes), other) == if side == other then bytes else []
  {
    var steps := Carry(side, bytes);
    if bytes != [] {
      assert BytesRead([steps[2]], other) == [];
      assert BytesRead([steps[1], steps[2]], other) == [] by {
        assert [steps[1], steps[2]][1..] == [steps[2]];
      }
      assert steps[1..] == [steps[1], steps[2]];
    }
    assert BytesRead(steps, other) == ChunkOf(steps[0], other) + [];
  }

  /** Carrying bytes over leaves only that side's copy behind. */
  lemma CarryRuns(f: Flags, s: State, side: Side, bytes: seq<byte>)
    requires Copying(s, side) && CopierOf(s, side) == START_COPIER
    ensures Run(f, s, Carry(side, bytes)).Some?
    ensures var t := Run(f, s, Carry(side, bytes)).value;
            && t.ending == Running && t.clock == s.clock
            && (if side == Upward then t.upPhase == UpHalfClosing && t.mainPhase == s.mainPhase && t.down == s.down
                else t.mainPhase == MainDeciding && t.upPhase == s.upPhase && t.up == s.up)
  {
    var steps := Carry(side, bytes);
    if bytes == [] {
      RunCons(f, s, steps[0], []);
      assert steps == [steps[0]] + [];
    } else {
      var s1 := Next(f, s, steps[0]).value;
      var s2 := Next(f, s1, steps[1]).value;
      RunCons(f, s2, steps[2], []);
      RunCons(f, s1, steps[1], [steps[2]] + []);
      RunCons(f, s, steps[0], [steps[1]] + ([steps[2]] + []));
      assert steps == [steps[0]] + ([steps[1]] + ([steps[2]] + []));
    }
  }

  const FINISH: seq<Step> := [UpHalfClose, UpDecide, MainDecide, MainClose, MainSeesStdinDone]

  lemma FinishReadsNothing(side: Side)
    ensures BytesRead(FINISH, side) == []
  {
    assert FINISH[1..][1..][1..][1..][1..] == [];
  }

  lemma FinishMain(f: Flags, s: State, mid: State)
    requires !f.exitOnPipeEOF && !f.exitOnStdinEOF && s.mainPhase == MainDeciding && s.ending == Running
    requires s.upPhase == UpHalfClosing && Run(f, s, [UpHalfClose, UpDecide]) == Some(mid)
    ensures Run(f, mid, [MainDecide, MainClose, MainSeesStdinDone]).Some?
    ensures var t := Run(f, mid, [MainDecide, MainClose, MainSeesStdinDone]).value;
            t.ending == StdinDone && t.clock == s.clock
  {
    var s1 := Next(f, s, UpHalfClose).value;
    RunCons(f, s1, UpDecide, []);
    RunCons(f, s, UpHalfClose, [UpDecide] + []);
    assert [UpHalfClose, UpDecide] == [UpHalfClose] + ([UpDecide] + []);
    var s3 := Next(f, mid, MainDecide).value;
    var s4 := Next(f, s3, MainClose).value;
    RunCons(f, s4, MainSeesStdinDone, []);
    RunCons(f, s3, MainClose, [MainSeesStdinDone] + []);
    RunCons(f, mid, MainDecide, [MainClose] + ([MainSeesStdinDone] + []));
    assert [MainDecide, MainClose, MainSeesStdinDone] == [MainDecide] + ([MainClose] + ([MainSeesStdinDone] + []));
  }

  lemma FinishRuns(f: Flags, s: State)
    requires !f.exitOnPipeEOF && !f.exitOnStdinEOF
    requires s.ending == Running && s.upPhase == UpHalfClosing && s.mainPhase == MainDeciding
    ensures Run(f, s, FINISH).Some?
    ensures var t := Run(f, s, FINISH).value; t.ending == StdinDone && t.clock == s.clock
  {
    StdinGoroutineFinishes(f, s);
    var mid := Run(f, s, [UpHalfClose, UpDecide]).value;
    FinishMain(f, s, mid);
    RunAppend(f, s, [UpHalfClose, UpDecide], [MainDecide, MainClose, MainSeesStdinDone]);
    assert FINISH == [UpHalfClose, UpDecide] + [MainDecide, MainClose, MainSeesStdinDone];
  }

  /**
   Without -ei and -ep the process can return normally at once, whatever the two sides have to carry: for any
   bytes on stdin and on the pipe there is a run that reads exactly these and ends because stdin is done,
   no time having passed.
   */
  lemma NormalEndHappens(f: Flags, now: nat, a: seq<byte>, b: seq<byte>) returns (steps: seq<Step>)
    requires !f.exitOnPipeEOF && !f.exitOnStdinEOF
    ensures Run(f, Start(now), steps).Some?
    ensures BytesRead(steps, Upward) == a && BytesRead(steps, Downward) == b
    ensures var t := Run(f, Start(now), steps).value;
            && t.ending == StdinDone && t.clock == now
            && t.up.delivered == a && t.down.delivered == b
  {
    CarryRuns(f, Start(now), Upward, a);
    var s1 := Run(f, Start(now), Carry(Upward, a)).value;
    CarryRuns(f, s1, Downward, b);
    var s2 := Run(f, s1, Carry(Downward, b)).value;
    FinishRuns(f, s2);
    steps := Carry(Upward, a) + (Carry(Downward, b) + FINISH);
    RunAppend(f, s1, Carry(Downward, b), FINISH);
    RunAppend(f, Start(now), Carry(Upward, a), Carry(Downward, b) + FINISH);
    forall side ensures BytesRead(steps, side) == if side == Upward then a else b {
      CarryReads(Upward, a, side);
      CarryReads(Downward, b, side);
      FinishReadsNothing(side);
      BytesReadAppend(Carry(Downward, b), FINISH, side);
      BytesReadAppend(Carry(Upward, a), Carry(Downward, b) + FINISH, side);
    }
    NormalEndIsLossless(f, now, steps);
  }

  /** Under -ep the end comes at once: no time passes, and the main goroutine's first step is the exit. */
  lemma {:induction false} PipeExitIsImmediate(f: Flags, s: State, steps: seq<Step>)
    requires s.mainPhase == MainDeciding && f.exitOnPipeEOF && Run(f, s, steps).Some?
    ensures var t := Run(f, s, steps).value;
            && t.clock == s.clock
            && (CountMainOrTick(steps) > 0 ==> t.ending == ExitOnPipeEOF)
    decreases steps
  {
    if steps != [] {
      var t := Next(f, s, steps[0]).value;
      if t.ending == ExitOnPipeEOF {
        assert steps[1..] == [];
      } else {
        PipeExitIsImmediate(f, t, steps[1..]);
      }
    }
  }
}
