/** The stateful adapter between an XShell client and the SSH agent server. */
module XShellProxy {
  import opened Bytes
  import opened Streams
  import opened Wrappers
  import opened XShellFraming

  // ---------------------------------------------------------------- one Read, on values

  datatype Reader = Reader(buf: seq<byte>, incoming: seq<byte>)

  datatype ReadResult = ReadResult(data: seq<byte>, err: Option<Error>, next: Reader)

  /** Hands over as much of the pending bytes as there is room for. */
  function Deliver(pending: seq<byte>, incoming: seq<byte>, room: nat): ReadResult {
    var n := Min(room, |pending|);
    ReadResult(pending[..n], None, Reader(pending[n..], incoming))
  }

  function ReadStep(r: Reader, ending: Error, room: nat): ReadResult {
    if |r.buf| > 0 then Deliver(r.buf, r.incoming, room)
    else if |r.incoming| < 4 then ReadResult([], Some(ShortRead(|r.incoming|, ending)), Reader([], []))
    else
      var l := BE32(r.incoming);
      var rest := r.incoming[4..];
      if l == 0 then ReadResult([], Some(UnexpectedEOF), Reader([], rest))
      else if l > MAX_AGENT_RESPONSE_BYTES then ReadResult([], Some(RequestTooLarge(l)), Reader([], rest))
      else if |rest| < l then
        // The half-filled buffer is kept, its header still zero.
        ReadResult([], Some(ShortRead(|rest|, ending)), Reader(Zeros(4) + rest + Zeros(l - |rest|), []))
      else Deliver(Encode(Normalise(rest[..l])), rest[l..], room)
  }

  /** What the reader is still owed: the bytes at hand, then every frame yet to come, re-framed. */
  function Owed(r: Reader): seq<byte> {
    r.buf + Reframe(r.incoming)
  }

  /** The error that the stream ends in once its frames are used up. */
  function FinalError(incoming: seq<byte>, ending: Error): Error {
    var residue := Residue(incoming, MAX_AGENT_RESPONSE_BYTES);
    if |residue| < 4 then ShortRead(|residue|, ending)
    else if BE32(residue) == 0 then UnexpectedEOF
    else if BE32(residue) > MAX_AGENT_RESPONSE_BYTES then RequestTooLarge(BE32(residue))
    else ShortRead(|residue| - 4, ending)
  }

  /**
   Bytes handed over from state r, with the error met and the state left, account for all that was
   owed: an error is met only when nothing is left to deliver, and it is the one the stream ends in.
   */
  ghost predicate Accounts(r: Reader, ending: Error, data: seq<byte>, err: Option<Error>, next: Reader) {
    match err
    case None =>
      && data + Owed(next) == Owed(r)
      && FinalError(next.incoming, ending) == FinalError(r.incoming, ending)
    case Some(e) => data == Owed(r) && e == FinalError(r.incoming, ending)
  }

  lemma SplitBefore(front: seq<byte>, n: nat, back: seq<byte>)
    requires n <= |front|
    ensures front[..n] + (front[n..] + back) == front + back
  {
  }

  lemma DeliveryAccounts(r: Reader, ending: Error, pending: seq<byte>, incoming: seq<byte>, room: nat)
    requires pending + Reframe(incoming) == Owed(r)
    requires FinalError(incoming, ending) == FinalError(r.incoming, ending)
    ensures var s := Deliver(pending, incoming, room); Accounts(r, ending, s.data, None, s.next)
  {
    SplitBefore(pending, Min(room, |pending|), Reframe(incoming));
  }

  lemma FrameIsDelivered(incoming: seq<byte>, ending: Error, room: nat)
    requires HasFrame(incoming, MAX_AGENT_RESPONSE_BYTES)
    ensures var frame := Encode(Normalise(Body(incoming, MAX_AGENT_RESPONSE_BYTES)));
            var rest := AfterFrame(incoming, MAX_AGENT_RESPONSE_BYTES);
            && ReadStep(Reader([], incoming), ending, room) == Deliver(frame, rest, room)
            && Owed(Reader([], incoming)) == frame + Reframe(rest)
            && FinalError(incoming, ending) == FinalError(rest, ending)
  {
    var l := BE32(incoming);
    assert incoming[4..][..l] == incoming[4..4 + l];
    assert incoming[4..][l..] == incoming[4 + l..];
    assert [] + Reframe(incoming) == Reframe(incoming);
  }

  lemma NoFrameIsAnError(incoming: seq<byte>, ending: Error, room: nat)
    requires !HasFrame(incoming, MAX_AGENT_RESPONSE_BYTES)
    ensures var s := ReadStep(Reader([], incoming), ending, room);
            && s.err.Some?
            && Accounts(Reader([], incoming), ending, s.data, s.err, s.next)
  {
    assert Residue(incoming, MAX_AGENT_RESPONSE_BYTES) == incoming;
  }

  /** One Read moves bytes from what is owed to the caller; it fails only when nothing is owed. */
  lemma ReadStepKeepsOwed(r: Reader, ending: Error, room: nat)
    ensures var s := ReadStep(r, ending, room);
            Accounts(r, ending, s.data, s.err, s.next)
  {
    if |r.buf| > 0 {
      DeliveryAccounts(r, ending, r.buf, r.incoming, room);
    } else {
      assert r == Reader([], r.incoming);
      if HasFrame(r.incoming, MAX_AGENT_RESPONSE_BYTES) {
        FrameIsDelivered(r.incoming, ending, room);
        DeliveryAccounts(r, ending, Encode(Normalise(Body(r.incoming, MAX_AGENT_RESPONSE_BYTES))),
                         AfterFrame(r.incoming, MAX_AGENT_RESPONSE_BYTES), room);
      } else {
        NoFrameIsAnError(r.incoming, ending, room);
      }
    }
  }

  /** A Read with room to deliver into makes progress or fails. */
  lemma ReadStepProgresses(r: Reader, ending: Error, room: nat)
    requires room > 0
    ensures ReadStep(r, ending, room).err.Some? || ReadStep(r, ending, room).data != []
  {
  }

  // ---------------------------------------------------------------- any run of Reads

  datatype ReadRun = ReadRun(delivered: seq<byte>, err: Option<Error>, next: Reader)

  /** Successive Reads with the given buffer sizes, stopping at the first error. */
  function RunReads(r: Reader, ending: Error, rooms: seq<nat>): ReadRun
    decreases rooms
  {
    if rooms == [] then ReadRun([], None, r)
    else
      var s := ReadStep(r, ending, rooms[0]);
      if s.err.Some? then ReadRun([], s.err, s.next)
      else
        var t := RunReads(s.next, ending, rooms[1..]);
        ReadRun(s.data + t.delivered, t.err, t.next)
  }

  lemma AccountsCompose(r: Reader, ending: Error, data: seq<byte>, mid: Reader,
                        more: seq<byte>, err: Option<Error>, next: Reader)
    requires Accounts(r, ending, data, None, mid)
    requires Accounts(mid, ending, more, err, next)
    ensures Accounts(r, ending, data + more, err, next)
  {
    if err.None? {
      assert data + (more + Owed(next)) == data + more + Owed(next);
    }
  }

  /** Whatever the buffer sizes, a run of Reads accounts for all that was owed. */
  lemma {:induction false} ReadsDeliverOwed(r: Reader, ending: Error, rooms: seq<nat>)
    ensures var run := RunReads(r, ending, rooms); Accounts(r, ending, run.delivered, run.err, run.next)
    decreases rooms
  {
    if rooms == [] {
      assert [] + Owed(r) == Owed(r);
    } else {
      var s := ReadStep(r, ending, rooms[0]);
      ReadStepKeepsOwed(r, ending, rooms[0]);
      if s.err.None? {
        ReadsDeliverOwed(s.next, ending, rooms[1..]);
        var t := RunReads(s.next, ending, rooms[1..]);
        AccountsCompose(r, ending, s.data, s.next, t.delivered, t.err, t.next);
      }
    }
  }

  /** With non-empty buffers the end is reached: more reads than owed bytes meet the error. */
  lemma {:induction false} ReadsReachTheEnd(r: Reader, ending: Error, rooms: seq<nat>)
    requires forall i | 0 <= i < |rooms| :: rooms[i] > 0
    requires |rooms| > |Owed(r)|
    ensures RunReads(r, ending, rooms).err.Some?
    decreases rooms
  {
    var s := ReadStep(r, ending, rooms[0]);
    ReadStepKeepsOwed(r, ending, rooms[0]);
    ReadStepProgresses(r, ending, rooms[0]);
    if s.err.None? {
      ReadsReachTheEnd(s.next, ending, rooms[1..]);
    }
  }

  /**
   A new proxy over any client stream, read with any buffer sizes: the delivered bytes are a prefix of
   the re-framed stream, and at the error they decode to exactly the normalised bodies.
   */
  lemma FramingIsTransparent(incoming: seq<byte>, ending: Error, rooms: seq<nat>)
    ensures var run := RunReads(Reader([], incoming), ending, rooms);
            && run.delivered <= Reframe(incoming)
            && (run.err.Some? ==>
                  && Frames(run.delivered, MAX_AGENT_RESPONSE_BYTES + 4)
                     == NormaliseAll(Frames(incoming, MAX_AGENT_RESPONSE_BYTES))
                  && Residue(run.delivered, MAX_AGENT_RESPONSE_BYTES + 4) == [])
  {
    ReadsDeliverOwed(Reader([], incoming), ending, rooms);
    ReframeDecodes(incoming);
    assert Owed(Reader([], incoming)) == Reframe(incoming);
  }

  lemma DeliverSplits(pending: seq<byte>, incoming: seq<byte>, room: nat)
    ensures var s := Deliver(pending, incoming, room);
            && s.err == None && s.next.incoming == incoming && |s.data| <= room
            && (|s.data| < room ==> s.next.buf == []) && s.data + s.next.buf == pending
  {
  }

  /** A Read with nothing pending makes the next frame, re-framed, pending, and delivers what there is room for. */
  lemma ReadTakesFrame(body: seq<byte>, rest: seq<byte>, ending: Error, room: nat)
    requires 1 <= |body| <= 16777216
    ensures ReadStep(Reader([], PutBE32(|body|) + body + rest), ending, room)
         == Deliver(PutBE32(|Normalise(body)|) + Normalise(body), rest, room)
  {
    FrameRoundTrip(body, rest, MAX_AGENT_RESPONSE_BYTES);
    FrameIsDelivered(Encode(body) + rest, ending, room);
  }

  /** The read succeeded and made exactly these bytes pending, delivering what there was room for. */
  predicate Takes(s: ReadResult, room: nat, frame: seq<byte>, rest: seq<byte>) {
    && s.err == None && s.next.incoming == rest && |s.data| <= room
    && (|s.data| < room ==> s.next.buf == []) && s.data + s.next.buf == frame
  }

  lemma ReadForwards(body: seq<byte>, forwarded: seq<byte>, rest: seq<byte>, ending: Error, room: nat)
    requires 1 <= |body| <= 16777216 && Normalise(body) == forwarded
    ensures Takes(ReadStep(Reader([], PutBE32(|body|) + body + rest), ending, room),
                  room, PutBE32(|forwarded|) + forwarded, rest)
  {
    ReadTakesFrame(body, rest, ending, room);
    DeliverSplits(PutBE32(|forwarded|) + forwarded, rest, room);
  }

  /** A body that is not of type 13 is delivered as it came. */
  lemma ReadDeliversOthers(body: seq<byte>, rest: seq<byte>, ending: Error, room: nat)
    requires 1 <= |body| <= 16777216 && body[0] != 13
    ensures Takes(ReadStep(Reader([], PutBE32(|body|) + body + rest), ending, room), room, PutBE32(|body|) + body, rest)
  {
    NormaliseIs(body);
    ReadForwards(body, body, rest, ending, room);
  }

  /** A sign request without its flags word is delivered with the word, its length four larger. */
  lemma ReadRepairs(k: seq<byte>, d: seq<byte>, rest: seq<byte>, ending: Error, room: nat)
    requires |k| + |d| + 9 <= 16777216
    ensures var body := [13] + PutBE32(|k|) + k + PutBE32(|d|) + d;
            Takes(ReadStep(Reader([], PutBE32(|body|) + body + rest), ending, room),
                  room, PutBE32(|body| + 4) + (body + [0, 0, 0, 0]), rest)
  {
    var body := [13] + PutBE32(|k|) + k + PutBE32(|d|) + d;
    UnflaggedIsRepaired(k, d);
    ReadForwards(body, body + [0, 0, 0, 0], rest, ending, room);
  }

  /** When a Read with nothing pending fails, and with what, in terms of the bytes that arrive. */
  lemma ReadFails(stream: seq<byte>, ending: Error, room: nat)
    ensures var err := ReadStep(Reader([], stream), ending, room).err;
            if |stream| == 0 then err == Some(ending)
            else if |stream| < 4 then err == Some(if ending == EOF then UnexpectedEOF else ending)
            else if BE32(stream) == 0 then err == Some(UnexpectedEOF)
            else if BE32(stream) > 16777216 then err == Some(RequestTooLarge(BE32(stream)))
            else if |stream| == 4 then err == Some(ending)
            else if |stream| < 4 + BE32(stream) then err == Some(if ending == EOF then UnexpectedEOF else ending)
            else err == None
  {
  }

  /** The stream breaks off inside a body that was announced within the limit. */
  predicate TruncatedBody(r: Reader) {
    && r.buf == [] && |r.incoming| >= 4
    && 1 <= BE32(r.incoming) <= MAX_AGENT_RESPONSE_BYTES && |r.incoming| - 4 < BE32(r.incoming)
  }

  /**
   The Read after a failed Read reports no error exactly if the failure was a truncated body, whose filler it
   then delivers, or a refused length word right before a complete frame, which it then delivers re-framed.
   */
  lemma ReadAfterFailedRead(r: Reader, ending: Error, room: nat)
    requires ReadStep(r, ending, room).err.Some?
    ensures var failed := ReadStep(r, ending, room).next;
            var resumes := |r.incoming| >= 4 && HasFrame(r.incoming[4..], MAX_AGENT_RESPONSE_BYTES);
            && (ReadStep(failed, ending, room).err.None? <==> TruncatedBody(r) || resumes)
            && (TruncatedBody(r) ==> Zeros(4) <= failed.buf && failed.incoming == [])
            && (!TruncatedBody(r) && resumes ==> Owed(failed) == Reframe(r.incoming[4..]))
  {
    var failed := ReadStep(r, ending, room).next;
    if |r.incoming| >= 4 && !TruncatedBody(r) {
      assert failed == Reader([], r.incoming[4..]);
      assert [] + Reframe(r.incoming[4..]) == Reframe(r.incoming[4..]);
      if HasFrame(r.incoming[4..], MAX_AGENT_RESPONSE_BYTES) {
        FrameIsDelivered(r.incoming[4..], ending, room);
      } else {
        NoFrameIsAnError(r.incoming[4..], ending, room);
      }
    }
  }

  /** The filler itself: after a truncated body the next Read reports no error and starts with a zero header. */
  lemma TruncatedBodyLeavesFiller(r: Reader, ending: Error, room: nat)
    requires TruncatedBody(r) && room >= 4
    ensures var s := ReadStep(r, ending, room);
            && s.err.Some?
            && ReadStep(s.next, ending, room).err == None
            && Zeros(4) <= ReadStep(s.next, ending, room).data
  {
  }

  // ---------------------------------------------------------------- one Write, on values

  datatype Writer = Writer(wlength: nat, wbuf: seq<byte>) {
    /** Between frames, or holding a proper prefix of the frame announced by its own header. */
    predicate Valid() {
      if wlength == 0 then wbuf == []
      else |wbuf| >= 4 && wlength == BE32(wbuf) + 4 && (|wbuf| < wlength || |wbuf| == 4)
    }

    predicate Overrun() {
      0 < wlength < |wbuf|
    }
  }

  const IDLE := Writer(0, [])

  datatype WriteResult = WriteResult(err: Option<Error>, sent: seq<seq<byte>>, next: Writer)

  /** `up` says whether the connection would take a message now. */
  function WriteStep(w: Writer, p: seq<byte>, up: bool): WriteResult {
    if w.wlength == 0 then
      if |p| != 4 then WriteResult(Some(InvalidWriteStatus), [], w)
      else WriteResult(None, [], Writer(BE32(p) + 4, w.wbuf + p))
    else
      var wbuf := w.wbuf + p;
      if |wbuf| == w.wlength then
        if up then WriteResult(None, [wbuf], IDLE) else WriteResult(Some(TransportFailed), [], Writer(0, wbuf))
      else WriteResult(if |wbuf| > w.wlength then Some(InvalidWriteLength) else None, [], Writer(w.wlength, wbuf))
  }

  predicate IsFrame(message: seq<byte>) {
    |message| >= 4 && |message| == BE32(message) + 4
  }

  // ---------------------------------------------------------------- any run of Writes

  datatype WriteRun = WriteRun(accepted: nat, err: Option<Error>, sent: seq<seq<byte>>, next: Writer)

  /** Successive Writes, stopping at the first error, over a connection that takes `budget` more messages. */
  function RunWrites(w: Writer, ps: seq<seq<byte>>, budget: nat): (run: WriteRun)
    ensures run.accepted <= |ps|
    ensures run.err.Some? ==> run.accepted < |ps|
    ensures run.err.None? ==> run.accepted == |ps|
    decreases ps
  {
    if ps == [] then WriteRun(0, None, [], w)
    else
      var s := WriteStep(w, ps[0], budget > 0);
      if s.err.Some? then WriteRun(0, s.err, s.sent, s.next)
      else
        var t := RunWrites(s.next, ps[1..], if s.sent == [] then budget else budget - 1);
        Prefixed(1, s.sent, t)
  }

  /**
   Messages sent while taking `input` from state w, with the error met and the state left: each is a
   whole frame, and with what is held back they are exactly the bytes held before and the input.
   */
  ghost predicate Conserves(w: Writer, input: seq<byte>, err: Option<Error>, sent: seq<seq<byte>>, next: Writer) {
    && (forall m <- sent :: IsFrame(m))
    && Flatten(sent) + next.wbuf == w.wbuf + input
    && (err.None? ==> next.Valid())
    && (err == Some(InvalidWriteLength) ==> next.Overrun())
  }

  /** The part of a failing Write that reached `wbuf`. */
  function Absorbed(err: Error, p: seq<byte>): seq<byte> {
    if err == InvalidWriteStatus then [] else p
  }

  lemma WriteStepConserves(w: Writer, p: seq<byte>, up: bool)
    requires w.Valid()
    ensures var s := WriteStep(w, p, up);
            Conserves(w, if s.err.None? then p else Absorbed(s.err.value, p), s.err, s.sent, s.next)
  {
    var s := WriteStep(w, p, up);
    if s.sent != [] {
      FlattenOne(s.sent[0]);
      assert BE32(w.wbuf + p) == BE32(w.wbuf);
    } else if w.wlength > 0 {
      assert BE32(w.wbuf + p) == BE32(w.wbuf);
    } else if |p| == 4 {
      assert w.wbuf + p == p;
    }
  }

  lemma ConservesCompose(w: Writer, input: seq<byte>, sent: seq<seq<byte>>, mid: Writer,
                         more: seq<byte>, err: Option<Error>, moreSent: seq<seq<byte>>, next: Writer)
    requires Conserves(w, input, None, sent, mid)
    requires Conserves(mid, more, err, moreSent, next)
    ensures Conserves(w, input + more, err, sent + moreSent, next)
  {
    FlattenAppend(sent, moreSent);
    calc {
      Flatten(sent) + Flatten(moreSent) + next.wbuf;
      Flatten(sent) + (Flatten(moreSent) + next.wbuf);
      Flatten(sent) + (mid.wbuf + more);
      Flatten(sent) + mid.wbuf + more;
      w.wbuf + input + more;
      w.wbuf + (input + more);
    }
  }

  /** The input a run took: the accepted Writes, and what the failing one left in `wbuf`. */
  function Input(run: WriteRun, ps: seq<seq<byte>>): seq<byte>
    requires if run.err.None? then run.accepted == |ps| else run.accepted < |ps|
  {
    if run.err.None? then Flatten(ps)
    else Flatten(ps[..run.accepted]) + Absorbed(run.err.value, ps[run.accepted])
  }

  lemma InputCons(ps: seq<seq<byte>>, sent: seq<seq<byte>>, t: WriteRun)
    requires ps != []
    requires if t.err.None? then t.accepted == |ps| - 1 else t.accepted < |ps| - 1
    ensures Input(Prefixed(1, sent, t), ps) == ps[0] + Input(t, ps[1..])
  {
    if t.err.Some? {
      assert ps[..t.accepted + 1][1..] == ps[1..][..t.accepted];
    }
  }

  lemma ConservesExtend(w: Writer, ps: seq<seq<byte>>, sent: seq<seq<byte>>, mid: Writer, t: WriteRun)
    requires ps != []
    requires if t.err.None? then t.accepted == |ps| - 1 else t.accepted < |ps| - 1
    requires Conserves(w, ps[0], None, sent, mid)
    requires Conserves(mid, Input(t, ps[1..]), t.err, t.sent, t.next)
    ensures var run := Prefixed(1, sent, t); Conserves(w, Input(run, ps), run.err, run.sent, run.next)
  {
    ConservesCompose(w, ps[0], sent, mid, Input(t, ps[1..]), t.err, t.sent, t.next);
    InputCons(ps, sent, t);
  }

  /**
   Over any run of Writes, what went out followed by what is held back is what was accepted, every
   message that went out is one whole frame, and the byte-count invariant holds until the first error.
   */
  lemma {:induction false} WritesConserve(w: Writer, ps: seq<seq<byte>>, budget: nat)
    requires w.Valid()
    ensures var run := RunWrites(w, ps, budget);
            Conserves(w, Input(run, ps), run.err, run.sent, run.next)
    decreases ps
  {
    if ps == [] {
      assert [] + w.wbuf == w.wbuf + [];
    } else {
      WriteStepConserves(w, ps[0], budget > 0);
      var s := WriteStep(w, ps[0], budget > 0);
      var run := RunWrites(w, ps, budget);
      if s.err.None? {
        var left := if s.sent == [] then budget else budget - 1;
        var t := RunWrites(s.next, ps[1..], left);
        assert run == Prefixed(1, s.sent, t);
        WritesConserve(s.next, ps[1..], left);
        ConservesExtend(w, ps, s.sent, s.next, t);
      } else {
        assert Input(run, ps) == Absorbed(s.err.value, ps[0]);
      }
    }
  }

  /** Only the last chunk brings a frame's body to its full length. */
  predicate LastCompletes(chunks: seq<seq<byte>>) {
    |chunks| > 0 && (|chunks| == 1 || (Flatten(chunks[1..]) != [] && LastCompletes(chunks[1..])))
  }

  /** Any split of a body into non-empty chunks is of that kind. */
  lemma {:induction false} NonEmptyChunksComplete(chunks: seq<seq<byte>>)
    requires |chunks| > 0 && forall i | 0 <= i < |chunks| :: chunks[i] != []
    ensures LastCompletes(chunks)
  {
    if |chunks| > 1 {
      NonEmptyChunksComplete(chunks[1..]);
      assert chunks[1] != [];
    }
  }

  /** The body chunks of one frame, written after its header. */
  lemma {:induction false} BodyGoesOutOnce(w: Writer, chunks: seq<seq<byte>>, budget: nat)
    requires w.wlength == |w.wbuf| + |Flatten(chunks)| && w.wlength > 0 && budget > 0
    ensures LastCompletes(chunks) <==>
            RunWrites(w, chunks, budget) == WriteRun(|chunks|, None, [w.wbuf + Flatten(chunks)], IDLE)
    decreases chunks
  {
    if chunks != [] {
      var s := WriteStep(w, chunks[0], true);
      assert w.wbuf + Flatten(chunks) == w.wbuf + chunks[0] + Flatten(chunks[1..]);
      if Flatten(chunks[1..]) == [] {
        assert w.wbuf + Flatten(chunks) == w.wbuf + chunks[0];
        assert s.next == IDLE && s.sent == [w.wbuf + Flatten(chunks)];
        assert s.sent + [] == [w.wbuf + Flatten(chunks)];
        if |chunks| > 1 {
          assert Flatten(chunks[1..]) == chunks[1] + Flatten(chunks[2..]);
          assert RunWrites(IDLE, chunks[1..], budget - 1).err == Some(InvalidWriteStatus);
        }
      } else {
        BodyGoesOutOnce(s.next, chunks[1..], budget);
        var t := RunWrites(s.next, chunks[1..], budget);
        assert [] + t.sent == t.sent;
      }
    }
  }

  /** The writes that announce and then deliver one frame. */
  function FrameWrites(chunks: seq<seq<byte>>): seq<seq<byte>>
    requires |Flatten(chunks)| < 0x1_0000_0000
  {
    [PutBE32(|Flatten(chunks)|)] + chunks
  }

  /**
   Header then body in chunks: the connection gets exactly one write, the whole frame, and the proxy
   is idle again, if and only if only the last chunk completes the body.
   */
  lemma FrameGoesOutOnce(chunks: seq<seq<byte>>, budget: nat)
    requires |Flatten(chunks)| < 0x1_0000_0000 && budget > 0
    ensures LastCompletes(chunks) <==>
            RunWrites(IDLE, FrameWrites(chunks), budget)
              == WriteRun(|chunks| + 1, None, [Encode(Flatten(chunks))], IDLE)
  {
    var header := PutBE32(|Flatten(chunks)|);
    WordRoundTrip(|Flatten(chunks)|);
    assert [] + header == header;
    var w := WriteStep(IDLE, header, true).next;
    BodyGoesOutOnce(w, chunks, budget);
    assert FrameWrites(chunks)[1..] == chunks;
    var t := RunWrites(w, chunks, budget);
    assert [] + t.sent == t.sent;
  }

  /** A run with n accepted Writes and their messages put before it. */
  function Prefixed(n: nat, sent: seq<seq<byte>>, run: WriteRun): WriteRun {
    WriteRun(n + run.accepted, run.err, sent + run.sent, run.next)
  }

  lemma PrefixedTwice(n: nat, sent: seq<seq<byte>>, m: nat, more: seq<seq<byte>>, run: WriteRun)
    ensures Prefixed(n, sent, Prefixed(m, more, run)) == Prefixed(n + m, sent + more, run)
  {
    assert sent + (more + run.sent) == sent + more + run.sent;
  }

  /** A run is its first Write and then the rest. */
  lemma RunWritesCons(w: Writer, p: seq<byte>, ps: seq<seq<byte>>, budget: nat)
    requires WriteStep(w, p, budget > 0).err.None?
    ensures var s := WriteStep(w, p, budget > 0);
            && |s.sent| <= budget
            && RunWrites(w, [p] + ps, budget) == Prefixed(1, s.sent, RunWrites(s.next, ps, budget - |s.sent|))
  {
    assert ([p] + ps)[1..] == ps;
  }

  /** Writing qs after ps is writing ps, then qs from the state that leaves. */
  predicate Appends(w: Writer, ps: seq<seq<byte>>, qs: seq<seq<byte>>, budget: nat) {
    var first := RunWrites(w, ps, budget);
    && |first.sent| <= budget
    && RunWrites(w, ps + qs, budget) == Prefixed(|ps|, first.sent, RunWrites(first.next, qs, budget - |first.sent|))
  }

  lemma AppendsParts(w: Writer, all: seq<seq<byte>>, qs: seq<seq<byte>>, budget: nat,
                     sent: seq<seq<byte>>, t: WriteRun, n: nat, u: WriteRun)
    requires RunWrites(w, all, budget) == Prefixed(1, sent, t) && |all| == 1 + n
    requires RunWrites(w, all + qs, budget) == Prefixed(1, sent, Prefixed(n, t.sent, u))
    requires |sent| + |t.sent| <= budget && u == RunWrites(t.next, qs, budget - |sent| - |t.sent|)
    ensures Appends(w, all, qs, budget)
  {
    PrefixedTwice(1, sent, n, t.sent, u);
  }

  lemma AppendsCons(w: Writer, p: seq<byte>, ps: seq<seq<byte>>, qs: seq<seq<byte>>, budget: nat,
                    s: WriteResult, t: WriteRun)
    requires s == WriteStep(w, p, budget > 0) && s.err.None? && |s.sent| <= budget
    requires t == RunWrites(s.next, ps, budget - |s.sent|) && Appends(s.next, ps, qs, budget - |s.sent|)
    ensures Appends(w, [p] + ps, qs, budget)
  {
    var u := RunWrites(t.next, qs, budget - |s.sent| - |t.sent|);
    assert RunWrites(w, [p] + ps, budget) == Prefixed(1, s.sent, t) by {
      RunWritesCons(w, p, ps, budget);
    }
    assert RunWrites(w, [p] + ps + qs, budget) == Prefixed(1, s.sent, Prefixed(|ps|, t.sent, u)) by {
      Regroup([p], ps, qs);
      RunWritesCons(w, p, ps + qs, budget);
    }
    AppendsParts(w, [p] + ps, qs, budget, s.sent, t, |ps|, u);
  }

  lemma {:induction false} RunWritesAppend(w: Writer, ps: seq<seq<byte>>, qs: seq<seq<byte>>, budget: nat)
    requires RunWrites(w, ps, budget).err.None?
    ensures Appends(w, ps, qs, budget)
    decreases ps
  {
    if ps == [] {
      assert ps + qs == qs;
    } else {
      assert ps == [ps[0]] + ps[1..];
      RunWritesCons(w, ps[0], ps[1..], budget);
      var s := WriteStep(w, ps[0], budget > 0);
      RunWritesAppend(s.next, ps[1..], qs, budget - |s.sent|);
      AppendsCons(w, ps[0], ps[1..], qs, budget, s, RunWrites(s.next, ps[1..], budget - |s.sent|));
    }
  }

  predicate Answerable(replies: seq<seq<seq<byte>>>) {
    forall i :: 0 <= i < |replies| ==> LastCompletes(replies[i]) && |Flatten(replies[i])| < 0x1_0000_0000
  }

  function ReplyWrites(replies: seq<seq<seq<byte>>>): seq<seq<byte>>
    requires Answerable(replies)
  {
    if replies == [] then [] else FrameWrites(replies[0]) + ReplyWrites(replies[1..])
  }

  function ReplyFrames(replies: seq<seq<seq<byte>>>): seq<seq<byte>>
    requires Answerable(replies)
  {
    if replies == [] then [] else [Encode(Flatten(replies[0]))] + ReplyFrames(replies[1..])
  }

  /** One frame, then Writes that send these frames. */
  lemma FrameThenOthers(chunks: seq<seq<byte>>, others: seq<seq<byte>>, frames: seq<seq<byte>>, budget: nat)
    requires LastCompletes(chunks) && |Flatten(chunks)| < 0x1_0000_0000 && budget > 0
    requires RunWrites(IDLE, others, budget - 1) == WriteRun(|others|, None, frames, IDLE)
    ensures RunWrites(IDLE, FrameWrites(chunks) + others, budget)
         == WriteRun(|FrameWrites(chunks) + others|, None, [Encode(Flatten(chunks))] + frames, IDLE)
  {
    FrameGoesOutOnce(chunks, budget);
    RunWritesAppend(IDLE, FrameWrites(chunks), others, budget);
  }

  /** A whole session of replies: one message per frame, in order, however each body was chunked. */
  lemma {:induction false} SessionIsCoalesced(replies: seq<seq<seq<byte>>>, budget: nat)
    requires Answerable(replies) && budget >= |replies|
    ensures RunWrites(IDLE, ReplyWrites(replies), budget)
         == WriteRun(|ReplyWrites(replies)|, None, ReplyFrames(replies), IDLE)
  {
    if replies != [] {
      SessionIsCoalesced(replies[1..], budget - 1);
      FrameThenOthers(replies[0], ReplyWrites(replies[1..]), ReplyFrames(replies[1..]), budget);
    }
  }

  /** Every one of these Writes fails and none of them sends anything. */
  predicate AllRefused(w: Writer, ps: seq<seq<byte>>)
    decreases ps
  {
    ps == [] || (forall up ::
                   var s := WriteStep(w, ps[0], up);
                   s.err == Some(InvalidWriteLength) && s.sent == [] && AllRefused(s.next, ps[1..]))
  }

  /** Once a frame is overrun, no later Write succeeds and nothing more is sent. */
  lemma {:induction false} OverrunIsFinal(w: Writer, ps: seq<seq<byte>>)
    requires w.Overrun()
    ensures AllRefused(w, ps)
    decreases ps
  {
    if ps != [] {
      forall up ensures AllRefused(WriteStep(w, ps[0], up).next, ps[1..]) {
        OverrunIsFinal(WriteStep(w, ps[0], up).next, ps[1..]);
      }
    }
  }

  /** A failed Write leaves the proxy usable exactly if it was refused for not being a header: then nothing changed. */
  lemma WriteAfterFailedWrite(w: Writer, p: seq<byte>, up: bool)
    requires w.Valid() && WriteStep(w, p, up).err.Some?
    ensures var s := WriteStep(w, p, up);
            && (s.next.Valid() <==> s.err == Some(InvalidWriteStatus))
            && (s.next.Valid() ==> s.next == w)
  {
  }

  /** The state a failed transport write leaves: between frames, but with the unsent frame still in `wbuf`. */
  function Lingering(w: Writer, p: seq<byte>): Writer {
    Writer(0, w.wbuf + p)
  }

  lemma FlattenFront(chunks: seq<seq<byte>>, j: nat)
    requires 1 <= j <= |chunks|
    ensures Flatten(chunks[..j]) == chunks[0] + Flatten(chunks[1..][..j - 1])
  {
    assert chunks[..j][0] == chunks[0] && chunks[..j][1..] == chunks[1..][..j - 1];
  }

  /** The first j of these chunks bring what is held to exactly the announced length. */
  predicate Fills(w: Writer, chunks: seq<seq<byte>>, j: nat) {
    1 <= j <= |chunks| && |w.wbuf| + |Flatten(chunks[..j])| == w.wlength
  }

  /**
   What becomes of chunks written behind a header: a message goes out exactly if some of them meet the announced
   length, and it is all that is held by then; chunks that pass that length without meeting it are overrun.
   */
  ghost predicate GoesOutIf(w: Writer, chunks: seq<seq<byte>>, run: WriteRun) {
    && (run.sent != [] ==> exists j: nat :: Fills(w, chunks, j))
    && (forall j: nat :: Fills(w, chunks, j) ==> run.sent != [] && run.sent[0] == w.wbuf + Flatten(chunks[..j]))
    && (run.sent == [] && chunks != [] && |w.wbuf| + |Flatten(chunks)| > w.wlength ==>
          run.err == Some(InvalidWriteLength) && run.next.Overrun())
  }

  /** The first chunk meets the announced length, or passes it. */
  lemma FirstChunkDecides(w: Writer, chunks: seq<seq<byte>>, budget: nat)
    requires chunks != [] && 0 < w.wlength <= |w.wbuf + chunks[0]| && budget > 0
    ensures GoesOutIf(w, chunks, RunWrites(w, chunks, budget))
  {
    var run := RunWrites(w, chunks, budget);
    forall j: nat | Fills(w, chunks, j)
      ensures run.sent != [] && run.sent[0] == w.wbuf + Flatten(chunks[..j])
    {
      FlattenFront(chunks, j);
      assert w.wbuf + Flatten(chunks[..j]) == w.wbuf + chunks[0];
    }
    FlattenFront(chunks, 1);
    assert |w.wbuf + chunks[0]| == w.wlength ==> Fills(w, chunks, 1);
  }

  /** The first chunk leaves room: the others decide. */
  lemma OtherChunksDecide(w: Writer, chunks: seq<seq<byte>>, rest: WriteRun)
    requires chunks != [] && |w.wbuf + chunks[0]| < w.wlength
    requires GoesOutIf(Writer(w.wlength, w.wbuf + chunks[0]), chunks[1..], rest)
    ensures GoesOutIf(w, chunks, Prefixed(1, [], rest))
  {
    var next := Writer(w.wlength, w.wbuf + chunks[0]);
    var run := Prefixed(1, [], rest);
    assert run.sent == rest.sent && run.err == rest.err && run.next == rest.next;
    forall j: nat | Fills(w, chunks, j)
      ensures rest.sent != [] && rest.sent[0] == w.wbuf + Flatten(chunks[..j])
    {
      FlattenFront(chunks, j);
      assert Fills(next, chunks[1..], j - 1);
      Regroup(w.wbuf, chunks[0], Flatten(chunks[1..][..j - 1]));
    }
    assert |w.wbuf| + |Flatten(chunks)| == |next.wbuf| + |Flatten(chunks[1..])|;
    if rest.sent != [] {
      var j: nat :| Fills(next, chunks[1..], j);
      FlattenFront(chunks, j + 1);
      assert Fills(w, chunks, j + 1);
    }
  }

  lemma {:induction false} BodyGoesOutIf(w: Writer, chunks: seq<seq<byte>>, budget: nat)
    requires w.wlength > 0 && budget > 0
    ensures GoesOutIf(w, chunks, RunWrites(w, chunks, budget))
    decreases chunks
  {
    if chunks != [] {
      if w.wlength <= |w.wbuf + chunks[0]| {
        FirstChunkDecides(w, chunks, budget);
      } else {
        var next := Writer(w.wlength, w.wbuf + chunks[0]);
        BodyGoesOutIf(next, chunks[1..], budget);
        OtherChunksDecide(w, chunks, RunWrites(next, chunks[1..], budget));
      }
    }
  }

  /** The header announces the unsent frame and the first j chunks behind it. */
  predicate Releases(unsent: seq<byte>, header: seq<byte>, chunks: seq<seq<byte>>, j: nat)
    requires |header| == 4
  {
    1 <= j <= |chunks| && |unsent| + |Flatten(chunks[..j])| == BE32(header)
  }

  /** An unsent frame is a frame: no message that it merely leads is one. */
  lemma LeadsNoFrame(unsent: seq<byte>, header: seq<byte>, more: seq<byte>)
    requires IsFrame(unsent) && |header| == 4
    ensures !IsFrame(unsent + header + more)
  {
    assert BE32(unsent + header + more) == BE32(unsent);
  }

  /**
   After a failed transport write, whatever header and chunks come next: the unsent frame goes out exactly if the
   header announces it together with the first few chunks, and then as part of a malformed message. If the
   chunks pass the announced length without that, everything from there on is refused.
   */
  lemma UnsentFrameLingers(w: Writer, p: seq<byte>, header: seq<byte>, chunks: seq<seq<byte>>, budget: nat)
    requires w.Valid() && WriteStep(w, p, false).err == Some(TransportFailed) && |header| == 4 && budget > 0
    ensures WriteStep(w, p, false).next == Lingering(w, p)
    ensures var unsent := w.wbuf + p;
            var run := RunWrites(Lingering(w, p), [header] + chunks, budget);
            && (run.sent != [] <==> exists j: nat :: Releases(unsent, header, chunks, j))
            && (forall j: nat :: Releases(unsent, header, chunks, j) ==>
                              run.sent[0] == unsent + header + Flatten(chunks[..j]) && !IsFrame(run.sent[0]))
            && (run.sent == [] && chunks != [] && |unsent| + |Flatten(chunks)| > BE32(header) ==>
                  run.err == Some(InvalidWriteLength) && run.next.Overrun())
  {
    var unsent := w.wbuf + p;
    var announced := Writer(BE32(header) + 4, unsent + header);
    var rest := RunWrites(announced, chunks, budget);
    assert ([header] + chunks)[1..] == chunks;
    assert RunWrites(Lingering(w, p), [header] + chunks, budget) == Prefixed(1, [], rest);
    assert [] + rest.sent == rest.sent;
    BodyGoesOutIf(announced, chunks, budget);
    forall j: nat ensures Releases(unsent, header, chunks, j) <==> Fills(announced, chunks, j) {
    }
    assert BE32(unsent) == BE32(w.wbuf);
    forall j: nat | Releases(unsent, header, chunks, j) ensures !IsFrame(unsent + header + Flatten(chunks[..j])) {
      LeadsNoFrame(unsent, header, Flatten(chunks[..j]));
    }
  }

  /**
   With an honest header, one that announces just its own body: the unsent frame goes out exactly if the chunks
   after some first ones are together as long as it is. Otherwise, as always for a body in one piece, the
   frame is refused, and by OverrunIsFinal so is everything after it.
   */
  lemma HonestHeaderReleasesIf(w: Writer, p: seq<byte>, chunks: seq<seq<byte>>, budget: nat)
    requires w.Valid() && WriteStep(w, p, false).err == Some(TransportFailed) && budget > 0
    requires chunks != [] && |Flatten(chunks)| < 0x1_0000_0000
    ensures var run := RunWrites(Lingering(w, p), FrameWrites(chunks), budget);
            && (run.sent != [] <==> exists j :: 1 <= j < |chunks| && |Flatten(chunks[j..])| == |w.wbuf + p|)
            && (run.sent == [] ==> run.err == Some(InvalidWriteLength) && run.next.Overrun())
  {
    var header := PutBE32(|Flatten(chunks)|);
    WordRoundTrip(|Flatten(chunks)|);
    UnsentFrameLingers(w, p, header, chunks, budget);
    var unsent := w.wbuf + p;
    assert |unsent| > 0;
    forall j | 1 <= j <= |chunks|
      ensures Releases(unsent, header, chunks, j) <==> j < |chunks| && |Flatten(chunks[j..])| == |unsent|
    {
      assert chunks[..j] + chunks[j..] == chunks;
      FlattenAppend(chunks[..j], chunks[j..]);
    }
  }

  /** Such a body in two non-empty chunks exists, for any first chunk that leaves room for the length. */
  lemma SplitBodyReleases(w: Writer, p: seq<byte>, first: seq<byte>, budget: nat) returns (chunks: seq<seq<byte>>)
    requires w.Valid() && WriteStep(w, p, false).err == Some(TransportFailed) && budget > 0
    requires first != [] && |first| + |w.wbuf + p| < 0x1_0000_0000
    ensures |chunks| == 2 && chunks[0] == first && chunks[1] != [] && |Flatten(chunks)| < 0x1_0000_0000
    ensures LastCompletes(chunks) && RunWrites(Lingering(w, p), FrameWrites(chunks), budget).sent != []
  {
    chunks := [first, Zeros(|w.wbuf + p|)];
    assert chunks[1..] == [chunks[1]];
    FlattenOne(chunks[1]);
    assert Flatten(chunks) == first + chunks[1];
    NonEmptyChunksComplete(chunks);
    HonestHeaderReleasesIf(w, p, chunks, budget);
    assert |Flatten(chunks[1..])| == |w.wbuf + p|;
  }

  /** For any chunk short enough to be announced together with the unsent frame there is a header that lets it out. */
  lemma LingeringHeaderExists(w: Writer, p: seq<byte>, chunk: seq<byte>, budget: nat) returns (header: seq<byte>)
    requires w.Valid() && WriteStep(w, p, false).err == Some(TransportFailed) && budget > 0
    requires |w.wbuf + p| + |chunk| < 0x1_0000_0000
    ensures |header| == 4
    ensures RunWrites(Lingering(w, p), [header] + [chunk], budget).sent != []
  {
    header := PutBE32(|w.wbuf + p| + |chunk|);
    WordRoundTrip(|w.wbuf + p| + |chunk|);
    UnsentFrameLingers(w, p, header, [chunk], budget);
    FlattenOne(chunk);
    assert [chunk][..1] == [chunk];
    assert Releases(w.wbuf + p, header, [chunk], 1);
  }

  // ---------------------------------------------------------------- the proxy itself

  class Proxy {
    const conn: Conn
    var buf: seq<byte>
    var wlength: nat
    var wbuf: seq<byte>

    constructor (conn: Conn)
      ensures this.conn == conn && buf == [] && wlength == 0 && wbuf == []
    {
      this.conn := conn;
      buf, wlength, wbuf := [], 0, [];
    }

    function AsReader(): Reader
      reads this, conn
    {
      Reader(buf, conn.incoming)
    }

    function AsWriter(): Writer
      reads this
    {
      Writer(wlength, wbuf)
    }

    method Read(p: array<byte>) returns (n: nat, err: Option<Error>)
      modifies this`buf, conn`incoming, p
      ensures var s := ReadStep(old(AsReader()), conn.ending, p.Length);
              && AsReader() == s.next && err == s.err
              && n == |s.data| && n <= p.Length && p[..n] == s.data && p[n..] == old(p[..])[n..]
    {
      if |buf| > 0 {
        n := Copy(p);
        return n, None;
      }
      var length, lengthErr := conn.ReadFull(4);
      if lengthErr.Some? {
        return 0, lengthErr;
      }
      var l: nat := BE32(length);
      if l == 0 {
        return 0, Some(UnexpectedEOF);
      }
      if l > MAX_AGENT_RESPONSE_BYTES {
        return 0, Some(RequestTooLarge(l));
      }
      var body, bodyErr := conn.ReadFull(l);
      buf := Zeros(4) + body + Zeros(l - |body|);
      if bodyErr.Some? {
        return 0, bodyErr;
      }
      assert buf[4..] == body;
      if buf[4] == AGENT_SIGN_REQUEST {
        if UnmarshalSign(buf[4..]).None? {
          l := l + 4;
          buf := buf + Zeros(4);
        }
      }
      buf := PutBE32(l) + buf[4..];
      assert buf == Encode(Normalise(body));
      n := Copy(p);
      return n, None;
    }

    /** Moves the front of `buf` into the caller's buffer. */
    method Copy(p: array<byte>) returns (n: nat)
      modifies this`buf, p
      ensures n == Min(p.Length, |old(buf)|) && p[..n] == old(buf)[..n] && buf == old(buf)[n..]
      ensures p[n..] == old(p[..])[n..]
    {
      n := Min(p.Length, |buf|);
      forall i | 0 <= i < n {
        p[i] := buf[i];
      }
      buf := buf[n..];
    }

    method Write(p: seq<byte>) returns (n: nat, err: Option<Error>)
      modifies this`wlength, this`wbuf, conn`sent, conn`writes
      ensures var s := WriteStep(old(AsWriter()), p, old(conn.NextWriteSucceeds()));
              && AsWriter() == s.next && err == s.err
              && n == (if s.err.None? then |p| else 0)
              && conn.sent == old(conn.sent) + s.sent
              && conn.writes == old(conn.writes) + if s.sent != [] || s.err == Some(TransportFailed) then 1 else 0
    {
      if wlength == 0 {
        if |p| != 4 {
          return 0, Some(InvalidWriteStatus);
        }
        wlength := BE32(p) + 4;
        wbuf := wbuf + p;
      } else {
        wbuf := wbuf + p;
        if |wbuf| == wlength {
          wlength := 0;
          err := conn.Write(wbuf);
          if err.Some? {
            return 0, err;
          }
          wbuf := [];
        } else if |wbuf| > wlength {
          return 0, Some(InvalidWriteLength);
        }
      }
      return |p|, None;
    }
  }
}
