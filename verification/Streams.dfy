/** A connection as the transports see it: bytes still to arrive, how they end, and what was written. */
module Streams {
  import opened Bytes
  import opened Wrappers

  datatype Error =
    | EOF
    | UnexpectedEOF
    | ClosedPipe
    | TransportFailed
    | RequestTooLarge(size: nat)
    | InvalidWriteStatus
    | InvalidWriteLength
    | InvalidMessage
    | InvalidCookie
    | InvalidUUID

  /** `io.ReadFull` cut short after `got` bytes: a clean end in the middle is reported as unexpected. */
  function ShortRead(got: nat, ending: Error): Error {
    if got > 0 && ending == EOF then UnexpectedEOF else ending
  }

  /**
   `incoming` is everything the peer will still deliver, after which reads report `ending`. The i-th
   call of Write fails when i is in `faults`, and otherwise puts its argument on the wire as one message.
   */
  class Conn {
    var incoming: seq<byte>
    const ending: Error
    var sent: seq<seq<byte>>
    var writes: nat
    const faults: set<nat>

    constructor (incoming: seq<byte>, ending: Error, faults: set<nat>)
      ensures this.incoming == incoming && this.ending == ending && this.faults == faults
      ensures sent == [] && writes == 0
    {
      this.incoming, this.ending, this.faults := incoming, ending, faults;
      sent, writes := [], 0;
    }

    /** Takes exactly n bytes, or all there are and an error. */
    method ReadFull(n: nat) returns (b: seq<byte>, err: Option<Error>)
      modifies this`incoming
      ensures n <= |old(incoming)| ==>
                err == None && b == old(incoming)[..n] && incoming == old(incoming)[n..]
      ensures n > |old(incoming)| ==>
                err == Some(ShortRead(|b|, ending)) && b == old(incoming) && incoming == []
    {
      if n <= |incoming| {
        b, err := incoming[..n], None;
        incoming := incoming[n..];
      } else {
        b, err := incoming, Some(ShortRead(|incoming|, ending));
        incoming := [];
      }
    }

    predicate NextWriteSucceeds()
      reads this`writes
    {
      writes !in faults
    }

    method Write(message: seq<byte>) returns (err: Option<Error>)
      modifies this`sent, this`writes
      ensures writes == old(writes) + 1
      ensures if old(NextWriteSucceeds()) then err == None && sent == old(sent) + [message]
              else err == Some(TransportFailed) && sent == old(sent)
    {
      if NextWriteSucceeds() {
        sent, err := sent + [message], None;
      } else {
        err := Some(TransportFailed);
      }
      writes := writes + 1;
    }
  }
}
