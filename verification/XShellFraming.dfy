/**
 The frames an XShell client and the SSH agent exchange, as values: sign requests with and
 without their flags word, length-prefixed streams, and the stream the proxy owes its reader.
 */
module XShellFraming {
  import opened Bytes
  import opened Wrappers

  const MAX_AGENT_RESPONSE_BYTES := 0x100_0000
  const AGENT_SIGN_REQUEST: byte := 13

  // ---------------------------------------------------------------- strings and sign requests

  /** The `string` of section 5 of RFC 4251: a length word, then that many bytes. */
  function PutString(s: seq<byte>): seq<byte>
    requires |s| < 0x1_0000_0000
  {
    PutBE32(|s|) + s
  }

  /** Splits a leading `string` from what follows it; None when the input is too short. */
  function ParseString(b: seq<byte>): Option<(seq<byte>, seq<byte>)> {
    if |b| < 4 || |b| - 4 < BE32(b) then None
    else Some((b[4..4 + BE32(b)], b[4 + BE32(b)..]))
  }

  lemma StringRoundTrip(s: seq<byte>, rest: seq<byte>)
    requires |s| < 0x1_0000_0000
    ensures ParseString(PutString(s) + rest) == Some((s, rest))
  {
    var b := PutString(s) + rest;
    WordRoundTrip(|s|);
    assert b[..4] == PutBE32(|s|);
    assert BE32(b) == BE32(b[..4]);
  }

  lemma ParsedString(b: seq<byte>)
    requires ParseString(b).Some?
    ensures var (s, rest) := ParseString(b).value;
            |s| < 0x1_0000_0000 && b == PutString(s) + rest
  {
    BytesRoundTrip(b);
    assert b == b[..4] + b[4..4 + BE32(b)] + b[4 + BE32(b)..];
  }

  datatype SignRequest = SignRequest(keyBlob: seq<byte>, data: seq<byte>, flags: uint32) {
    predicate Encodable() {
      |keyBlob| < 0x1_0000_0000 && |data| < 0x1_0000_0000
    }
  }

  /** A sign request whose flags word is missing, as XShell sends it. */
  function MarshalUnflagged(keyBlob: seq<byte>, data: seq<byte>): seq<byte>
    requires |keyBlob| < 0x1_0000_0000 && |data| < 0x1_0000_0000
  {
    [AGENT_SIGN_REQUEST] + (PutString(keyBlob) + PutString(data))
  }

  function MarshalSign(r: SignRequest): seq<byte>
    requires r.Encodable()
  {
    MarshalUnflagged(r.keyBlob, r.data) + PutBE32(r.flags)
  }

  /** The two strings after the type byte and what follows them. */
  function ParseStrings(b: seq<byte>): Option<(seq<byte>, seq<byte>, seq<byte>)> {
    if |b| == 0 || b[0] != AGENT_SIGN_REQUEST then None
    else
      match ParseString(b[1..])
      case None => None
      case Some((keyBlob, rest)) =>
        match ParseString(rest)
        case None => None
        case Some((data, tail)) => Some((keyBlob, data, tail))
  }

  /** `ssh.Unmarshal` into a sign request: the type must match and no byte may be missing or left over. */
  function UnmarshalSign(b: seq<byte>): Option<SignRequest> {
    match ParseStrings(b)
    case None => None
    case Some((keyBlob, data, tail)) =>
      if |tail| == 4 then Some(SignRequest(keyBlob, data, BE32(tail))) else None
  }

  lemma StringsRoundTrip(keyBlob: seq<byte>, data: seq<byte>, tail: seq<byte>)
    requires |keyBlob| < 0x1_0000_0000 && |data| < 0x1_0000_0000
    ensures ParseStrings(MarshalUnflagged(keyBlob, data) + tail) == Some((keyBlob, data, tail))
  {
    var b := MarshalUnflagged(keyBlob, data) + tail;
    StringRoundTrip(keyBlob, PutString(data) + tail);
    StringRoundTrip(data, tail);
    assert b[1..] == PutString(keyBlob) + (PutString(data) + tail);
  }

  lemma RegroupTail(a: seq<byte>, b: seq<byte>, c: seq<byte>, d: seq<byte>)
    ensures a + (b + (c + d)) == a + (b + c) + d
  {
  }

  lemma ParsedStrings(b: seq<byte>)
    requires ParseStrings(b).Some?
    ensures var (keyBlob, data, tail) := ParseStrings(b).value;
            && |keyBlob| < 0x1_0000_0000 && |data| < 0x1_0000_0000
            && b == MarshalUnflagged(keyBlob, data) + tail
  {
    ParsedString(b[1..]);
    var (keyBlob, rest) := ParseString(b[1..]).value;
    ParsedString(rest);
    var (data, tail) := ParseString(rest).value;
    assert b == [AGENT_SIGN_REQUEST] + b[1..];
    RegroupTail([AGENT_SIGN_REQUEST], PutString(keyBlob), PutString(data), tail);
  }

  /** A body parses exactly to the request it is the encoding of. */
  lemma UnmarshalIff(b: seq<byte>, r: SignRequest)
    ensures UnmarshalSign(b) == Some(r) <==> r.Encodable() && b == MarshalSign(r)
  {
    if UnmarshalSign(b) == Some(r) {
      ParsedStrings(b);
      var tail := ParseStrings(b).value.2;
      BytesRoundTrip(tail);
      assert tail[..4] == tail;
    }
    if r.Encodable() && b == MarshalSign(r) {
      StringsRoundTrip(r.keyBlob, r.data, PutBE32(r.flags));
      WordRoundTrip(r.flags);
    }
  }

  // ---------------------------------------------------------------- repair of a sign request

  predicate NeedsRepair(body: seq<byte>) {
    |body| > 0 && body[0] == AGENT_SIGN_REQUEST && UnmarshalSign(body).None?
  }

  /** What the proxy forwards for one request body. */
  function Normalise(body: seq<byte>): (b: seq<byte>)
    ensures |body| <= |b| <= |body| + 4
  {
    if NeedsRepair(body) then body + Zeros(4) else body
  }

  lemma UnflaggedNeedsRepair(keyBlob: seq<byte>, data: seq<byte>)
    requires |keyBlob| < 0x1_0000_0000 && |data| < 0x1_0000_0000
    ensures NeedsRepair(MarshalUnflagged(keyBlob, data))
  {
    StringsRoundTrip(keyBlob, data, []);
    assert MarshalUnflagged(keyBlob, data) + [] == MarshalUnflagged(keyBlob, data);
  }

  /**
   Repair is exact: the forwarded body is a sign request r precisely when the client sent r, or sent
   r's key and data with no flags word and r carries flags 0. No other malformed body starts to parse.
   */
  lemma RepairIsExact(body: seq<byte>, r: SignRequest)
    ensures UnmarshalSign(Normalise(body)) == Some(r) <==>
            r.Encodable() && (body == MarshalSign(r) || (r.flags == 0 && body == MarshalUnflagged(r.keyBlob, r.data)))
  {
    UnmarshalIff(body, r);
    UnmarshalIff(Normalise(body), r);
    if r.Encodable() {
      UnflaggedNeedsRepair(r.keyBlob, r.data);
    }
    assert PutBE32(0) == Zeros(4);
    if NeedsRepair(body) {
      if r.Encodable() && body + Zeros(4) == MarshalSign(r) {
        var m := MarshalUnflagged(r.keyBlob, r.data);
        assert |body| == |m|;
        assert (body + Zeros(4))[..|m|] == body && MarshalSign(r)[..|m|] == m;
        assert (body + Zeros(4))[|m|..] == Zeros(4) && MarshalSign(r)[|m|..] == PutBE32(r.flags);
        WordRoundTrip(r.flags);
        WordRoundTrip(0);
      }
    }
  }

  /** The body is type 13, this key, this data and these flags, and nothing else. */
  predicate IsRequestFor(body: seq<byte>, k: seq<byte>, d: seq<byte>, f: uint32) {
    && |k| < 0x1_0000_0000 && |d| < 0x1_0000_0000
    && body == [13] + PutBE32(|k|) + k + PutBE32(|d|) + d + PutBE32(f)
  }

  ghost predicate IsSignRequest(body: seq<byte>) {
    exists k: seq<byte>, d: seq<byte>, f: uint32 :: IsRequestFor(body, k, d, f)
  }

  lemma RegroupFive(a: seq<byte>, b: seq<byte>, c: seq<byte>, d: seq<byte>, e: seq<byte>)
    ensures a + ((b + c) + (d + e)) == a + b + c + d + e
  {
  }

  lemma SignLayout(k: seq<byte>, d: seq<byte>)
    requires |k| < 0x1_0000_0000 && |d| < 0x1_0000_0000
    ensures MarshalUnflagged(k, d) == [13] + PutBE32(|k|) + k + PutBE32(|d|) + d
  {
    RegroupFive([13], PutBE32(|k|), k, PutBE32(|d|), d);
  }

  lemma IsRequestForIff(body: seq<byte>, k: seq<byte>, d: seq<byte>, f: uint32)
    ensures IsRequestFor(body, k, d, f) <==> UnmarshalSign(body) == Some(SignRequest(k, d, f))
  {
    UnmarshalIff(body, SignRequest(k, d, f));
    if |k| < 0x1_0000_0000 && |d| < 0x1_0000_0000 {
      SignLayout(k, d);
    }
  }

  lemma IsSignRequestIff(body: seq<byte>)
    ensures IsSignRequest(body) <==> UnmarshalSign(body).Some?
  {
    if UnmarshalSign(body).Some? {
      var r := UnmarshalSign(body).value;
      IsRequestForIff(body, r.keyBlob, r.data, r.flags);
      assert IsRequestFor(body, r.keyBlob, r.data, r.flags);
    }
    if IsSignRequest(body) {
      var k: seq<byte>, d: seq<byte>, f: uint32 :| IsRequestFor(body, k, d, f);
      IsRequestForIff(body, k, d, f);
    }
  }

  /** Exactly the bodies of type 13 that are not whole sign requests get four zeros; all others pass unchanged. */
  lemma NormaliseIs(body: seq<byte>)
    ensures Normalise(body) == if body != [] && body[0] == 13 && !IsSignRequest(body) then body + [0, 0, 0, 0] else body
  {
    IsSignRequestIff(body);
    assert Zeros(4) == [0, 0, 0, 0];
  }

  /** A sign request as XShell sends it, with no flags word, is one of the former. */
  lemma UnflaggedIsRepaired(k: seq<byte>, d: seq<byte>)
    requires |k| < 0x1_0000_0000 && |d| < 0x1_0000_0000
    ensures var body := [13] + PutBE32(|k|) + k + PutBE32(|d|) + d;
            Normalise(body) == body + [0, 0, 0, 0]
  {
    SignLayout(k, d);
    UnflaggedNeedsRepair(k, d);
    assert Zeros(4) == [0, 0, 0, 0];
  }

  /** The same request twice: without its flags word, and with flags 0. */
  ghost predicate SameUnflagged(a: seq<byte>, b: seq<byte>) {
    exists r: SignRequest ::
      r.Encodable() && r.flags == 0 && a == MarshalUnflagged(r.keyBlob, r.data) && b == MarshalSign(r)
  }

  lemma PaddingIsInjective(a: seq<byte>, b: seq<byte>)
    ensures a + Zeros(4) == b + Zeros(4) ==> a == b
  {
    if a + Zeros(4) == b + Zeros(4) {
      assert a == (a + Zeros(4))[..|a|] && b == (b + Zeros(4))[..|b|];
    }
  }

  lemma RepairedMeets(a: seq<byte>, b: seq<byte>)
    requires NeedsRepair(a)
    ensures Normalise(a) == Normalise(b) && a != b <==> SameUnflagged(a, b)
  {
    assert PutBE32(0) == Zeros(4);
    if Normalise(a) == Normalise(b) && a != b {
      PaddingIsInjective(a, b);
      assert b[0] == a[0];
      var r := UnmarshalSign(b).value;
      RepairIsExact(a, r);
      UnmarshalIff(b, r);
      UnmarshalIff(a, r);
    }
    if SameUnflagged(a, b) {
      var r: SignRequest :|
        r.Encodable() && r.flags == 0 && a == MarshalUnflagged(r.keyBlob, r.data) && b == MarshalSign(r);
      UnmarshalIff(b, r);
      assert |b| == |a| + 4;
    }
  }

  /**
   All that forwarding forgets is whether a zero flags word was sent: two different bodies are forwarded
   alike if and only if they are the same request, once without the word and once with flags 0.
   */
  lemma NormaliseForgets(a: seq<byte>, b: seq<byte>)
    ensures a != b && Normalise(a) == Normalise(b) <==> SameUnflagged(a, b) || SameUnflagged(b, a)
  {
    if NeedsRepair(a) {
      RepairedMeets(a, b);
    }
    if NeedsRepair(b) {
      RepairedMeets(b, a);
    }
    forall r: SignRequest | r.Encodable() ensures NeedsRepair(MarshalUnflagged(r.keyBlob, r.data)) {
      UnflaggedNeedsRepair(r.keyBlob, r.data);
    }
    forall r: SignRequest | r.Encodable() ensures !NeedsRepair(MarshalSign(r)) {
      UnmarshalIff(MarshalSign(r), r);
    }
  }

  // ---------------------------------------------------------------- length-prefixed streams

  /** A complete frame of 1 to `limit` body bytes stands at the front of the stream. */
  predicate HasFrame(stream: seq<byte>, limit: nat) {
    |stream| >= 4 && 1 <= BE32(stream) <= limit && |stream| - 4 >= BE32(stream)
  }

  function Body(stream: seq<byte>, limit: nat): (body: seq<byte>)
    requires HasFrame(stream, limit)
    ensures 1 <= |body| <= limit
  {
    stream[4..4 + BE32(stream)]
  }

  function AfterFrame(stream: seq<byte>, limit: nat): seq<byte>
    requires HasFrame(stream, limit)
  {
    stream[4 + BE32(stream)..]
  }

  /** The bodies a reader with this size limit takes from the stream before its first error. */
  function Frames(stream: seq<byte>, limit: nat): seq<seq<byte>> {
    if HasFrame(stream, limit) then [Body(stream, limit)] + Frames(AfterFrame(stream, limit), limit) else []
  }

  /** What is left of the stream when that first error strikes. */
  function Residue(stream: seq<byte>, limit: nat): seq<byte> {
    if HasFrame(stream, limit) then Residue(AfterFrame(stream, limit), limit) else stream
  }

  function Encode(body: seq<byte>): seq<byte>
    requires |body| < 0x1_0000_0000
  {
    PutBE32(|body|) + body
  }

  /** A frame followed by anything decodes to its body and that rest, when the limit allows it. */
  lemma FrameRoundTrip(body: seq<byte>, rest: seq<byte>, limit: nat)
    requires 1 <= |body| < 0x1_0000_0000
    ensures HasFrame(Encode(body) + rest, limit) <==> |body| <= limit
    ensures |body| <= limit ==>
              Body(Encode(body) + rest, limit) == body && AfterFrame(Encode(body) + rest, limit) == rest
  {
    var stream := Encode(body) + rest;
    WordRoundTrip(|body|);
    assert stream[..4] == PutBE32(|body|);
    assert BE32(stream) == BE32(stream[..4]);
  }

  /** Every body taken is within the limit. */
  lemma {:induction false} FramesFit(stream: seq<byte>, limit: nat)
    ensures forall i :: 0 <= i < |Frames(stream, limit)| ==> 1 <= |Frames(stream, limit)[i]| <= limit
  {
    if HasFrame(stream, limit) {
      FramesFit(AfterFrame(stream, limit), limit);
    }
  }

  /** Frames are taken one after the other. */
  lemma FramesStep(body: seq<byte>, rest: seq<byte>, limit: nat)
    requires 1 <= |body| <= limit && |body| < 0x1_0000_0000
    ensures Frames(PutBE32(|body|) + body + rest, limit) == [body] + Frames(rest, limit)
    ensures Residue(PutBE32(|body|) + body + rest, limit) == Residue(rest, limit)
  {
    FrameRoundTrip(body, rest, limit);
  }

  /** The stream the proxy owes its reader for a given stream from the client. */
  function Reframe(stream: seq<byte>): seq<byte> {
    if HasFrame(stream, MAX_AGENT_RESPONSE_BYTES)
    then Encode(Normalise(Body(stream, MAX_AGENT_RESPONSE_BYTES)))
         + Reframe(AfterFrame(stream, MAX_AGENT_RESPONSE_BYTES))
    else []
  }

  /** A frame of the client's, 1 to 16777216 bytes long, is owed as its normalised body with a matching length. */
  lemma ReframeStep(body: seq<byte>, rest: seq<byte>)
    requires 1 <= |body| <= 16777216
    ensures Reframe(PutBE32(|body|) + body + rest)
         == PutBE32(|Normalise(body)|) + Normalise(body) + Reframe(rest)
  {
    FrameRoundTrip(body, rest, MAX_AGENT_RESPONSE_BYTES);
  }

  function NormaliseAll(bodies: seq<seq<byte>>): (r: seq<seq<byte>>)
    ensures |r| == |bodies|
  {
    seq(|bodies|, i requires 0 <= i < |bodies| => Normalise(bodies[i]))
  }

  lemma NormaliseCons(body: seq<byte>, bodies: seq<seq<byte>>)
    ensures NormaliseAll([body] + bodies) == [Normalise(body)] + NormaliseAll(bodies)
  {
  }

  /** Re-decoding the owed stream gives exactly the normalised bodies, with nothing left over. */
  lemma {:induction false} ReframeDecodes(stream: seq<byte>)
    ensures Frames(Reframe(stream), MAX_AGENT_RESPONSE_BYTES + 4)
         == NormaliseAll(Frames(stream, MAX_AGENT_RESPONSE_BYTES))
    ensures Residue(Reframe(stream), MAX_AGENT_RESPONSE_BYTES + 4) == []
  {
    if HasFrame(stream, MAX_AGENT_RESPONSE_BYTES) {
      var body := Body(stream, MAX_AGENT_RESPONSE_BYTES);
      var rest := AfterFrame(stream, MAX_AGENT_RESPONSE_BYTES);
      ReframeDecodes(rest);
      FrameRoundTrip(Normalise(body), Reframe(rest), MAX_AGENT_RESPONSE_BYTES + 4);
      NormaliseCons(body, Frames(rest, MAX_AGENT_RESPONSE_BYTES));
      assert Reframe(stream) == Encode(Normalise(body)) + Reframe(rest);
    }
  }

  // ---------------------------------------------------------------- what the agent server makes of it

  /** Repair pushed this body past the limit that the server applies to the same frame. */
  predicate Outgrown(body: seq<byte>) {
    NeedsRepair(body) && |body| + 4 > MAX_AGENT_RESPONSE_BYTES
  }

  /** The bodies before the first outgrown one. */
  function BeforeOutgrown(bodies: seq<seq<byte>>): seq<seq<byte>> {
    if bodies == [] || Outgrown(bodies[0]) then [] else [bodies[0]] + BeforeOutgrown(bodies[1..])
  }

  lemma {:induction false} BeforeOutgrownIs(bodies: seq<seq<byte>>)
    ensures BeforeOutgrown(bodies) <= bodies
    ensures |BeforeOutgrown(bodies)| < |bodies| ==> Outgrown(bodies[|BeforeOutgrown(bodies)|])
  {
    if bodies != [] {
      BeforeOutgrownIs(bodies[1..]);
    }
  }

  /** The server, whose limit is the proxy's own, serves the normalised bodies up to the first outgrown one. */
  lemma {:induction false} ServerReceives(stream: seq<byte>)
    ensures Frames(Reframe(stream), MAX_AGENT_RESPONSE_BYTES)
         == NormaliseAll(BeforeOutgrown(Frames(stream, MAX_AGENT_RESPONSE_BYTES)))
  {
    if HasFrame(stream, MAX_AGENT_RESPONSE_BYTES) {
      var body := Body(stream, MAX_AGENT_RESPONSE_BYTES);
      var rest := AfterFrame(stream, MAX_AGENT_RESPONSE_BYTES);
      ServerReceives(rest);
      FrameRoundTrip(Normalise(body), Reframe(rest), MAX_AGENT_RESPONSE_BYTES);
      var bodies := Frames(rest, MAX_AGENT_RESPONSE_BYTES);
      assert ([body] + bodies)[1..] == bodies;
      NormaliseCons(body, BeforeOutgrown(bodies));
    }
  }

  /** Every body the proxy takes reaches the server precisely when none of them is outgrown. */
  lemma ServerReceivesAllIff(stream: seq<byte>)
    ensures |Frames(Reframe(stream), MAX_AGENT_RESPONSE_BYTES)| == |Frames(stream, MAX_AGENT_RESPONSE_BYTES)|
       <==> forall body <- Frames(stream, MAX_AGENT_RESPONSE_BYTES) :: !Outgrown(body)
  {
    ServerReceives(stream);
    KeepsAllIff(Frames(stream, MAX_AGENT_RESPONSE_BYTES));
  }

  lemma {:induction false} KeepsAllIff(bodies: seq<seq<byte>>)
    ensures |BeforeOutgrown(bodies)| <= |bodies|
    ensures |BeforeOutgrown(bodies)| == |bodies| <==> forall body <- bodies :: !Outgrown(body)
  {
    if bodies != [] {
      KeepsAllIff(bodies[1..]);
      assert bodies == [bodies[0]] + bodies[1..];
    }
  }

  /** Such a body exists: the largest frame the proxy accepts, a sign request with surplus bytes. */
  lemma OutgrownExists() returns (stream: seq<byte>)
    ensures |Frames(stream, MAX_AGENT_RESPONSE_BYTES)| == 1
    ensures Frames(Reframe(stream), MAX_AGENT_RESPONSE_BYTES) == []
  {
    var surplus := Zeros(MAX_AGENT_RESPONSE_BYTES - 9);
    var body := MarshalUnflagged([], []) + surplus;
    StringsRoundTrip([], [], surplus);
    stream := Encode(body) + [];
    FrameRoundTrip(body, [], MAX_AGENT_RESPONSE_BYTES);
    ServerReceives(stream);
  }
}
