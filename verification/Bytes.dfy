/** Bytes, 32-bit words and their encodings, shared by every wire format of the agent. */
module Bytes {
  type byte = x: int | 0 <= x < 0x100
  type uint32 = x: int | 0 <= x < 0x1_0000_0000

  /** A 32-bit word, most significant byte first: the `uint32` of section 5 of RFC 4251. */
  function PutBE32(n: uint32): (b: seq<byte>)
    ensures |b| == 4
  {
    [n / 0x100_0000, n / 0x1_0000 % 0x100, n / 0x100 % 0x100, n % 0x100]
  }

  function BE32(b: seq<byte>): uint32
    requires |b| >= 4
  {
    var b0: int, b1: int, b2: int, b3: int := b[0], b[1], b[2], b[3];
    b0 * 0x100_0000 + b1 * 0x1_0000 + b2 * 0x100 + b3
  }

  function PutLE32(n: uint32): (b: seq<byte>)
    ensures |b| == 4
  {
    [n % 0x100, n / 0x100 % 0x100, n / 0x1_0000 % 0x100, n / 0x100_0000]
  }

  function LE32(b: seq<byte>): uint32
    requires |b| >= 4
  {
    var b0: int, b1: int, b2: int, b3: int := b[0], b[1], b[2], b[3];
    b0 + b1 * 0x100 + b2 * 0x1_0000 + b3 * 0x100_0000
  }

  /** Decoding an encoded word gives the word back. */
  lemma WordRoundTrip(n: uint32)
    ensures BE32(PutBE32(n)) == n
    ensures LE32(PutLE32(n)) == n
  {
    var upper: int := n / 0x100;
    var high: int := n / 0x1_0000;
    assert high == upper / 0x100 && n / 0x100_0000 == high / 0x100;
  }

  lemma Digits(a: byte, b: byte, c: byte, d: byte)
    ensures var n := (a as int) * 0x100_0000 + b * 0x1_0000 + c * 0x100 + d;
            && 0 <= n < 0x1_0000_0000
            && n / 0x100_0000 == a && n / 0x1_0000 % 0x100 == b && n / 0x100 % 0x100 == c && n % 0x100 == d
  {
    var high: int := a * 0x100 + b;
    var upper: int := high * 0x100 + c;
    var n: int := upper * 0x100 + d;
    assert n / 0x100 == upper;
    assert n / 0x1_0000 == high;
    assert n / 0x100_0000 == a;
  }

  /** Encoding a decoded word gives back the four bytes it was read from. */
  lemma BytesRoundTrip(b: seq<byte>)
    requires |b| >= 4
    ensures PutBE32(BE32(b)) == b[..4]
    ensures PutLE32(LE32(b)) == b[..4]
  {
    Digits(b[0], b[1], b[2], b[3]);
    Digits(b[3], b[2], b[1], b[0]);
  }

  /** Where each byte of a word stands: the most significant one first, or last. */
  lemma WordLayout(a: byte, b: byte, c: byte, d: byte, rest: seq<byte>)
    ensures var n := a * 0x100_0000 + b * 0x1_0000 + c * 0x100 + d;
            && PutBE32(n) == [a, b, c, d] && BE32([a, b, c, d] + rest) == n
            && PutLE32(n) == [d, c, b, a] && LE32([d, c, b, a] + rest) == n
  {
    Digits(a, b, c, d);
  }

  function Min(a: nat, b: nat): nat {
    if a <= b then a else b
  }

  function Zeros(n: nat): (b: seq<byte>)
    ensures |b| == n
  {
    seq(n, _ => 0)
  }

  function Flatten(ss: seq<seq<byte>>): seq<byte> {
    if ss == [] then [] else ss[0] + Flatten(ss[1..])
  }

  lemma {:induction false} FlattenAppend(ss: seq<seq<byte>>, ts: seq<seq<byte>>)
    ensures Flatten(ss + ts) == Flatten(ss) + Flatten(ts)
  {
    if ss == [] {
      assert ss + ts == ts;
    } else {
      assert (ss + ts)[0] == ss[0] && (ss + ts)[1..] == ss[1..] + ts;
      FlattenAppend(ss[1..], ts);
      assert ss[0] + (Flatten(ss[1..]) + Flatten(ts)) == ss[0] + Flatten(ss[1..]) + Flatten(ts);
    }
  }

  /** Concatenation in two halves. */
  lemma Regroup<T>(a: seq<T>, b: seq<T>, c: seq<T>)
    ensures a + (b + c) == a + b + c
  {
  }

  lemma FlattenOne(s: seq<byte>)
    ensures Flatten([s]) == s
  {
    assert [s][1..] == [];
  }
}
