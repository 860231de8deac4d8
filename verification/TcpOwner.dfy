/** Finding the process that owns a local TCP port in the system's connection table. */
module TcpOwner {
  import opened Wrappers

  const ROW_SIZE: nat := 24

  /** The low 16 bits with their bytes exchanged. */
  function SwapPort(p: bv32): bv16 {
    (((p >> 8) & 0xff) | ((p << 8) & 0xff00)) as bv16
  }

  /** Swapping twice restores a 16-bit port; the high half of the word never matters. */
  lemma SwapPortTwice(p: bv32)
    ensures SwapPort(SwapPort(p) as bv32) == (p & 0xffff) as bv16
    ensures SwapPort(p) == SwapPort(p & 0xffff)
  {
  }

  /** The 32-bit word at this place in memory, least significant byte first. */
  function Word(buf: seq<bv8>, at: nat): bv32
    requires at + 4 <= |buf|
  {
    (buf[at] as bv32) | ((buf[at + 1] as bv32) << 8) | ((buf[at + 2] as bv32) << 16) | ((buf[at + 3] as bv32) << 24)
  }

  /** Which byte of memory each part of the word is. */
  lemma WordLayout(buf: seq<bv8>, at: nat)
    requires at + 4 <= |buf|
    ensures var w := Word(buf, at);
            && (w & 0xff) as bv8 == buf[at] && ((w >> 8) & 0xff) as bv8 == buf[at + 1]
            && ((w >> 16) & 0xff) as bv8 == buf[at + 2] && ((w >> 24) & 0xff) as bv8 == buf[at + 3]
  {
  }

  /** The first two bytes of a word in memory, most significant first: a port in network byte order. */
  function NetworkPort(buf: seq<bv8>, at: nat): bv16
    requires at + 4 <= |buf|
  {
    ((buf[at] as bv16) << 8) | (buf[at + 1] as bv16)
  }

  /** So swapping the word read from memory is reading its first two bytes in network order. */
  lemma SwapPortReadsNetworkOrder(buf: seq<bv8>, at: nat)
    requires at + 4 <= |buf|
    ensures SwapPort(Word(buf, at)) == NetworkPort(buf, at)
  {
  }

  /** Row i is both claimed and present in full, 24 bytes from byte 4 + 24 i on. */
  predicate HasRow(buf: seq<bv8>, i: nat) {
    |buf| >= 4 && i < Word(buf, 0) as nat && 4 + 24 * i + 24 <= |buf|
  }

  /** Its local port stands in bytes 8 and 9, most significant first. */
  predicate HasPort(buf: seq<bv8>, i: nat, port: bv16)
    requires HasRow(buf, i)
  {
    port == ((buf[4 + 24 * i + 8] as bv16) << 8) | (buf[4 + 24 * i + 9] as bv16)
  }

  /** Row i has this port, its owner in bytes 20 to 23, and no row before it has that port. */
  predicate FirstWithPort(buf: seq<bv8>, i: nat, port: bv16, owner: bv32) {
    && HasRow(buf, i) && HasPort(buf, i, port) && owner == Word(buf, 4 + 24 * i + 20)
    && forall j: nat :: j < i && HasRow(buf, j) ==> !HasPort(buf, j, port)
  }

  /**
   The owner of the first row whose port, in network byte order, is `localPort`, or none. Offsets are computed
   in 32 bits; for a buffer this short they neither wrap nor pass its end, whatever the claimed number of rows.
   */
  method FindOwner(buf: seq<bv8>, localPort: bv16) returns (owner: Option<bv32>)
    requires |buf| < 0x1_0000_0000 - 12
    ensures owner.None? <==> forall i: nat :: HasRow(buf, i) ==> !HasPort(buf, i, localPort)
    ensures owner.Some? ==> exists i: nat :: FirstWithPort(buf, i, localPort, owner.value)
  {
    if |buf| < 4 {
      return None;
    }
    var numEntries := Word(buf, 0) as nat;
    var i: nat := 0;
    while i < numEntries
      invariant forall j: nat :: j < i ==> HasRow(buf, j) && !HasPort(buf, j, localPort)
      invariant i == 0 || HasRow(buf, i - 1)
      decreases numEntries - i
    {
      var off := (4 + i * ROW_SIZE) % 0x1_0000_0000;
      assert off == 4 + 24 * i;
      if (off + ROW_SIZE) % 0x1_0000_0000 > |buf| {
        break;
      }
      assert HasRow(buf, i);
      SwapPortReadsNetworkOrder(buf, off + 8);
      if SwapPort(Word(buf, off + 8)) == localPort {
        assert FirstWithPort(buf, i, localPort, Word(buf, off + 20));
        return Some(Word(buf, off + 20));
      }
      i := i + 1;
    }
    return None;
  }
}
