/** Cygwin's emulated Unix socket: the socket file that tells a client port and secret, and the handshake. */
module Cygwin {
  import opened Bytes
  import opened Streams
  import opened Wrappers

  // ---------------------------------------------------------------- hexadecimal groups

  function HexDigit(n: nat): char
    requires n < 16
  {
    if n < 10 then '0' + n as char else 'a' + (n - 10) as char
  }

  /** The value of a digit, 0 for anything else. */
  function DigitValue(c: char): (n: nat)
    ensures n < 16
  {
    if '0' <= c <= '9' then (c - '0') as nat
    else if 'a' <= c <= 'f' then (c - 'a') as nat + 10
    else 0
  }

  function HexValue(s: string): nat {
    if s == "" then 0 else HexValue(s[..|s| - 1]) * 16 + DigitValue(s[|s| - 1])
  }

  function HexByte(b: byte): string {
    [HexDigit(b / 16), HexDigit(b % 16)]
  }

  lemma HexDigitValue(n: nat)
    requires n < 16
    ensures DigitValue(HexDigit(n)) == n
  {
  }

  lemma HexValueByte(s: string, b: byte)
    ensures HexValue(s + HexByte(b)) == HexValue(s) * 256 + b
  {
    var longer := s + HexByte(b);
    assert longer[..|s| + 1] == s + [HexDigit(b / 16)];
    assert (s + [HexDigit(b / 16)])[..|s|] == s;
    HexDigitValue(b / 16);
    HexDigitValue(b % 16);
  }

  // ---------------------------------------------------------------- the secret as text

  /** Four bytes, last byte first. */
  function HexGroup(b: seq<byte>): (s: string)
    requires |b| == 4
    ensures |s| == 8
  {
    HexByte(b[3]) + HexByte(b[2]) + HexByte(b[1]) + HexByte(b[0])
  }

  /** The secret's k-th group of four bytes. */
  function Group(uuid: seq<byte>, k: nat): string
    requires |uuid| == 16 && k < 4
  {
    HexGroup(uuid[4 * k..4 * k + 4])
  }

  /** The first n groups, with dashes between them. */
  function Groups(uuid: seq<byte>, n: nat): (s: string)
    requires |uuid| == 16 && 1 <= n <= 4
    ensures |s| == 9 * n - 1
  {
    if n == 1 then Group(uuid, 0) else Groups(uuid, n - 1) + "-" + Group(uuid, n - 1)
  }

  function UUIDText(uuid: seq<byte>): (s: string)
    requires |uuid| == 16
    ensures |s| == 35
  {
    Groups(uuid, 4)
  }

  function WordBytes(s: string): seq<byte> {
    PutLE32(HexValue(s) % 0x1_0000_0000)
  }

  /** A client's reading of the text: four hexadecimal words, each stored little-endian. */
  function ClientBytes(s: string): seq<byte>
    requires |s| == 35
  {
    WordBytes(s[..8]) + WordBytes(s[9..17]) + WordBytes(s[18..26]) + WordBytes(s[27..])
  }

  lemma HexWord(a: byte, b: byte, c: byte, d: byte)
    ensures HexValue(HexByte(a) + HexByte(b) + HexByte(c) + HexByte(d)) == ((a as nat * 256 + b) * 256 + c) * 256 + d
  {
    HexValueByte("", a);
    assert "" + HexByte(a) == HexByte(a);
    HexValueByte(HexByte(a), b);
    HexValueByte(HexByte(a) + HexByte(b), c);
    HexValueByte(HexByte(a) + HexByte(b) + HexByte(c), d);
  }

  /** Four bytes printed last first read as their little-endian word. */
  lemma HexIsLE32(b: seq<byte>)
    requires |b| == 4
    ensures HexValue(HexGroup(b)) == LE32(b)
  {
    HexWord(b[3], b[2], b[1], b[0]);
  }

  lemma WordBytesAre(s: string, b: seq<byte>)
    requires |b| == 4 && HexValue(s) == LE32(b)
    ensures WordBytes(s) == b
  {
    var n: int := HexValue(s);
    assert n % 0x1_0000_0000 == n;
    BytesRoundTrip(b);
    assert b[..4] == b;
  }

  lemma GroupRoundTrip(b: seq<byte>)
    requires |b| == 4
    ensures WordBytes(HexGroup(b)) == b
  {
    HexIsLE32(b);
    WordBytesAre(HexGroup(b), b);
  }

  lemma FourParts(a: string, b: string, c: string, d: string)
    requires |a| == |b| == |c| == |d| == 8
    ensures var s := a + "-" + b + "-" + c + "-" + d;
            |s| == 35 && s[..8] == a && s[9..17] == b && s[18..26] == c && s[27..] == d
  {
  }

  lemma TextParts(uuid: seq<byte>)
    requires |uuid| == 16
    ensures var s := UUIDText(uuid);
            s[..8] == Group(uuid, 0) && s[9..17] == Group(uuid, 1)
            && s[18..26] == Group(uuid, 2) && s[27..] == Group(uuid, 3)
  {
    var two, three := Groups(uuid, 2), Groups(uuid, 3);
    assert Groups(uuid, 1) == Group(uuid, 0);
    assert two == Group(uuid, 0) + "-" + Group(uuid, 1);
    assert three == two + "-" + Group(uuid, 2);
    FourParts(Group(uuid, 0), Group(uuid, 1), Group(uuid, 2), Group(uuid, 3));
  }

  lemma TextDashes(uuid: seq<byte>)
    requires |uuid| == 16
    ensures UUIDText(uuid)[8] == UUIDText(uuid)[17] == UUIDText(uuid)[26] == '-'
  {
    assert Groups(uuid, 2)[8] == '-';
    assert Groups(uuid, 3)[17] == '-' && Groups(uuid, 3)[8] == Groups(uuid, 2)[8];
  }

  /** The client gets back the sixteen bytes of the secret. */
  lemma UUIDRoundTrip(uuid: seq<byte>)
    requires |uuid| == 16
    ensures ClientBytes(UUIDText(uuid)) == uuid
  {
    TextParts(uuid);
    GroupRoundTrip(uuid[0..4]);
    GroupRoundTrip(uuid[4..8]);
    GroupRoundTrip(uuid[8..12]);
    GroupRoundTrip(uuid[12..16]);
    assert uuid == uuid[0..4] + uuid[4..8] + uuid[8..12] + uuid[12..16];
  }

  /** The digits, in lower case. */
  lemma HexDigitIs(n: nat)
    requires n < 16
    ensures HexDigit(n) == "0123456789abcdef"[n]
  {
  }

  /** Where each byte of the secret stands in the text: in four groups, last byte first within its group. */
  lemma TextAt(uuid: seq<byte>, k: nat, j: nat)
    requires |uuid| == 16 && k < 4 && j < 4
    ensures var s, b := UUIDText(uuid), uuid[4 * k + j];
            && s[9 * k + 6 - 2 * j] == "0123456789abcdef"[b / 16]
            && s[9 * k + 7 - 2 * j] == "0123456789abcdef"[b % 16]
  {
    var s, b := UUIDText(uuid), uuid[4 * k + j];
    TextParts(uuid);
    HexDigitIs(b / 16);
    HexDigitIs(b % 16);
    var group := uuid[4 * k..4 * k + 4];
    assert group[j] == b;
    GroupAt(group, j);
    assert s[9 * k..9 * k + 8] == Group(uuid, k);
    assert s[9 * k..9 * k + 8][6 - 2 * j] == s[9 * k + 6 - 2 * j];
    assert s[9 * k..9 * k + 8][7 - 2 * j] == s[9 * k + 7 - 2 * j];
  }

  lemma GroupAt(b: seq<byte>, j: nat)
    requires |b| == 4 && j < 4
    ensures HexGroup(b)[6 - 2 * j] == HexDigit(b[j] / 16) && HexGroup(b)[7 - 2 * j] == HexDigit(b[j] % 16)
  {
  }

  /** So distinct secrets have distinct texts. */
  lemma UUIDTextInjective(a: seq<byte>, b: seq<byte>)
    requires |a| == 16 && |b| == 16
    ensures UUIDText(a) == UUIDText(b) <==> a == b
  {
    UUIDRoundTrip(a);
    UUIDRoundTrip(b);
  }

  /** Writes one group of eight characters at this place, and a dash behind it unless it ends the text. */
  method PutGroup(dst: array<char>, at: nat, group: string)
    requires |group| == 8 && at + 8 <= dst.Length
    modifies dst
    ensures dst[..][..at] == old(dst[..])[..at] && dst[..][at..at + 8] == group
    ensures at + 8 < dst.Length ==> dst[..][at + 8] == '-'
  {
    forall k | 0 <= k < 8 {
      dst[at + k] := group[k];
    }
    if at + 8 < dst.Length {
      dst[at + 8] := '-';
    }
  }

  /** The first i groups stand in the buffer, each with its dash but the last. */
  predicate Filled(uuid: seq<byte>, i: nat, text: string)
    requires |uuid| == 16
  {
    && i <= 4 && |text| == 35
    && (i > 0 ==> text[..9 * i - 1] == Groups(uuid, i))
    && (0 < i < 4 ==> text[9 * i - 1] == '-')
  }

  /** The next group, written behind the others. */
  lemma FilledStep(uuid: seq<byte>, i: nat, before: string, after: string)
    requires |uuid| == 16 && i < 4 && Filled(uuid, i, before)
    requires |after| == 35 && after[..9 * i] == before[..9 * i] && after[9 * i..9 * i + 8] == Group(uuid, i)
    requires i < 3 ==> after[9 * i + 8] == '-'
    ensures Filled(uuid, i + 1, after)
  {
    var done := before[..9 * i];
    assert after[..9 * i + 8] == done + Group(uuid, i);
    if i > 0 {
      assert done == before[..9 * i - 1] + [before[9 * i - 1]];
      assert done == Groups(uuid, i) + "-";
    }
    assert after[..9 * i + 8] == Groups(uuid, i + 1);
  }

  method PutNext(dst: array<char>, uuid: seq<byte>, i: nat)
    requires |uuid| == 16 && i < 4 && Filled(uuid, i, dst[..])
    modifies dst
    ensures Filled(uuid, i + 1, dst[..])
  {
    var b := uuid[i * 4..i * 4 + 4];
    ghost var before := dst[..];
    PutGroup(dst, i * 9, HexGroup(b));
    FilledStep(uuid, i, before, dst[..]);
  }

  /** The loop over the four groups, each with its dash but the last, fills all 35 positions. */
  method UUIDToString(uuid: seq<byte>) returns (s: string)
    requires |uuid| == 16
    ensures s == UUIDText(uuid)
  {
    var dst := new char[35];
    for i := 0 to 4
      invariant Filled(uuid, i, dst[..])
    {
      PutNext(dst, uuid, i);
    }
    assert dst[..][..35] == dst[..];
    return dst[..];
  }

  // ---------------------------------------------------------------- the socket file

  function Decimal(n: nat): (s: string)
    ensures |s| > 0
  {
    if n < 10 then [HexDigit(n)] else Decimal(n / 10) + [HexDigit(n % 10)]
  }

  function DecimalValue(s: string): nat {
    if s == "" then 0 else DecimalValue(s[..|s| - 1]) * 10 + DigitValue(s[|s| - 1])
  }

  lemma {:induction false} DecimalRoundTrip(n: nat)
    ensures DecimalValue(Decimal(n)) == n
  {
    if n < 10 {
      HexDigitValue(n);
      assert Decimal(n)[..0] == "";
    } else {
      DecimalRoundTrip(n / 10);
      HexDigitValue(n % 10);
      assert Decimal(n)[..|Decimal(n)| - 1] == Decimal(n / 10);
    }
  }

  /** The contents of the socket file. */
  function SocketFile(port: nat, uuid: seq<byte>): string
    requires |uuid| == 16
  {
    "!<socket >" + Decimal(port) + " s " + UUIDText(uuid)
  }

  /** A client finds the port and the secret in it again. */
  lemma SocketFileTells(port: nat, uuid: seq<byte>)
    requires |uuid| == 16
    ensures var file := SocketFile(port, uuid);
            && |file| >= 48
            && file[..10] == "!<socket >" && file[|file| - 38..|file| - 35] == " s "
            && DecimalValue(file[10..|file| - 38]) == port
            && file[|file| - 27] == file[|file| - 18] == file[|file| - 9] == '-'
            && ClientBytes(file[|file| - 35..]) == uuid
  {
    var file := SocketFile(port, uuid);
    assert file[10..|file| - 38] == Decimal(port);
    assert file[|file| - 35..] == UUIDText(uuid);
    TextDashes(uuid);
    DecimalRoundTrip(port);
    UUIDRoundTrip(uuid);
  }

  // ---------------------------------------------------------------- the handshake

  /**
   Accepts exactly a client that sends the secret and then twelve bytes of ids, provided the last write goes
   through; the ids go back with both process ids replaced. Nothing is sent to a client without the secret.
   */
  method CygwinHandshake(conn: Conn, uuid: seq<byte>, pid: uint32) returns (err: Option<Error>)
    requires |uuid| == 16
    modifies conn`incoming, conn`sent, conn`writes
    ensures err.None? <==>
              && |old(conn.incoming)| >= 28 && old(conn.incoming)[..16] == uuid
              && old(conn.writes) + 1 !in conn.faults
    ensures err.None? ==>
              && conn.incoming == old(conn.incoming)[28..]
              && conn.sent == old(conn.sent) + (if old(conn.NextWriteSucceeds()) then [uuid] else [])
                              + [PutLE32(pid) + old(conn.incoming)[20..24] + PutLE32(pid)]
    ensures !(uuid <= old(conn.incoming)) ==> conn.sent == old(conn.sent)
  {
    ghost var stream := conn.incoming;
    var cuuid, uuidErr := conn.ReadFull(16);
    if uuidErr.Some? {
      return uuidErr;
    }
    if uuid != cuuid {
      return Some(InvalidUUID);
    }
    var _ := conn.Write(uuid);
    var pidsUids, idsErr := conn.ReadFull(12);
    if idsErr.Some? {
      return idsErr;
    }
    assert pidsUids == stream[16..28];
    pidsUids := PutLE32(pid) + pidsUids[4..];
    pidsUids := pidsUids[..8] + PutLE32(pid);
    assert pidsUids == PutLE32(pid) + stream[20..24] + PutLE32(pid);
    err := conn.Write(pidsUids);
  }

  /** What a client sends that derives the secret from the socket file; the ids and what follows are its own. */
  function FileClient(port: nat, uuid: seq<byte>, ids: seq<byte>, rest: seq<byte>): seq<byte>
    requires |uuid| == 16
  {
    SocketFileTells(port, uuid);
    var file := SocketFile(port, uuid);
    ClientBytes(file[|file| - 35..]) + ids + rest
  }

  lemma FileClientGreets(port: nat, uuid: seq<byte>, ids: seq<byte>, rest: seq<byte>)
    requires |uuid| == 16 && |ids| == 12
    ensures var stream := FileClient(port, uuid, ids, rest);
            && |stream| == 28 + |rest|
            && stream[..16] == uuid && stream[16..28] == ids && stream[28..] == rest
  {
    SocketFileTells(port, uuid);
    var stream := uuid + ids + rest;
    assert stream[..16] == uuid && stream[16..28] == ids && stream[28..] == rest;
  }

  /** Such a client is accepted if and only if the reply with the ids goes out, and nothing past its ids is taken. */
  method ServeFileClient(conn: Conn, port: nat, uuid: seq<byte>, pid: uint32,
                         ghost ids: seq<byte>, ghost rest: seq<byte>)
    returns (err: Option<Error>)
    requires |uuid| == 16 && |ids| == 12 && conn.incoming == FileClient(port, uuid, ids, rest)
    modifies conn`incoming, conn`sent, conn`writes
    ensures err.None? <==> old(conn.writes) + 1 !in conn.faults
    ensures err.None? ==>
              && conn.incoming == rest
              && conn.sent == old(conn.sent) + (if old(conn.NextWriteSucceeds()) then [uuid] else [])
                              + [PutLE32(pid) + ids[4..8] + PutLE32(pid)]
  {
    FileClientGreets(port, uuid, ids, rest);
    ghost var stream := conn.incoming;
    assert stream[20..24] == stream[16..28][4..8];
    err := CygwinHandshake(conn, uuid, pid);
  }
}
