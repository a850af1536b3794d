/** RDM messages on the wire (section 6.2 of ANSI E1.20): the byte layout as a function of header and
    parameter data, the decoder's getters, and the encoder that fills a buffer in place. */
module RdmPacket {
  import opened Octets

  const SC_RDM: Octet := 0xCC
  const SC_SUB_MESSAGE: Octet := 0x01
  const DISCOVERY_COMMAND: Octet := 0x10
  const DISCOVERY_COMMAND_RESPONSE: Octet := 0x11
  const GET_COMMAND: Octet := 0x20
  const SET_COMMAND: Octet := 0x30
  const DISC_UNIQUE_BRANCH := 0x0001
  const DISC_MUTE := 0x0002
  const DISC_UN_MUTE := 0x0003
  const RESPONSE_TYPE_ACK: Octet := 0x00
  const RESPONSE_TYPE_NOREPLY: Octet := 0xFF
  const HEADER_SIZE := 24
  const UID_COUNT := 0x1_0000_0000_0000
  const BROADCAST: Uid := 0xFFFF_FFFF_FFFF
  const ANY: Uid := 0

  type Uid = u: int | 0 <= u < 0x1_0000_0000_0000
  type U16 = w: int | 0 <= w < 0x1_0000

  /** The header fields an encoder sets freely; start codes, lengths and checksum follow from the rest. */
  datatype Header = Header(dst: Uid, src: Uid, tn: Octet, portId: Octet, msgCount: Octet,
                           subDevice: U16, cc: Octet, pid: U16)

  // ----- the wire format ------------------------------------------------------------

  function Fields(h: Header, pdl: Octet): (s: seq<Octet>)
    ensures |s| == 21
  {
    BigEndian(h.dst, 6) + BigEndian(h.src, 6) + [h.tn, h.portId, h.msgCount] +
    BigEndian(h.subDevice, 2) + [h.cc] + BigEndian(h.pid, 2) + [pdl]
  }

  /** Everything the checksum covers. */
  function Body(h: Header, pd: seq<Octet>): (s: seq<Octet>)
    requires |pd| <= 231
    ensures |s| == 24 + |pd|
  {
    [SC_RDM, SC_SUB_MESSAGE, 24 + |pd|] + Fields(h, |pd|) + pd
  }

  function Encode(h: Header, pd: seq<Octet>): (s: seq<Octet>)
    requires |pd| <= 231
    ensures |s| == 26 + |pd|
  {
    Body(h, pd) + BigEndian(Checksum(Body(h, pd)), 2)
  }

  // ----- PacketDecoder ----------------------------------------------------------------

  function UidAt(pkt: seq<Octet>, pos: nat): Uid
    requires pos + 6 <= |pkt|
  {
    FromBigEndianRoundTrip(pkt[pos..pos + 6]);
    Pow256Values();
    FromBigEndian(pkt[pos..pos + 6])
  }

  function U16At(pkt: seq<Octet>, pos: nat): U16
    requires pos + 2 <= |pkt|
  {
    FromBigEndianRoundTrip(pkt[pos..pos + 2]);
    Pow256Values();
    FromBigEndian(pkt[pos..pos + 2])
  }

  function HeaderOf(pkt: seq<Octet>): Header
    requires |pkt| >= HEADER_SIZE
  {
    Header(UidAt(pkt, 3), UidAt(pkt, 9), pkt[15], pkt[16], pkt[17], U16At(pkt, 18), pkt[20], U16At(pkt, 21))
  }

  function Pdl(pkt: seq<Octet>): Octet
    requires |pkt| >= HEADER_SIZE
  {
    pkt[23]
  }

  predicate IsRdm(pkt: seq<Octet>)
    requires |pkt| >= HEADER_SIZE
  {
    pkt[0] == SC_RDM && pkt[1] == SC_SUB_MESSAGE
  }

  predicate IsRequest(pkt: seq<Octet>)
    requires |pkt| >= HEADER_SIZE
  {
    var cc := pkt[20];
    DISCOVERY_COMMAND <= cc / 16 * 16 <= SET_COMMAND && cc % 16 == 0
  }

  predicate ItIsForMe(pkt: seq<Octet>, uid: nat)
    requires |pkt| >= HEADER_SIZE
  {
    HeaderOf(pkt).dst == uid || HeaderOf(pkt).dst == BROADCAST
  }

  /** An integer of `size` octets at offset `pos` of the parameter data; refused past PDL. */
  function PdAt(pkt: seq<Octet>, pos: nat, size: nat): Option<nat>
    requires |pkt| >= HEADER_SIZE && |pkt| >= HEADER_SIZE + Pdl(pkt)
  {
    if pos + size > Pdl(pkt) then None else Some(FromBigEndian(pkt[24 + pos..24 + pos + size]))
  }

  // ----- decoding inverts encoding ------------------------------------------------------

  lemma SliceOfSlice(s: seq<Octet>, a: nat, b: nat, i: nat, j: nat)
    requires a <= b <= |s| && i <= j <= b - a
    ensures s[a..b][i..j] == s[a + i..a + j]
  {
    assert forall k | 0 <= k < j - i :: s[a..b][i..j][k] == s[a + i + k];
  }

  lemma FieldsDecode(h: Header, pdl: Octet, pkt: seq<Octet>)
    requires |pkt| >= 24 && pkt[3..24] == Fields(h, pdl)
    ensures HeaderOf(pkt) == h && Pdl(pkt) == pdl
  {
    var f := Fields(h, pdl);
    assert forall i | 12 <= i < 21 :: pkt[3 + i] == pkt[3..24][i] == f[i];
    assert pkt[15] == f[12] && pkt[16] == f[13] && pkt[17] == f[14] && pkt[20] == f[17] && pkt[23] == f[20];
    FieldSlices(h, pdl);
    hide Fields, BigEndian, FromBigEndian;
    SliceOfSlice(pkt, 3, 24, 0, 6);
    SliceOfSlice(pkt, 3, 24, 6, 12);
    SliceOfSlice(pkt, 3, 24, 15, 17);
    SliceOfSlice(pkt, 3, 24, 18, 20);
    Pow256Values();
    BigEndianExact(h.dst, 6);
    BigEndianExact(h.src, 6);
    BigEndianExact(h.subDevice, 2);
    BigEndianExact(h.pid, 2);
  }

  lemma FieldSlices(h: Header, pdl: Octet)
    ensures var f := Fields(h, pdl);
            && f[0..6] == BigEndian(h.dst, 6) && f[6..12] == BigEndian(h.src, 6)
            && f[15..17] == BigEndian(h.subDevice, 2) && f[18..20] == BigEndian(h.pid, 2)
            && f[12] == h.tn && f[13] == h.portId && f[14] == h.msgCount && f[17] == h.cc && f[20] == pdl
  {
  }

  lemma FieldsEncode(pkt: seq<Octet>)
    requires |pkt| >= 24
    ensures pkt[3..24] == Fields(HeaderOf(pkt), Pdl(pkt))
  {
    FromBigEndianRoundTrip(pkt[3..9]);
    FromBigEndianRoundTrip(pkt[9..15]);
    FromBigEndianRoundTrip(pkt[18..20]);
    FromBigEndianRoundTrip(pkt[21..23]);
  }

  /** The decoder returns every header field and the parameter data of an encoded packet, the packet
      is 26 + PDL octets long and its last two octets are the sum of all octets before them. */
  lemma DecodeEncode(h: Header, pd: seq<Octet>)
    requires |pd| <= 231
    ensures var p := Encode(h, pd);
            && IsRdm(p) && HeaderOf(p) == h && Pdl(p) == |pd| && p[2] == 24 + |pd|
            && p[24..24 + |pd|] == pd
            && U16At(p, 24 + |pd|) == Checksum(p[..24 + |pd|])
  {
    var p, n := Encode(h, pd), |pd|;
    assert p[3..24] == Fields(h, n);
    FieldsDecode(h, n, p);
    assert p[24..24 + n] == pd;
    assert p[..24 + n] == Body(h, pd);
    assert p[24 + n..24 + n + 2] == BigEndian(Checksum(Body(h, pd)), 2);
    Pow256Values();
    BigEndianExact(Checksum(Body(h, pd)), 2);
  }

  /** Conversely, the wire format is the only well-formed packet with that header and data. */
  lemma EncodeDecode(p: seq<Octet>)
    requires 26 <= |p| && |p| == 26 + Pdl(p) && Pdl(p) <= 231
    requires IsRdm(p) && p[2] == 24 + Pdl(p)
    requires U16At(p, |p| - 2) == Checksum(p[..|p| - 2])
    ensures p == Encode(HeaderOf(p), p[24..|p| - 2])
  {
    var h, pd := HeaderOf(p), p[24..|p| - 2];
    FieldsEncode(p);
    assert p[..|p| - 2] == [p[0], p[1], p[2]] + p[3..24] + pd;
    assert p[..|p| - 2] == Body(h, pd);
    FromBigEndianRoundTrip(p[|p| - 2..]);
    assert p[|p| - 2..|p| - 2 + 2] == p[|p| - 2..];
    assert p == p[..|p| - 2] + p[|p| - 2..];
  }

  /** A UID octet by octet. */
  function Digits(u: Uid): (s: seq<Octet>)
    ensures |s| == 6
  {
    [u / 0x100_0000_0000, u / 0x1_0000_0000 % 256, u / 0x100_0000 % 256, u / 0x1_0000 % 256, u / 0x100 % 256, u % 256]
  }

  lemma DigitsOf(u: Uid)
    ensures BigEndian(u, 6) == Digits(u)
  {
    Pow256Values();
    assert Pow256(6) == 256 * Pow256(5) && Pow256(4) == 256 * Pow256(3) && Pow256(2) == 256 * Pow256(1);
    forall i | 0 <= i < 6
      ensures BigEndian(u, 6)[i] == Digits(u)[i]
    {
      BigEndianDigit(u, 6, i);
    }
  }

  /** An encoded packet octet by octet. */
  lemma EncodedOctets(h: Header, pd: seq<Octet>)
    requires |pd| <= 231
    ensures var p, n := Encode(h, pd), |pd|;
            && p[0] == 0xCC && p[1] == 0x01 && p[2] == 24 + n && p[3..9] == Digits(h.dst) && p[9..15] == Digits(h.src)
            && p[15] == h.tn && p[16] == h.portId && p[17] == h.msgCount && p[18..20] == [h.subDevice / 256, h.subDevice % 256]
            && p[20] == h.cc && p[21..23] == [h.pid / 256, h.pid % 256] && p[23] == n && p[24..24 + n] == pd
            && p[24 + n..] == [Checksum(p[..24 + n]) / 256, Checksum(p[..24 + n]) % 256]
  {
    EncodedParts(h, pd);
    hide *;
    var p, n := Encode(h, pd), |pd|;
    FieldOctets(p, h, n);
    TwoOctets(Checksum(p[..24 + n]));
  }

  lemma EncodedParts(h: Header, pd: seq<Octet>)
    requires |pd| <= 231
    ensures var p, n := Encode(h, pd), |pd|;
            && p[0] == 0xCC && p[1] == 0x01 && p[2] == 24 + n && p[3..24] == Fields(h, n) && p[24..24 + n] == pd
            && p[24 + n..] == BigEndian(Checksum(p[..24 + n]), 2)
  {
    hide Fields, Checksum, BigEndian;
    assert Encode(h, pd)[..24 + |pd|] == Body(h, pd);
  }

  lemma FieldOctets(p: seq<Octet>, h: Header, pdl: Octet)
    requires |p| >= 24 && p[3..24] == Fields(h, pdl)
    ensures p[3..9] == Digits(h.dst) && p[9..15] == Digits(h.src) && p[15] == h.tn && p[16] == h.portId && p[17] == h.msgCount
    ensures p[18..20] == [h.subDevice / 256, h.subDevice % 256] && p[20] == h.cc && p[21..23] == [h.pid / 256, h.pid % 256] && p[23] == pdl
  {
    FieldSlices(h, pdl);
    hide *;
    DigitsOf(h.dst);
    DigitsOf(h.src);
    TwoOctets(h.subDevice);
    TwoOctets(h.pid);
    SliceOfSlice(p, 3, 24, 0, 6);
    SliceOfSlice(p, 3, 24, 6, 12);
    SliceOfSlice(p, 3, 24, 15, 17);
    SliceOfSlice(p, 3, 24, 18, 20);
    assert forall i | 0 <= i < 21 :: p[3..24][i] == p[3 + i];
    assert p[3 + 12] == h.tn && p[3 + 13] == h.portId && p[3 + 14] == h.msgCount && p[3 + 17] == h.cc && p[3 + 20] == pdl;
  }

  lemma TwoOctets(w: U16)
    ensures BigEndian(w, 2) == [w / 256, w % 256]
  {
    assert BigEndian(w / 256, 1) == BigEndian(w / 256 / 256, 0) + [w / 256 % 256] == [w / 256];
  }

  /** Requests are the three command classes, and a device listens to its own UID and the broadcast UID. */
  lemma RequestsForMe(pkt: seq<Octet>, uid: nat)
    requires |pkt| >= HEADER_SIZE
    ensures IsRequest(pkt) <==> pkt[20] in {0x10, 0x20, 0x30}
    ensures ItIsForMe(pkt, uid) <==> FromBigEndian(pkt[3..9]) in {uid, 0xFFFF_FFFF_FFFF}
  {
  }

  /** One `addPd(value, size)` call. */
  datatype Append = Append(value: nat, size: nat)

  function Appended(fields: seq<Append>): seq<Octet> {
    if fields == [] then []
    else Appended(fields[..|fields| - 1]) + BigEndian(fields[|fields| - 1].value, fields[|fields| - 1].size)
  }

  lemma {:induction false} AppendedSlice(fields: seq<Append>, i: nat)
    requires i < |fields|
    ensures |Appended(fields[..i])| + fields[i].size <= |Appended(fields)|
    ensures var o := |Appended(fields[..i])|;
            Appended(fields)[o..o + fields[i].size] == BigEndian(fields[i].value, fields[i].size)
  {
    var n := |fields| - 1;
    if i < n {
      AppendedSlice(fields[..n], i);
      assert fields[..n][..i] == fields[..i];
      var o := |Appended(fields[..i])|;
      assert Appended(fields)[o..o + fields[i].size] == Appended(fields[..n])[o..o + fields[i].size];
    }
  }

  /** Every appended integer is read back at its offset (modulo its width), and no read past PDL succeeds. */
  lemma AppendsRoundTrip(h: Header, fields: seq<Append>, i: nat)
    requires |Appended(fields)| <= 231 && i < |fields|
    ensures var p := Encode(h, Appended(fields));
            |p| >= 24 + Pdl(p) &&
            PdAt(p, |Appended(fields[..i])|, fields[i].size) == Some(fields[i].value % Pow256(fields[i].size))
    ensures forall pos: nat, size: nat {:trigger PdAt(Encode(h, Appended(fields)), pos, size)} ::
              pos + size > |Appended(fields)| ==> PdAt(Encode(h, Appended(fields)), pos, size) == None
  {
    hide Encode, HeaderOf, BigEndian, FromBigEndian, Pow256;
    var pd := Appended(fields);
    var p, o := Encode(h, pd), |Appended(fields[..i])|;
    DecodeEncode(h, pd);
    AppendedSlice(fields, i);
    SliceOfSlice(p, 24, 24 + |pd|, o, o + fields[i].size);
    BigEndianRoundTrip(fields[i].value, fields[i].size);
  }

  // ----- buffers --------------------------------------------------------------------------

  function Put(s: seq<Octet>, off: nat, bytes: seq<Octet>): (r: seq<Octet>)
    requires off + |bytes| <= |s|
    ensures |r| == |s| && r[off..off + |bytes|] == bytes
    ensures forall i | 0 <= i < |s| && !(off <= i < off + |bytes|) :: r[i] == s[i]
  {
    s[..off] + bytes + s[off + |bytes|..]
  }

  /** `memcpy_reverse` of the low `n` octets of a host integer into a buffer. */
  method CopyReversed(buf: array<Octet>, off: nat, v: nat, n: nat)
    requires off + n <= buf.Length
    modifies buf
    ensures buf[..] == Put(old(buf[..]), off, BigEndian(v, n))
  {
    var i := 0;
    while i < n
      invariant 0 <= i <= n
      invariant forall k | 0 <= k < i :: buf[off + k] == BigEndian(v, n)[k]
      invariant forall k | 0 <= k < buf.Length && !(off <= k < off + i) :: buf[k] == old(buf[k])
    {
      BigEndianAt(v, n, i);
      buf[off + i] := HostOctet(v, n - 1 - i);
      i := i + 1;
    }
    assert buf[off..off + n] == BigEndian(v, n);
  }

  method CalculateChecksum(buf: array<Octet>, size: nat) returns (sum: nat)
    requires size <= buf.Length
    ensures sum == Checksum(buf[..size])
  {
    sum := 0;
    var i := 0;
    while i < size
      invariant 0 <= i <= size
      invariant sum == Checksum(buf[..i])
    {
      assert buf[..i + 1][..i] == buf[..i];
      sum := (sum + buf[i]) % 0x1_0000;
      i := i + 1;
    }
  }

  lemma PutTwice(s: seq<Octet>, off: nat, a: seq<Octet>, b: seq<Octet>)
    requires off + |a| + |b| <= |s|
    ensures Put(Put(s, off, a), off + |a|, b) == Put(s, off, a + b)
  {
  }

  lemma PutKeepsHeader(s: seq<Octet>, off: nat, bytes: seq<Octet>)
    requires 24 <= off && off + |bytes| <= |s|
    ensures HeaderOf(Put(s, off, bytes)) == HeaderOf(s) && Put(s, off, bytes)[..24] == s[..24]
  {
    var r := Put(s, off, bytes);
    assert r[..24] == s[..24];
    assert r[3..9] == s[3..9];
    assert r[9..15] == s[9..15];
    assert r[18..20] == s[18..20];
    assert r[21..23] == s[21..23];
  }

  lemma PutUid(s: seq<Octet>, off: nat, u: Uid)
    requires |s| >= 24 && (off == 3 || off == 9)
    ensures var r := Put(s, off, BigEndian(u, 6));
            HeaderOf(r) == if off == 3 then HeaderOf(s).(dst := u) else HeaderOf(s).(src := u)
  {
    var r := Put(s, off, BigEndian(u, 6));
    Pow256Values();
    BigEndianExact(u, 6);
    assert r[18..20] == s[18..20];
    assert r[21..23] == s[21..23];
    if off == 3 {
      assert r[9..15] == s[9..15];
    } else {
      assert r[3..9] == s[3..9];
    }
  }

  lemma UidOctets(u: nat)
    ensures BigEndian(u / 0x1_0000_0000, 2) + BigEndian(u, 4) == BigEndian(u % UID_COUNT, 6)
  {
    Pow256Values();
    BigEndianSplit(u, 2, 4);
    ShiftByFour(u);
    BigEndianTruncates(u, 6);
  }

  /** Writing manufacturer and device number separately writes the 48-bit UID. */
  lemma PutUidParts(s: seq<Octet>, off: nat, u: nat)
    requires |s| >= 24 && (off == 3 || off == 9)
    ensures var r := Put(Put(s, off, BigEndian(u / 0x1_0000_0000, 2)), off + 2, BigEndian(u, 4));
            && HeaderOf(r) == (if off == 3 then HeaderOf(s).(dst := u % UID_COUNT) else HeaderOf(s).(src := u % UID_COUNT))
            && r[..off] == s[..off] && r[23..] == s[23..] && r[24..] == s[24..]
  {
    hide HeaderOf, BigEndian;
    UidOctets(u);
    PutTwice(s, off, BigEndian(u / 0x1_0000_0000, 2), BigEndian(u, 4));
    PutUid(s, off, u % UID_COUNT);
    PutFrame(s, off, BigEndian(u % UID_COUNT, 6));
  }

  lemma PutFrame(s: seq<Octet>, off: nat, bytes: seq<Octet>)
    requires off + |bytes| <= |s|
    ensures var r := Put(s, off, bytes);
            r[..off] == s[..off] && forall i | off + |bytes| <= i <= |s| :: r[i..] == s[i..]
  {
  }

  lemma PutPid(s: seq<Octet>, w: U16)
    requires |s| >= 24
    ensures HeaderOf(Put(s, 21, BigEndian(w, 2))) == HeaderOf(s).(pid := w)
  {
    var r := Put(s, 21, BigEndian(w, 2));
    Pow256Values();
    BigEndianExact(w, 2);
    assert r[3..9] == s[3..9];
    assert r[9..15] == s[9..15];
    assert r[18..20] == s[18..20];
  }

  lemma PutOctet(s: seq<Octet>, off: nat, b: Octet)
    requires |s| >= 24 && (off == 16 || off == 20)
    ensures HeaderOf(s[off := b]) == if off == 16 then HeaderOf(s).(portId := b) else HeaderOf(s).(cc := b)
  {
    var r := s[off := b];
    assert r[3..9] == s[3..9];
    assert r[9..15] == s[9..15];
    assert r[18..20] == s[18..20];
    assert r[21..23] == s[21..23];
  }

  function Fill(b: Octet): (s: seq<Octet>)
    ensures |s| == 6
  {
    [b, b, b, b, b, b]
  }

  lemma FillValues()
    ensures UidAt(Fill(0xFF), 0) == BROADCAST && UidAt(Fill(0), 0) == ANY
  {
    FillValue(0xFF);
    FillValue(0);
  }

  lemma FillValue(b: Octet)
    ensures UidAt(Fill(b), 0) == b as int * 0x0101_0101_0101
  {
    var s := Fill(b);
    assert s[0..6] == s;
    assert s[..5] == [b, b, b, b, b] && s[..5][..4] == [b, b, b, b] && s[..5][..4][..3] == [b, b, b];
    assert [b, b, b][..2] == [b, b] && [b, b][..1] == [b] && [b][..0] == [];
    assert FromBigEndian([b]) == FromBigEndian([b][..0]) * 256 + b == b;
    assert FromBigEndian([b, b]) == FromBigEndian([b, b][..1]) * 256 + b == b as int * 256 + b;
    assert FromBigEndian([b, b, b]) == FromBigEndian([b, b]) * 256 + b;
    assert FromBigEndian(s[..5][..4]) == FromBigEndian([b, b, b]) * 256 + b;
    assert FromBigEndian(s[..5]) == FromBigEndian(s[..5][..4]) * 256 + b;
  }

  // ----- PacketEncoder ----------------------------------------------------------------------

  /** Fills a caller's buffer step by step; `Hdr` and `Pd` are what has been set so far. */
  class PacketEncoder {
    const buf: array<Octet>

    ghost predicate Valid()
      reads buf
    {
      buf.Length >= 26 && buf[0] == SC_RDM && buf[1] == SC_SUB_MESSAGE && buf[23] <= 231 && 26 + buf[23] <= buf.Length
    }

    ghost function Hdr(): Header
      requires Valid()
      reads buf
    {
      HeaderOf(buf[..])
    }

    ghost function Pd(): seq<Octet>
      requires Valid()
      reads buf
    {
      buf[24..24 + buf[23]]
    }

    constructor (buffer: array<Octet>)
      requires buffer.Length >= 26
      modifies buffer
      ensures buf == buffer && Valid() && Pd() == []
      ensures Hdr() == HeaderOf(old(buffer[..]))
    {
      buf := buffer;
      new;
      buffer[0] := SC_RDM;
      buffer[1] := SC_SUB_MESSAGE;
      buffer[23] := 0;
      var s, r := old(buffer[..]), buffer[..];
      assert r[3..9] == s[3..9];
      assert r[9..15] == s[9..15];
      assert r[18..20] == s[18..20];
      assert r[21..23] == s[21..23];
    }

    method PutUidField(off: nat, u: nat)
      requires Valid() && (off == 3 || off == 9)
      modifies buf
      ensures Valid() && Pd() == old(Pd())
      ensures Hdr() == if off == 3 then old(Hdr()).(dst := u % UID_COUNT) else old(Hdr()).(src := u % UID_COUNT)
    {
      hide HeaderOf, BigEndian;
      ghost var s := buf[..];
      CopyReversed(buf, off, u / 0x1_0000_0000, 2);
      CopyReversed(buf, off + 2, u, 4);
      PutUidParts(s, off, u);
      ghost var r := buf[..];
      assert r[23] == s[23] && r[24..24 + r[23]] == r[24..][..r[23]] == s[24..24 + s[23]];
    }

    method Source(u: nat)
      requires Valid()
      modifies buf
      ensures Valid() && Pd() == old(Pd()) && Hdr() == old(Hdr()).(src := u % UID_COUNT)
    {
      PutUidField(9, u);
    }

    method Destination(u: nat)
      requires Valid()
      modifies buf
      ensures Valid() && Pd() == old(Pd()) && Hdr() == old(Hdr()).(dst := u % UID_COUNT)
    {
      PutUidField(3, u);
    }

    method CommandClass(cc: Octet)
      requires Valid()
      modifies buf
      ensures Valid() && Pd() == old(Pd()) && Hdr() == old(Hdr()).(cc := cc)
    {
      PutOctet(buf[..], 20, cc);
      buf[20] := cc;
      assert buf[..] == old(buf[..])[20 := cc];
    }

    method ResponseType(t: Octet)
      requires Valid()
      modifies buf
      ensures Valid() && Pd() == old(Pd()) && Hdr() == old(Hdr()).(portId := t)
    {
      PutOctet(buf[..], 16, t);
      buf[16] := t;
      assert buf[..] == old(buf[..])[16 := t];
    }

    method Pid(pid: U16)
      requires Valid()
      modifies buf
      ensures Valid() && Pd() == old(Pd()) && Hdr() == old(Hdr()).(pid := pid)
    {
      PutPid(buf[..], pid);
      CopyReversed(buf, 21, pid, 2);
    }

    method AddPd(v: nat, size: nat)
      requires Valid() && |Pd()| + size <= 231 && 26 + |Pd()| + size <= buf.Length
      modifies buf
      ensures Valid() && Hdr() == old(Hdr()) && Pd() == old(Pd()) + BigEndian(v, size)
    {
      var pdl := buf[23];
      ghost var s := buf[..];
      CopyReversed(buf, 24 + pdl, v, size);
      PutKeepsHeader(s, 24 + pdl, BigEndian(v, size));
      ghost var t := buf[..];
      buf[23] := pdl + size;
      ghost var r := buf[..];
      assert r[3..9] == t[3..9];
      assert r[9..15] == t[9..15];
      assert r[18..20] == t[18..20];
      assert r[21..23] == t[21..23];
      assert r[24 + pdl..24 + pdl + size] == BigEndian(v, size);
      assert r[24..24 + pdl] == s[24..24 + pdl];
    }

    /** Fixes up length and checksum; the first `size` octets are then the packet on the wire. */
    method Finalize() returns (size: nat)
      requires Valid()
      modifies buf
      ensures Valid() && Hdr() == old(Hdr()) && Pd() == old(Pd())
      ensures size == 26 + |Pd()| && buf[..size] == Encode(Hdr(), Pd())
    {
      ghost var s := buf[..];
      var pdl := buf[23];
      buf[2] := 24 + pdl;
      var c := CalculateChecksum(buf, 24 + pdl);
      ghost var t := buf[..];
      assert t[3..24] == s[3..24];
      FieldsEncode(s);
      FieldsDecode(HeaderOf(s), pdl, t);
      ghost var pd := s[24..24 + pdl];
      assert t[..24 + pdl] == Body(HeaderOf(s), pd) by {
        assert t[..24 + pdl] == [t[0], t[1], t[2]] + t[3..24] + t[24..24 + pdl];
        assert t[24..24 + pdl] == pd;
      }
      CopyReversed(buf, 24 + pdl, c, 2);
      PutKeepsHeader(t, 24 + pdl, BigEndian(c, 2));
      ghost var r := buf[..];
      assert r[24 + pdl..26 + pdl] == BigEndian(c, 2);
      assert r[..24 + pdl] == t[..24 + pdl];
      assert buf[..26 + pdl] == r[..24 + pdl] + r[24 + pdl..26 + pdl];
      size := buf[2] as int + 2;
    }
  }
}
