/** The answer to a DISC_UNIQUE_BRANCH request on the wire (section 7.5 of ANSI E1.20): preamble,
    separator, and UID and checksum with every octet sent twice under complementary masks. */
module DiscoveryReply {
  import opened Octets

  const PREAMBLE: Octet := 0xFE
  const SEPARATOR: Octet := 0xAA
  const HIGH_MASK: Octet := 0xAA
  const LOW_MASK: Octet := 0x55
  const UID_OCTETS := 6

  // ----- one octet as a pair ----------------------------------------------------------------------

  lemma MaskBits()
    ensures Bits(0xAA) == 0xAA && Bits(0x55) == 0x55
  {
  }

  lemma PairBits(a: bv8, b: bv8)
    ensures a & 0xAA == 0xAA && b & 0x55 == 0x55 ==> a == 0xAA | (a & b) && b == 0x55 | (a & b)
    ensures (0xAA | a) & 0xAA == 0xAA && (0x55 | a) & 0x55 == 0x55 && (0xAA | a) & (0x55 | a) == a
  {
  }

  /** Two octets carry the masks exactly if they are the encoding of their conjunction. */
  lemma PairExact(a: Octet, b: Octet)
    ensures And(a, HIGH_MASK) == HIGH_MASK && And(b, LOW_MASK) == LOW_MASK <==>
            a == Or(HIGH_MASK, And(a, b)) && b == Or(LOW_MASK, And(a, b))
  {
    hide Bits, Value;
    MaskBits();
    ValueBits(a);
    ValueBits(b);
    ValueBits(0xAA);
    ValueBits(0x55);
    BitsValue(Bits(a) & 0xAA);
    BitsValue(Bits(b) & 0x55);
    BitsValue(Bits(a) & Bits(b));
    BitsValue(0xAA | (Bits(a) & Bits(b)));
    BitsValue(0x55 | (Bits(a) & Bits(b)));
    PairBits(Bits(a), Bits(b));
    PairBits(Bits(a) & Bits(b), 0);
  }

  lemma PairDecode(x: Octet)
    ensures And(Or(HIGH_MASK, x), HIGH_MASK) == HIGH_MASK && And(Or(LOW_MASK, x), LOW_MASK) == LOW_MASK
    ensures And(Or(HIGH_MASK, x), Or(LOW_MASK, x)) == x
  {
    hide Bits, Value;
    MaskBits();
    ValueBits(x);
    ValueBits(0xAA);
    ValueBits(0x55);
    BitsValue(0xAA | Bits(x));
    BitsValue(0x55 | Bits(x));
    PairBits(Bits(x), 0);
  }

  // ----- the encoding -------------------------------------------------------------------------------

  function Pairs(s: seq<Octet>): (r: seq<Octet>)
    ensures |r| == 2 * |s|
  {
    if s == [] then []
    else Pairs(s[..|s| - 1]) + [Or(HIGH_MASK, s[|s| - 1]), Or(LOW_MASK, s[|s| - 1])]
  }

  lemma {:induction false} PairsAt(s: seq<Octet>, i: nat)
    requires i < |s|
    ensures Pairs(s)[2 * i] == Or(HIGH_MASK, s[i]) && Pairs(s)[2 * i + 1] == Or(LOW_MASK, s[i])
  {
    if i < |s| - 1 {
      PairsAt(s[..|s| - 1], i);
    }
  }

  lemma {:induction false} PairsConcat(a: seq<Octet>, b: seq<Octet>)
    ensures Pairs(a + b) == Pairs(a) + Pairs(b)
  {
    if b == [] {
      assert a + b == a;
    } else {
      PairsConcat(a, b[..|b| - 1]);
      assert (a + b)[..|a + b| - 1] == a + b[..|b| - 1];
    }
  }

  /** UID and checksum, 16 octets. */
  function Payload(uid: seq<Octet>): (r: seq<Octet>)
    requires |uid| == UID_OCTETS
    ensures |r| == 16
  {
    Pairs(uid) + Pairs(BigEndian(Checksum(Pairs(uid)), 2))
  }

  function Preamble(n: nat): seq<Octet> {
    seq(n, _ => PREAMBLE)
  }

  /** What a responder sends: seven preamble octets, the separator and the payload. */
  function EncodeReply(uid: seq<Octet>): (r: seq<Octet>)
    requires |uid| == UID_OCTETS
    ensures |r| == 24
  {
    Preamble(7) + [SEPARATOR] + Payload(uid)
  }

  /** `x` under both masks. */
  predicate Masked(high: Octet, low: Octet, x: Octet) {
    high as bv8 == 0xAA | (x as bv8) && low as bv8 == 0x55 | (x as bv8)
  }

  lemma PairMasked(s: seq<Octet>, i: nat)
    requires i < |s|
    ensures Masked(Pairs(s)[2 * i], Pairs(s)[2 * i + 1], s[i])
  {
    PairsAt(s, i);
    BitwiseOctets(HIGH_MASK, s[i]);
    BitwiseOctets(LOW_MASK, s[i]);
    hide Pairs, Or;
  }

  /** A reply octet by octet: seven times FE, AA, each UID octet under both masks, and the checksum of these
      twelve octets under both masks. */
  lemma ReplyOctets(uid: seq<Octet>, i: nat)
    requires |uid| == UID_OCTETS && i < UID_OCTETS
    ensures var r := EncodeReply(uid);
            var c := Checksum(r[8..20]);
            && r[..8] == [0xFE, 0xFE, 0xFE, 0xFE, 0xFE, 0xFE, 0xFE, 0xAA]
            && Masked(r[8 + 2 * i], r[9 + 2 * i], uid[i]) && Masked(r[20], r[21], c / 256) && Masked(r[22], r[23], c % 256)
  {
    hide *;
    var r := EncodeReply(uid);
    ReplyParts(uid);
    var c := Checksum(r[8..20]);
    ChecksumOctets(c / 256, c % 256, c);
    MaskedAt(r, 8, uid, i);
    MaskedAt(r, 20, BigEndian(c, 2), 0);
    MaskedAt(r, 20, BigEndian(c, 2), 1);
  }

  lemma ReplyParts(uid: seq<Octet>)
    requires |uid| == UID_OCTETS
    ensures var r := EncodeReply(uid);
            && r[..8] == [0xFE, 0xFE, 0xFE, 0xFE, 0xFE, 0xFE, 0xFE, 0xAA]
            && r[8..20] == Pairs(uid) && r[20..24] == Pairs(BigEndian(Checksum(r[8..20]), 2))
  {
    hide Pairs, BigEndian, Checksum;
    var r := EncodeReply(uid);
    assert r[8..20] == Pairs(uid);
  }

  lemma MaskedAt(r: seq<Octet>, from: nat, s: seq<Octet>, i: nat)
    requires from + 2 * |s| <= |r| && r[from..from + 2 * |s|] == Pairs(s) && i < |s|
    ensures Masked(r[from + 2 * i], r[from + 2 * i + 1], s[i])
  {
    hide Pairs, Masked;
    PairMasked(s, i);
    assert r[from..from + 2 * |s|][2 * i] == r[from + 2 * i] && r[from..from + 2 * |s|][2 * i + 1] == r[from + 2 * i + 1];
  }

  /** Well-formed reception: noise without a preamble octet up to `k`, a preamble up to `j`, the separator,
      the payload of `uid`, and then anything. */
  ghost predicate ReplyAt(data: seq<Octet>, uid: seq<Octet>, k: nat, j: nat) {
    && |uid| == UID_OCTETS && k < j && j + 17 <= |data|
    && (forall i | 0 <= i < k :: data[i] != PREAMBLE)
    && (forall i | k <= i < j :: data[i] == PREAMBLE)
    && data[j] == SEPARATOR && data[j + 1..j + 17] == Payload(uid)
  }

  ghost predicate IsReply(data: seq<Octet>, uid: seq<Octet>) {
    exists k: nat, j: nat :: ReplyAt(data, uid, k, j)
  }

  datatype Outcome = NoReply | Collided | Heard(uid: seq<Octet>)

  // ----- the decoder ----------------------------------------------------------------------------------

  function SkipNoise(data: seq<Octet>, j: nat): (k: nat)
    requires j <= |data|
    ensures j <= k <= |data| && (k < |data| ==> data[k] == PREAMBLE)
    ensures forall i | j <= i < k :: data[i] != PREAMBLE
    decreases |data| - j
  {
    if j < |data| && data[j] != PREAMBLE then SkipNoise(data, j + 1) else j
  }

  function SkipPreamble(data: seq<Octet>, j: nat): (k: nat)
    requires j <= |data|
    ensures j <= k <= |data| && (k < |data| ==> data[k] != PREAMBLE)
    ensures forall i | j <= i < k :: data[i] == PREAMBLE
    decreases |data| - j
  {
    if j < |data| && data[j] == PREAMBLE then SkipPreamble(data, j + 1) else j
  }

  /** Masks of all eight pairs and the checksum over the first twelve octets. */
  function DecodePayload(p: seq<Octet>): (r: Outcome)
    requires |p| == 16
    ensures !r.NoReply? && (r.Heard? ==> |r.uid| == UID_OCTETS)
  {
    if !(forall i | 0 <= i < 8 :: And(p[2 * i], HIGH_MASK) == HIGH_MASK && And(p[2 * i + 1], LOW_MASK) == LOW_MASK) then Collided
    else
      var t := Unpaired(p);
      if 256 * t[6] as int + t[7] as int == Checksum(p[..12]) then Heard(t[..6]) else Collided
  }

  function Unpaired(p: seq<Octet>): (t: seq<Octet>)
    requires |p| == 16
    ensures |t| == 8
  {
    seq(8, i requires 0 <= i < 8 => And(p[2 * i], p[2 * i + 1]))
  }

  function Decode(data: seq<Octet>): Outcome {
    if data == [] then NoReply
    else
      var j := SkipPreamble(data, SkipNoise(data, 0));
      if j < |data| && data[j] == SEPARATOR && j + 17 <= |data| then DecodePayload(data[j + 1..j + 17]) else Collided
  }

  /** Masks right and checksum right means: exactly the payload of the decoded UID. */
  lemma PayloadExact(p: seq<Octet>, uid: seq<Octet>)
    requires |p| == 16 && |uid| == UID_OCTETS
    ensures DecodePayload(p) == Heard(uid) <==> p == Payload(uid)
  {
    if DecodePayload(p) == Heard(uid) {
      PayloadSound(p, uid);
    }
    if p == Payload(uid) {
      PayloadComplete(uid);
    }
  }

  lemma PayloadSound(p: seq<Octet>, uid: seq<Octet>)
    requires |p| == 16 && |uid| == UID_OCTETS && DecodePayload(p) == Heard(uid)
    ensures p == Payload(uid)
  {
    hide Checksum, And, Or, Pairs;
    var t := Unpaired(p);
    forall i | 0 <= i < 8
      ensures p[2 * i] == Pairs(t)[2 * i] && p[2 * i + 1] == Pairs(t)[2 * i + 1]
    {
      PairExact(p[2 * i], p[2 * i + 1]);
      PairsAt(t, i);
    }
    EvenOdd(p, Pairs(t));
    assert t == uid + t[6..];
    PairsConcat(uid, t[6..]);
    assert p[..12] == Pairs(uid);
    ChecksumOctets(t[6], t[7], Checksum(Pairs(uid)));
    assert t[6..] == [t[6], t[7]];
  }

  lemma PayloadComplete(uid: seq<Octet>)
    requires |uid| == UID_OCTETS
    ensures DecodePayload(Payload(uid)) == Heard(uid)
  {
    hide Checksum, And, Or, Pairs, BigEndian;
    var p, c := Payload(uid), BigEndian(Checksum(Pairs(uid)), 2);
    PairsConcat(uid, c);
    var t := uid + c;
    forall i | 0 <= i < 8
      ensures And(p[2 * i], HIGH_MASK) == HIGH_MASK && And(p[2 * i + 1], LOW_MASK) == LOW_MASK
      ensures Unpaired(p)[i] == t[i]
    {
      PairsAt(t, i);
      PairDecode(t[i]);
    }
    assert Unpaired(p) == t;
    assert p[..12] == Pairs(uid);
    ChecksumOctets(c[0], c[1], Checksum(Pairs(uid)));
    assert c == [c[0], c[1]] && t[..6] == uid;
  }

  lemma EvenOdd(p: seq<Octet>, q: seq<Octet>)
    requires |p| == |q| == 16
    requires forall i | 0 <= i < 8 :: p[2 * i] == q[2 * i] && p[2 * i + 1] == q[2 * i + 1]
    ensures p == q
  {
    forall k | 0 <= k < 16
      ensures p[k] == q[k]
    {
      assert k == 2 * (k / 2) || k == 2 * (k / 2) + 1;
    }
  }

  lemma ChecksumOctets(hi: Octet, lo: Octet, c: nat)
    requires c < 0x1_0000
    ensures 256 * hi as int + lo as int == c <==> [hi, lo] == BigEndian(c, 2)
  {
    assert BigEndian(c, 2) == BigEndian(c / 256, 1) + [c % 256];
    assert BigEndian(c / 256, 1) == BigEndian(c / 256 / 256, 0) + [c / 256 % 256] == [c / 256];
    assert BigEndian(c, 2) == [c / 256, c % 256];
    assert [hi, lo] == [c / 256, c % 256] <==> hi == c / 256 && lo == c % 256 by {
      assert [hi, lo][0] == hi && [hi, lo][1] == lo;
      assert [c / 256, c % 256][0] == c / 256 && [c / 256, c % 256][1] == c % 256;
    }
  }

  lemma {:induction false} SkipNoiseTo(data: seq<Octet>, j: nat, k: nat)
    requires j <= k < |data| && data[k] == PREAMBLE && forall i | j <= i < k :: data[i] != PREAMBLE
    ensures SkipNoise(data, j) == k
    decreases k - j
  {
    if j < k {
      SkipNoiseTo(data, j + 1, k);
    }
  }

  lemma {:induction false} SkipPreambleTo(data: seq<Octet>, j: nat, k: nat)
    requires j <= k < |data| && data[k] != PREAMBLE && forall i | j <= i < k :: data[i] == PREAMBLE
    ensures SkipPreamble(data, j) == k
    decreases k - j
  {
    if j < k {
      SkipPreambleTo(data, j + 1, k);
    }
  }

  /** The decoder yields `uid` exactly on well-formed receptions of `uid`; all other data is a collision, and only
      silence is silence. */
  lemma DecodeExact(data: seq<Octet>, uid: seq<Octet>)
    ensures Decode(data) == NoReply <==> data == []
    ensures Decode(data) == Heard(uid) <==> IsReply(data, uid)
    ensures data != [] && (forall u :: !IsReply(data, u)) ==> Decode(data) == Collided
  {
    hide DecodePayload, Payload;
    if Decode(data).Heard? {
      HeardIsReply(data);
    }
    if IsReply(data, uid) {
      var k: nat, j: nat :| ReplyAt(data, uid, k, j);
      SkipNoiseTo(data, 0, k);
      SkipPreambleTo(data, k, j);
      PayloadExact(Payload(uid), uid);
    }
  }

  lemma HeardIsReply(data: seq<Octet>)
    requires Decode(data).Heard?
    ensures IsReply(data, Decode(data).uid)
  {
    hide DecodePayload, Payload;
    var k := SkipNoise(data, 0);
    var j := SkipPreamble(data, k);
    var p, uid := data[j + 1..j + 17], Decode(data).uid;
    PayloadExact(p, uid);
    assert data[k] == PREAMBLE && data[j] == SEPARATOR;
    assert ReplyAt(data, uid, k, j);
  }

  /** Decoding inverts encoding, whatever noise comes before and whatever octets come after. */
  lemma DecodeEncode(noise: seq<Octet>, uid: seq<Octet>, rest: seq<Octet>)
    requires |uid| == UID_OCTETS && PREAMBLE !in noise
    ensures Decode(noise + EncodeReply(uid) + rest) == Heard(uid)
  {
    hide Payload;
    var data := noise + EncodeReply(uid) + rest;
    var k := |noise|;
    assert forall i | k <= i < k + 7 :: data[i] == EncodeReply(uid)[i - k] == PREAMBLE;
    assert data[k + 7] == EncodeReply(uid)[7] == SEPARATOR;
    assert data[k + 8..k + 24] == EncodeReply(uid)[8..24] == Payload(uid);
    assert ReplyAt(data, uid, k, k + 7);
    DecodeExact(data, uid);
  }

  // ----- in the driver's frame buffer ------------------------------------------------------------------

  /** `dmx512_rtuart_handle_discovery_reply`: scans the reply area of a frame, of which the first
      `transfered` octets were received. The scan may look at the octet behind them; whatever is there,
      the outcome depends on the received octets only. */
  method HandleDiscoveryReply(area: seq<Octet>, transfered: nat) returns (r: Outcome)
    requires transfered < |area|
    ensures r == Decode(area[..transfered])
  {
    hide DecodePayload;
    ghost var data := area[..transfered];
    if transfered == 0 {
      return NoReply;
    }
    var j := 0;
    while area[j] != PREAMBLE && j < transfered
      invariant 0 <= j <= transfered && SkipNoise(data, 0) == SkipNoise(data, j)
      decreases transfered - j
    {
      j := j + 1;
    }
    ghost var k := j;
    while area[j] == PREAMBLE && j < transfered
      invariant k <= j <= transfered && SkipPreamble(data, k) == SkipPreamble(data, j)
      decreases transfered - j
    {
      j := j + 1;
    }
    if area[j] != SEPARATOR {
      return Collided;
    }
    j := j + 1;
    if transfered < j + 16 {
      return Collided;
    }
    SliceOfPrefix(area, transfered, j, j + 16);
    r := CheckPayload(area, j);
  }

  lemma SliceOfPrefix(s: seq<Octet>, n: nat, i: nat, j: nat)
    requires i <= j <= n <= |s|
    ensures s[..n][i..j] == s[i..j]
  {
  }

  /** Masks, then checksum, over the 16 octets at `j`. */
  method CheckPayload(area: seq<Octet>, j: nat) returns (r: Outcome)
    requires j + 16 <= |area|
    ensures r == DecodePayload(area[j..j + 16])
  {
    hide And, Checksum;
    ghost var p := area[j..j + 16];
    assert p[..12] == area[j..j + 12];
    var checksum := SumOctets(area, j, 12);
    var tmp: seq<Octet> := [];
    var i := 0;
    while i < 8
      invariant 0 <= i <= 8 && |tmp| == i
      invariant forall k | 0 <= k < i :: And(p[2 * k], HIGH_MASK) == HIGH_MASK && And(p[2 * k + 1], LOW_MASK) == LOW_MASK
      invariant forall k | 0 <= k < i :: tmp[k] == And(p[2 * k], p[2 * k + 1])
    {
      if And(area[j + 2 * i], HIGH_MASK) != HIGH_MASK || And(area[j + 2 * i + 1], LOW_MASK) != LOW_MASK {
        assert p[2 * i] == area[j + 2 * i];
        return Collided;
      }
      tmp := tmp + [And(area[j + 2 * i], area[j + 2 * i + 1])];
      i := i + 1;
    }
    assert tmp == Unpaired(p);
    var received := 256 * tmp[6] as int + tmp[7] as int;
    r := if received == checksum then Heard(tmp[..6]) else Collided;
  }

  method SumOctets(data: seq<Octet>, from: nat, count: nat) returns (sum: nat)
    requires from + count <= |data|
    ensures sum == Checksum(data[from..from + count])
  {
    sum := 0;
    var i := 0;
    while i < count
      invariant 0 <= i <= count && sum == Checksum(data[from..from + i])
    {
      assert data[from..from + i + 1][..i] == data[from..from + i];
      sum := (sum + data[from + i]) % 0x1_0000;
      i := i + 1;
    }
  }

  /** `dmx512_rdm_build_rdmdiscovery_reply`: writes the encoded reply of `uid` at `off`. */
  method BuildReply(d: array<Octet>, off: nat, uid: seq<Octet>) returns (size: nat)
    requires |uid| == UID_OCTETS && off + 24 <= d.Length
    modifies d
    ensures size == 24 && d[off..off + 24] == EncodeReply(uid)
    ensures d[..off] == old(d[..off]) && d[off + 24..] == old(d[off + 24..])
  {
    hide Pairs, BigEndian, Checksum;
    var p := off;
    while p < off + 7
      invariant off <= p <= off + 7
      invariant forall k | off <= k < p :: d[k] == PREAMBLE
      invariant forall k | 0 <= k < d.Length && !(off <= k < p) :: d[k] == old(d[k])
    {
      d[p] := PREAMBLE;
      p := p + 1;
    }
    d[off + 7] := SEPARATOR;
    WritePairs(d, off + 8, uid);
    ghost var body := d[off + 8..off + 20];
    assert body == Pairs(uid);
    var checksum := SumOctets(d[..], off + 8, 12);
    assert d[..][off + 8..off + 8 + 12] == body;
    WritePairs(d, off + 20, BigEndian(checksum, 2));
    assert d[off..off + 7] == Preamble(7);
    assert forall k | 0 <= k < 12 :: d[off + 8 + k] == body[k];
    assert d[off + 8..off + 20] == body;
    assert d[off..off + 24] == d[off..off + 7] + [d[off + 7]] + (d[off + 8..off + 20] + d[off + 20..off + 24]);
    size := 24;
  }

  method WritePairs(d: array<Octet>, off: nat, s: seq<Octet>)
    requires off + 2 * |s| <= d.Length
    modifies d
    ensures d[off..off + 2 * |s|] == Pairs(s)
    ensures forall k | 0 <= k < d.Length && !(off <= k < off + 2 * |s|) :: d[k] == old(d[k])
  {
    hide Or;
    var i := 0;
    while i < |s|
      invariant 0 <= i <= |s| && d[off..off + 2 * i] == Pairs(s[..i])
      invariant forall k | 0 <= k < d.Length && !(off <= k < off + 2 * i) :: d[k] == old(d[k])
    {
      ghost var done := d[off..off + 2 * i];
      d[off + 2 * i] := Or(HIGH_MASK, s[i]);
      d[off + 2 * i + 1] := Or(LOW_MASK, s[i]);
      assert s[..i + 1][..i] == s[..i];
      assert d[off..off + 2 * i] == done;
      assert d[off..off + 2 * (i + 1)] == d[off..off + 2 * i] + [d[off + 2 * i], d[off + 2 * i + 1]];
      i := i + 1;
    }
    assert s[..|s|] == s;
  }
}
