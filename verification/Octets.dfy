/** Octets, network byte order and the 16-bit additive checksum that every part of the
    system shares (sections 6.2 and 7.5 of ANSI E1.20). */
module Octets {

  type Octet = b: int | 0 <= b < 256

  datatype Option<+T> = None | Some(value: T)

  function Pow256(n: nat): (p: nat)
    ensures p > 0
  {
    if n == 0 then 1 else 256 * Pow256(n - 1)
  }

  /** The low `n` octets of `v`, most significant first. */
  function BigEndian(v: nat, n: nat): (s: seq<Octet>)
    ensures |s| == n
  {
    if n == 0 then [] else BigEndian(v / 256, n - 1) + [v % 256]
  }

  function FromBigEndian(s: seq<Octet>): nat {
    if s == [] then 0 else FromBigEndian(s[..|s| - 1]) * 256 + s[|s| - 1]
  }

  lemma MultipleBelow(k: int, m: int, d: int)
    requires k * m == d && -m < d < m
    ensures k == 0
  {
  }

  /** Quotient and remainder of a division are unique. */
  lemma DivModUnique(v: nat, m: nat, q: nat, r: nat)
    requires 0 <= r < m && v == q * m + r
    ensures v / m == q && v % m == r
  {
    assert (q - v / m) * m == v % m - r by {
      assert v == v / m * m + v % m;
    }
    MultipleBelow(q - v / m, m, v % m - r);
  }

  lemma SplitMod(v: nat, p: nat)
    requires p > 0
    ensures v / 256 % p * 256 + v % 256 == v % (256 * p)
  {
    var q, r := v / 256 / p, v / 256 % p;
    assert v / 256 == q * p + r;
    calc {
      v;
      256 * (q * p + r) + v % 256;
      q * (256 * p) + (256 * r + v % 256);
    }
    DivModUnique(v, 256 * p, q, 256 * r + v % 256);
  }

  lemma {:induction false} BigEndianRoundTrip(v: nat, n: nat)
    ensures FromBigEndian(BigEndian(v, n)) == v % Pow256(n)
  {
    if n > 0 {
      var s := BigEndian(v, n);
      assert s[..|s| - 1] == BigEndian(v / 256, n - 1);
      BigEndianRoundTrip(v / 256, n - 1);
      SplitMod(v, Pow256(n - 1));
    }
  }

  lemma {:induction false} FromBigEndianRoundTrip(s: seq<Octet>)
    ensures FromBigEndian(s) < Pow256(|s|)
    ensures BigEndian(FromBigEndian(s), |s|) == s
  {
    if s != [] {
      FromBigEndianRoundTrip(s[..|s| - 1]);
    }
  }

  /** Values below 256^n survive encoding unchanged. */
  lemma BigEndianExact(v: nat, n: nat)
    requires v < Pow256(n)
    ensures FromBigEndian(BigEndian(v, n)) == v
  {
    BigEndianRoundTrip(v, n);
    DivModUnique(v, Pow256(n), 0, v);
  }

  /** Only the value modulo 256^n matters to an n-octet field. */
  lemma BigEndianTruncates(v: nat, n: nat)
    ensures BigEndian(v % Pow256(n), n) == BigEndian(v, n)
  {
    BigEndianRoundTrip(v, n);
    FromBigEndianRoundTrip(BigEndian(v, n));
  }

  /** `v` shifted right by `n` octets. */
  function Shift(v: nat, n: nat): nat {
    if n == 0 then v else Shift(v / 256, n - 1)
  }

  lemma ShiftByFour(v: nat)
    ensures Shift(v, 4) == v / 0x1_0000_0000
  {
    var w := v / 256 / 256;
    assert Shift(v, 4) == Shift(v / 256, 3) == Shift(w, 2) == Shift(w / 256, 1) == w / 256 / 256;
  }

  lemma ShiftNext(v: nat, k: nat)
    ensures Shift(v, k) == if k == 0 then v else Shift(v / 256, k - 1)
    ensures BigEndian(v, 0) == []
  {
  }

  lemma BigEndianNext(v: nat, n: nat)
    requires n > 0
    ensures BigEndian(v, n) == BigEndian(v / 256, n - 1) + [v % 256]
  {
  }

  /** A field of a + b octets is the field of its high part followed by the field of its low part. */
  lemma {:induction false} BigEndianSplit(v: nat, a: nat, b: nat)
    ensures BigEndian(v, a + b) == BigEndian(Shift(v, b), a) + BigEndian(v, b)
  {
    ShiftNext(v, b);
    hide *;
    if b > 0 {
      BigEndianNext(v, a + b);
      BigEndianNext(v, b);
      BigEndianSplit(v / 256, a, b - 1);
    }
  }

  /** Octet `k` of a little-endian host's representation of `v`. */
  function HostOctet(v: nat, k: nat): Octet {
    Shift(v, k) % 256
  }

  lemma {:induction false} BigEndianAt(v: nat, n: nat, i: nat)
    requires i < n
    ensures BigEndian(v, n)[i] == HostOctet(v, n - 1 - i)
  {
    if i < n - 1 {
      BigEndianAt(v / 256, n - 1, i);
    }
  }

  lemma {:induction false} ShiftDivides(v: nat, k: nat)
    ensures Shift(v, k) == v / Pow256(k)
  {
    if k > 0 {
      ShiftDivides(v / 256, k - 1);
      DivTwice(v, Pow256(k - 1));
    }
  }

  lemma DivTwice(v: nat, p: nat)
    requires p > 0
    ensures v / 256 / p == v / (256 * p)
  {
    var q, r := v / 256 / p, v / 256 % p;
    assert v / 256 == q * p + r;
    calc {
      v;
      256 * (q * p + r) + v % 256;
      q * (256 * p) + (256 * r + v % 256);
    }
    DivModUnique(v, 256 * p, q, 256 * r + v % 256);
  }

  /** The octets of a big-endian field as digits to the base 256, the most significant one first. */
  lemma BigEndianDigit(v: nat, n: nat, i: nat)
    requires i < n
    ensures BigEndian(v, n)[i] == v / Pow256(n - 1 - i) % 256
  {
    BigEndianAt(v, n, i);
    ShiftDivides(v, n - 1 - i);
  }

  lemma Pow256Values()
    ensures Pow256(2) == 0x1_0000 && Pow256(4) == 0x1_0000_0000 && Pow256(6) == 0x1_0000_0000_0000
  {
    assert Pow256(2) == 256 * Pow256(1) && Pow256(1) == 256 * Pow256(0);
    assert Pow256(4) == 256 * Pow256(3) && Pow256(3) == 256 * Pow256(2);
    assert Pow256(6) == 256 * Pow256(5) && Pow256(5) == 256 * Pow256(4);
  }

  function Sum(s: seq<Octet>): nat {
    if s == [] then 0 else Sum(s[..|s| - 1]) + s[|s| - 1]
  }

  /** The checksum of a message: the sum of its octets in 16-bit arithmetic. */
  function Checksum(s: seq<Octet>): (c: nat)
    ensures c < 0x1_0000
  {
    Sum(s) % 0x1_0000
  }

  /** The checksum starts at zero, counts every octet once wherever it stands, and wraps at 16 bits. */
  lemma ChecksumLaws(a: seq<Octet>, b: seq<Octet>, o: Octet)
    ensures Checksum([]) == 0 && Checksum([o]) == o
    ensures Checksum(a + b) == (Checksum(a) + Checksum(b)) % 0x1_0000
  {
    SumOne(o);
    hide Sum;
    SumConcat(a, b);
    ModSum(Sum(a), Sum(b));
  }

  lemma SumOne(o: Octet)
    ensures Sum([o]) == o && Sum([]) == 0
  {
    assert [o][..0] == [];
  }

  lemma ModSum(x: nat, y: nat)
    ensures (x + y) % 0x1_0000 == (x % 0x1_0000 + y % 0x1_0000) % 0x1_0000
  {
  }

  lemma {:induction false} SumConcat(a: seq<Octet>, b: seq<Octet>)
    ensures Sum(a + b) == Sum(a) + Sum(b)
  {
    if b == [] {
      assert a + b == a;
    } else {
      SumConcat(a, b[..|b| - 1]);
      assert (a + b)[..|a + b| - 1] == a + b[..|b| - 1];
    }
  }

  // ----- octets as bit patterns ---------------------------------------------------------------------

  function Bits(a: Octet): bv8 {
    a as bv8
  }

  function Value(x: bv8): Octet {
    x as int
  }

  function Or(a: Octet, b: Octet): Octet {
    Value(Bits(a) | Bits(b))
  }

  function And(a: Octet, b: Octet): Octet {
    Value(Bits(a) & Bits(b))
  }

  /** Disjunction and conjunction of octets are those of their bits. */
  lemma BitwiseOctets(a: Octet, b: Octet)
    ensures Or(a, b) as bv8 == (a as bv8) | (b as bv8) && And(a, b) as bv8 == (a as bv8) & (b as bv8)
  {
  }

  lemma CastRoundTrip(a: int)
    requires 0 <= a < 256
    ensures (a as bv8) as int == a
  {
    if a < 16 {} else if a < 32 {} else if a < 64 {} else if a < 128 {} else {}
  }

  lemma ValueBits(a: Octet)
    ensures Value(Bits(a)) == a
  {
    CastRoundTrip(a);
  }

  lemma BitsValue(x: bv8)
    ensures Bits(Value(x)) == x
  {
  }
}
