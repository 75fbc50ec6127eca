/** Octet strings: big-endian numbers and concatenation. */
module Bytes {
  import opened Collections

  type byte = x: int | 0 <= x < 256
  type bytes = seq<byte>

  /** A list of octet strings laid end to end. */
  function Concat(parts: seq<bytes>): bytes
  {
    if parts == [] then [] else parts[0] + Concat(parts[1..])
  }

  lemma {:induction false} ConcatAppend(a: seq<bytes>, b: seq<bytes>)
    ensures Concat(a + b) == Concat(a) + Concat(b)
  {
    if a == [] {
      assert a + b == b;
    } else {
      var joined := a + b;
      assert joined[0] == a[0];
      assert joined[1..] == a[1..] + b;
      ConcatAppend(a[1..], b);
      Assoc(a[0], Concat(a[1..]), Concat(b));
    }
  }

  lemma ConcatSnoc(a: seq<bytes>, x: bytes)
    ensures Concat(a + [x]) == Concat(a) + x
  {
    ConcatAppend(a, [x]);
    assert Concat([x]) == x + Concat([]);
  }

  /** The low bits of a and b combined by exclusive or, one bit at a time. */
  function XorBits(a: nat, b: nat, bits: nat): nat
  {
    if bits == 0 then 0 else 2 * XorBits(a / 2, b / 2, bits - 1) + (a + b) % 2
  }

  function Pow2(bits: nat): (p: nat)
    ensures p > 0
  {
    if bits == 0 then 1 else 2 * Pow2(bits - 1)
  }

  lemma {:induction false} XorBitsBounds(a: nat, b: nat, bits: nat)
    ensures XorBits(a, b, bits) < Pow2(bits)
  {
    if bits > 0 {
      XorBitsBounds(a / 2, b / 2, bits - 1);
    }
  }

  /** Exclusive or with the same key twice gives the number back. */
  lemma {:induction false} XorBitsTwice(a: nat, b: nat, bits: nat)
    requires a < Pow2(bits)
    ensures XorBits(XorBits(a, b, bits), b, bits) == a
  {
    if bits > 0 {
      XorBitsTwice(a / 2, b / 2, bits - 1);
      Halves(XorBits(a / 2, b / 2, bits - 1), (a + b) % 2);
      SameParity(a, b, XorBits(a, b, bits));
    }
  }

  lemma Halves(half: nat, bit: nat)
    requires bit < 2
    ensures (2 * half + bit) / 2 == half && (2 * half + bit) % 2 == bit
  {
  }

  lemma SameParity(a: nat, b: nat, x: nat)
    requires x % 2 == (a + b) % 2
    ensures (x + b) % 2 == a % 2
  {
  }

  lemma ByteBits()
    ensures Pow2(8) == 256
  {
    assert Pow2(4) == 16 by { assert Pow2(2) == 4; }
    assert Pow2(6) == 64;
  }

  function XorByte(a: byte, b: byte): byte
  {
    XorBitsBounds(a, b, 8);
    ByteBits();
    XorBits(a, b, 8)
  }

  lemma XorByteTwice(a: byte, b: byte)
    ensures XorByte(XorByte(a, b), b) == a
  {
    ByteBits();
    XorBitsTwice(a, b, 8);
  }

  /** Bit i of a number, counted from the low end. */
  function Bit(n: nat, i: nat): nat
  {
    n / Pow2(i) % 2
  }

  lemma {:induction false} TimesMore(d: nat, x: nat, y: nat)
    requires x < y
    ensures d * x + d <= d * y
  {
    assert d * y == d * (y - 1) + d;
    if x < y - 1 { TimesMore(d, x, y - 1); }
  }

  lemma DivisionIs(n: nat, d: nat, k: nat, rest: nat)
    requires d > 0 && n == d * k + rest && rest < d
    ensures n / d == k
  {
    var q := n / d;
    assert n == d * q + n % d;
    if q < k { TimesMore(d, q, k); }
    if k < q { TimesMore(d, k, q); }
  }

  /** Dropping one bit and then some is dropping them at once. */
  lemma HalfThenMore(n: nat, p: nat)
    requires p > 0
    ensures n / 2 / p == n / (2 * p)
  {
    var q := n / 2;
    var k, m := q / p, q % p;
    assert q == p * k + m;
    assert n == (2 * p) * k + (2 * m + n % 2);
    DivisionIs(n, 2 * p, k, 2 * m + n % 2);
  }

  lemma BitStep(n: nat, i: nat)
    ensures Bit(n, 0) == n % 2
    ensures i > 0 ==> Bit(n, i) == Bit(n / 2, i - 1)
  {
    assert n / 1 == n;
    if i > 0 {
      HalfThenMore(n, Pow2(i - 1));
    }
  }

  /** A bit of an exclusive or is one exactly when the two numbers differ in it. */
  lemma {:induction false} XorBitsAt(a: nat, b: nat, bits: nat, i: nat)
    requires i < bits
    ensures Bit(XorBits(a, b, bits), i) == if Bit(a, i) == Bit(b, i) then 0 else 1
  {
    var x := XorBits(a, b, bits);
    Halves(XorBits(a / 2, b / 2, bits - 1), (a + b) % 2);
    assert x / 2 == XorBits(a / 2, b / 2, bits - 1) && x % 2 == (a + b) % 2;
    hide XorBits, Bit;
    BitStep(a, i);
    BitStep(b, i);
    BitStep(x, i);
    if i > 0 {
      XorBitsAt(a / 2, b / 2, bits - 1, i - 1);
    }
  }

  /** Each of the eight bits of the result is one exactly when the two octets differ in it. */
  lemma XorByteBits(a: byte, b: byte, i: nat)
    requires i < 8
    ensures Bit(XorByte(a, b), i) == if Bit(a, i) == Bit(b, i) then 0 else 1
  {
    XorBitsAt(a, b, 8, i);
  }

  function Pow256(width: nat): (p: nat)
    ensures p > 0
  {
    if width == 0 then 1 else 256 * Pow256(width - 1)
  }

  /** The unsigned number whose big-endian octets are s. */
  function BigEndian(s: bytes): nat
  {
    if s == [] then 0 else 256 * BigEndian(s[..|s| - 1]) + s[|s| - 1]
  }

  /** The first octet is the most significant one. */
  lemma {:induction false} BigEndianFirst(s: bytes)
    requires s != []
    ensures BigEndian(s) == s[0] * Pow256(|s| - 1) + BigEndian(s[1..])
  {
    var n := |s| - 1;
    if n > 0 {
      BigEndianFirst(s[..n]);
      assert s[..n][1..] == s[1..][..n - 1];
      assert s[0] * Pow256(n) == 256 * (s[0] * Pow256(n - 1)) by { assert Pow256(n) == 256 * Pow256(n - 1); }
    } else {
      assert s[1..] == [];
    }
  }

  lemma TwoOctets(s: bytes)
    requires |s| == 2
    ensures BigEndian(s) == s[0] as int * 256 + s[1] as int
  {
    BigEndianFirst(s);
    BigEndianFirst(s[1..]);
    assert Pow256(1) == 256 * Pow256(0);
  }

  /** The low width octets of n, most significant first. */
  function ToBigEndian(n: nat, width: nat): (s: bytes)
    ensures |s| == width
  {
    if width == 0 then [] else ToBigEndian(n / 256, width - 1) + [n % 256]
  }

  lemma {:induction false} BigEndianRoundTrip(n: nat, width: nat)
    requires n < Pow256(width)
    ensures BigEndian(ToBigEndian(n, width)) == n
  {
    if width > 0 {
      BigEndianRoundTrip(n / 256, width - 1);
      var s := ToBigEndian(n, width);
      assert s[..|s| - 1] == ToBigEndian(n / 256, width - 1);
    }
  }

  lemma {:induction false} ToBigEndianRoundTrip(s: bytes)
    ensures BigEndian(s) < Pow256(|s|)
    ensures ToBigEndian(BigEndian(s), |s|) == s
  {
    if s != [] {
      var init, last := s[..|s| - 1], s[|s| - 1];
      ToBigEndianRoundTrip(init);
      assert BigEndian(s) / 256 == BigEndian(init) && BigEndian(s) % 256 == last;
      assert s == init + [last];
    }
  }
}
