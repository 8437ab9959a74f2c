// Little-endian integers and decimal numerals as byte strings.
module Bytes {
  import opened Basics

  type byte = x: int | 0 <= x < 256
  type uint32 = x: int | 0 <= x < 0x1_0000_0000
  type int32 = x: int | -0x8000_0000 <= x < 0x8000_0000

  ghost function Pow256(n: nat): (p: nat)
    ensures p >= 1
  {
    if n == 0 then 1 else 256 * Pow256(n - 1)
  }

  // The n lowest bytes of v, lowest first.
  function LE(v: nat, n: nat): (s: seq<byte>)
    ensures |s| == n
  {
    if n == 0 then [] else [v % 256] + LE(v / 256, n - 1)
  }

  // The i-th byte counts the multiples of 256^i.
  lemma {:induction false} ByteAt(v: nat, n: nat, i: nat)
    requires i < n
    ensures LE(v, n)[i] == v / Pow256(i) % 256
  {
    if i > 0 {
      ByteAt(v / 256, n - 1, i - 1);
      DivideTwice(v, Pow256(i - 1));
    }
  }

  lemma DivideTwice(v: nat, d: nat)
    requires d > 0
    ensures v / 256 / d == v / (256 * d)
  {
    var q, r := v / 256 / d, v / 256 % d;
    assert v / 256 == q * d + r;
    assert v == q * (256 * d) + (256 * r + v % 256);
    QuotientIs(v, 256 * d, q, 256 * r + v % 256);
  }

  lemma QuotientIs(v: nat, d: nat, q: nat, r: nat)
    requires d > 0 && r < d && v == q * d + r
    ensures v / d == q
  {
    TimesOrder(v / d, q, d);
    TimesOrder(q, v / d, d);
  }

  lemma TimesOrder(a: nat, b: nat, d: nat)
    ensures a < b ==> a * d + d <= b * d
  {
    assert (a + 1) * d == a * d + d;
    if a < b {
      TimesMonotone(a + 1, b, d);
    }
  }

  lemma TimesMonotone(a: nat, b: nat, d: nat)
    requires a <= b
    ensures a * d <= b * d
  {
  }

  function FromLE(s: seq<byte>): nat {
    if s == [] then 0 else s[0] + 256 * FromLE(s[1..])
  }

  // Writing and reading n bytes is a bijection between numbers below 256^n and n-byte strings.
  lemma {:induction false} ReadWritten(v: nat, n: nat)
    requires v < Pow256(n)
    ensures FromLE(LE(v, n)) == v
  {
    if n > 0 {
      ReadWritten(v / 256, n - 1);
      assert LE(v, n)[1..] == LE(v / 256, n - 1);
    }
  }

  lemma {:induction false} WriteRead(s: seq<byte>)
    ensures FromLE(s) < Pow256(|s|)
    ensures LE(FromLE(s), |s|) == s
  {
    if s != [] {
      WriteRead(s[1..]);
      assert FromLE(s) / 256 == FromLE(s[1..]) && FromLE(s) % 256 == s[0];
      assert s == [s[0]] + s[1..];
    }
  }

  lemma PowersOf256()
    ensures Pow256(4) == 0x1_0000_0000
    ensures Pow256(8) == 0x1_0000_0000_0000_0000
  {
    assert Pow256(1) == 256 && Pow256(2) == 0x1_0000 && Pow256(3) == 0x100_0000;
    assert Pow256(5) == 0x100_0000_0000 && Pow256(6) == 0x1_0000_0000_0000 && Pow256(7) == 0x100_0000_0000_0000;
  }

  lemma WordReadBack(w: uint32)
    ensures FromLE(LE(w, 4)) == w
  {
    PowersOf256();
    ReadWritten(w, 4);
  }

  function Shifted(v: nat, i: nat): nat {
    if i == 0 then v else Shifted(v / 256, i - 1)
  }

  lemma {:induction false} ShiftedStep(v: nat, i: nat)
    ensures Shifted(v, i) / 256 == Shifted(v, i + 1)
    ensures LE(v, i + 1) == LE(v, i) + [Shifted(v, i) % 256]
  {
    if i > 0 {
      ShiftedStep(v / 256, i - 1);
    }
  }

  // The n lowest bytes, lowest first.
  method AppendBytes(out: seq<byte>, v: nat, n: nat) returns (r: seq<byte>)
    ensures r == out + LE(v, n)
  {
    r := out;
    for i := 0 to n
      invariant r == out + LE(v, i)
    {
      ShiftedStep(v, i);
      Assoc(out, LE(v, i), [Shifted(v, i) % 256], []);
      r := r + [Shifted(v, i) % 256];
    }
  }

  // The four bytes of a word, lowest first.
  lemma FourBytes(value: uint32)
    ensures LE(value, 4)[0] == value % 0x100 && LE(value, 4)[1] == value / 0x100 % 0x100
    ensures LE(value, 4)[2] == value / 0x1_0000 % 0x100 && LE(value, 4)[3] == value / 0x100_0000 % 0x100
  {
    assert Pow256(0) == 1 && Pow256(1) == 0x100 && Pow256(2) == 0x1_0000 && Pow256(3) == 0x100_0000;
    hide LE, Pow256;
    ByteAt(value, 4, 0);
    ByteAt(value, 4, 1);
    ByteAt(value, 4, 2);
    ByteAt(value, 4, 3);
  }

  lemma FromFourBytes(s: seq<byte>)
    requires |s| == 4
    ensures FromLE(s) == s[0] + 0x100 * s[1] as int + 0x1_0000 * s[2] as int + 0x100_0000 * s[3] as int
  {
    assert s[1..][1..] == s[2..] && s[2..][1..] == s[3..] && s[3..][1..] == [];
    assert FromLE(s[3..]) == s[3];
    assert FromLE(s[2..]) == s[2] + 256 * s[3] as int;
    assert FromLE(s[1..]) == s[1] + 256 * FromLE(s[2..]);
  }

  method AppendUint32(out: seq<byte>, value: uint32) returns (r: seq<byte>)
    ensures r == out + LE(value, 4)
  {
    r := AppendBytes(out, value, 4);
  }

  lemma {:induction false} FromLESnoc(s: seq<byte>, b: byte)
    ensures FromLE(s + [b]) == FromLE(s) + b * Pow256(|s|)
  {
    if s == [] {
      assert (s + [b])[1..] == [];
    } else {
      assert (s + [b])[1..] == s[1..] + [b];
      FromLESnoc(s[1..], b);
    }
  }

  // Bitwise or.
  function Or(a: nat, b: nat): nat {
    if a == 0 && b == 0 then 0 else 2 * Or(a / 2, b / 2) + if a % 2 == 1 || b % 2 == 1 then 1 else 0
  }

  lemma {:induction false} OrZero(b: nat)
    ensures Or(0, b) == b
  {
    if b > 0 {
      OrZero(b / 2);
    }
  }

  // b << bits
  function ShiftLeft(b: nat, bits: nat): nat {
    if bits == 0 then b else 2 * ShiftLeft(b, bits - 1)
  }

  lemma {:induction false} ShiftIsTimes(b: nat, bits: nat)
    ensures ShiftLeft(b, bits) == b * Pow2(bits)
  {
    if bits > 0 {
      ShiftIsTimes(b, bits - 1);
      TimesPow2(b, bits);
    }
  }

  lemma TimesPow2(b: nat, bits: nat)
    requires bits > 0
    ensures b * Pow2(bits) == 2 * (b * Pow2(bits - 1))
  {
  }

  // Numbers without bits in common: or-ing is adding.
  lemma {:induction false} OrAdds(v: nat, b: nat, bits: nat)
    requires v < Pow2(bits)
    ensures Or(v, ShiftLeft(b, bits)) == v + ShiftLeft(b, bits)
  {
    if bits == 0 {
      OrZero(b);
    } else {
      OrAdds(v / 2, b, bits - 1);
      OrUnfolds(v, ShiftLeft(b, bits - 1));
    }
  }

  lemma OrUnfolds(v: nat, half: nat)
    ensures Or(v, 2 * half) == 2 * Or(v / 2, half) + v % 2
  {
  }

  lemma {:induction false} BytesOfBits(n: nat)
    ensures Pow2(8 * n) == Pow256(n)
  {
    if n > 0 {
      BytesOfBits(n - 1);
      var m := 8 * (n - 1);
      assert Pow2(m + 2) == 4 * Pow2(m) && Pow2(m + 4) == 4 * Pow2(m + 2);
      assert Pow2(m + 6) == 4 * Pow2(m + 4) && Pow2(m + 8) == 4 * Pow2(m + 6);
    }
  }

  lemma OneMoreByte(p: seq<byte>, i: nat, v: nat)
    requires i < |p| && v == FromLE(p[..i]) && v < Pow256(i)
    ensures Or(v, ShiftLeft(p[i], 8 * i)) == FromLE(p[..i + 1])
    ensures FromLE(p[..i + 1]) < Pow256(i + 1)
  {
    hide Or, FromLE, Pow256, Pow2, ShiftLeft;
    BytesOfBits(i);
    ShiftIsTimes(p[i], 8 * i);
    OrAdds(v, p[i], 8 * i);
    FromLESnoc(p[..i], p[i]);
    assert p[..i + 1] == p[..i] + [p[i]];
    WriteRead(p[..i + 1]);
  }

  // Each byte is shifted into place and or-ed in.
  method ReadBytes(p: seq<byte>, n: nat) returns (v: nat)
    requires |p| >= n
    ensures v == FromLE(p[..n]) && v < Pow256(n)
  {
    v := 0;
    for i := 0 to n
      invariant v == FromLE(p[..i]) && v < Pow256(i)
    {
      OneMoreByte(p, i, v);
      v := Or(v, ShiftLeft(p[i], 8 * i));
    }
  }

  method ReadUint32(p: seq<byte>) returns (value: uint32)
    requires |p| >= 4
    ensures value == FromLE(p[..4])
  {
    PowersOf256();
    value := ReadBytes(p, 4);
  }

  lemma Assoc<T>(head: seq<T>, w: seq<T>, a: seq<T>, b: seq<T>)
    ensures head + w + a == head + (w + a)
    ensures head + w + a + b == head + (w + a + b)
  {
  }

  // ---------------------------------------------------------------- signed 32-bit values

  // static_cast between uint32_t and int keeps the bits.
  function ToInt32(v: uint32): int32 {
    if v < 0x8000_0000 then v else v - 0x1_0000_0000
  }

  function ToBits(v: int32): uint32 {
    if v >= 0 then v else v + 0x1_0000_0000
  }

  // ---------------------------------------------------------------- decimal numerals

  function Decimal(n: nat): (s: seq<byte>)
    ensures |s| > 0
  {
    if n < 10 then [48 + n] else Decimal(n / 10) + [48 + n % 10]
  }

  ghost function FromDecimal(s: seq<byte>): int {
    if s == [] then 0 else 10 * FromDecimal(s[..|s| - 1]) + s[|s| - 1] - 48
  }

  lemma {:induction false} DecimalRoundTrip(n: nat)
    ensures FromDecimal(Decimal(n)) == n
  {
    var s := Decimal(n);
    if n < 10 {
      assert s[..|s| - 1] == [];
    } else {
      DecimalRoundTrip(n / 10);
      assert s[..|s| - 1] == Decimal(n / 10);
    }
  }

  lemma DecimalInjective(m: nat, n: nat)
    requires Decimal(m) == Decimal(n)
    ensures m == n
  {
    DecimalRoundTrip(m);
    DecimalRoundTrip(n);
  }
}
