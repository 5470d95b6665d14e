/** The 64-bit FNV-1a hash of fingerprints (src/grouping/fingerprint.rs): no single-byte change of the
    hashed material can go unnoticed. */
module Fnv {

  type byte = b: nat | b < 256

  const TWO64: nat := 0x1_0000_0000_0000_0000
  const FNV_OFFSET: nat := 0xcbf2_9ce4_8422_2325
  const FNV_PRIME: nat := 0x0000_0100_0000_01b3

  /** The multiplicative inverse of the (odd) FNV prime modulo 2^64. */
  const FNV_PRIME_INVERSE: nat := 0xce96_5057_aff6_957b

  function Pow(base: nat, n: nat): nat {
    if n == 0 then 1 else base * Pow(base, n - 1)
  }

  /** Exclusive or of the low `bits` bits. */
  function Xor(a: nat, b: nat, bits: nat): (r: nat)
    ensures r < Pow(2, bits)
  {
    if bits == 0 then 0 else 2 * Xor(a / 2, b / 2, bits - 1) + (a + b) % 2
  }

  /** One byte of FNV-1a: xor, then a wrapping multiplication. */
  function Step(hash: nat, b: byte): (r: nat)
    ensures r < TWO64
  {
    Xor(hash, b, 64) * FNV_PRIME % TWO64
  }

  function Fold(hash: nat, input: seq<byte>): nat
    decreases |input|
  {
    if input == [] then hash else Fold(Step(hash, input[0]), input[1..])
  }

  function Digit(n: nat): char
    requires n < 16
  {
    "0123456789abcdef"[n]
  }

  /** The `digits` low hexadecimal digits, zero padded, most significant first. */
  function Hex(n: nat, digits: nat): (r: string)
    ensures |r| == digits
  {
    if digits == 0 then [] else Hex(n / 16, digits - 1) + [Digit(n % 16)]
  }

  function HashHex(input: seq<byte>): string {
    Hex(Fold(FNV_OFFSET, input), 16)
  }

  method ComputeHashHex(input: seq<byte>) returns (r: string)
    ensures r == HashHex(input) && |r| == 16
  {
    var hash: nat := FNV_OFFSET;
    var i := 0;
    while i < |input|
      invariant 0 <= i <= |input|
      invariant Fold(FNV_OFFSET, input) == Fold(hash, input[i..])
    {
      assert input[i..][1..] == input[i + 1..];
      hash := Xor(hash, input[i], 64);
      hash := hash * FNV_PRIME % TWO64;
      i := i + 1;
    }
    r := Hex(hash, 16);
  }

  // ---- each step is a bijection of the state, and injective in the byte ----

  lemma {:induction false} XorUndo(a: nat, b: nat, bits: nat)
    requires a < Pow(2, bits)
    ensures Xor(Xor(a, b, bits), b, bits) == a
  {
    if bits > 0 {
      var y, p := Xor(a / 2, b / 2, bits - 1), (a + b) % 2;
      assert Pow(2, bits) == 2 * Pow(2, bits - 1);
      XorUndo(a / 2, b / 2, bits - 1);
      Parity(y, a, b);
      assert Xor(2 * y + p, b, bits) == 2 * Xor(y, b / 2, bits - 1) + (2 * y + p + b) % 2;
    }
  }

  lemma Parity(y: nat, a: nat, b: nat)
    ensures var p := (a + b) % 2;
            (2 * y + p) / 2 == y && (2 * y + p + b) % 2 == a % 2
  {
  }

  lemma {:induction false} XorCommutes(a: nat, b: nat, bits: nat)
    ensures Xor(a, b, bits) == Xor(b, a, bits)
  {
    if bits > 0 {
      XorCommutes(a / 2, b / 2, bits - 1);
    }
  }

  lemma MulUndo(x: nat)
    requires x < TWO64
    ensures (x * FNV_PRIME % TWO64) * FNV_PRIME_INVERSE % TWO64 == x
  {
    var q, r := x * FNV_PRIME / TWO64, x * FNV_PRIME % TWO64;
    var t := FNV_PRIME * FNV_PRIME_INVERSE / TWO64;
    assert FNV_PRIME * FNV_PRIME_INVERSE == 1 + t * TWO64;
    assert x * FNV_PRIME == q * TWO64 + r;
    assert r * FNV_PRIME_INVERSE == x + TWO64 * (x * t - q * FNV_PRIME_INVERSE);
  }

  lemma {:induction false} PowAdd(base: nat, m: nat, n: nat)
    ensures Pow(base, m + n) == Pow(base, m) * Pow(base, n)
  {
    if m > 0 {
      PowAdd(base, m - 1, n);
      assert Pow(base, m + n) == base * (Pow(base, m - 1) * Pow(base, n));
    }
  }

  lemma PowersOfTwo()
    ensures Pow(2, 64) == TWO64 && Pow(16, 16) == TWO64 && Pow(2, 8) == 256
  {
    assert Pow(2, 2) == 4 && Pow(2, 4) == 16 by { PowAdd(2, 2, 2); }
    PowAdd(2, 4, 4);
    PowAdd(2, 8, 8);
    PowAdd(2, 16, 16);
    PowAdd(2, 32, 32);
    PowAdd(16, 1, 1);
    PowAdd(16, 2, 2);
    PowAdd(16, 4, 4);
    PowAdd(16, 8, 8);
  }

  lemma StepInjective(h: nat, b: byte, g: nat, c: byte)
    requires h < TWO64 && g < TWO64 && Step(h, b) == Step(g, c)
    ensures b == c ==> h == g
    ensures h == g ==> b == c
  {
    PowersOfTwo();
    MulUndo(Xor(h, b, 64));
    MulUndo(Xor(g, c, 64));
    XorUndo(h, b, 64);
    XorUndo(g, c, 64);
    XorCommutes(h, b, 64);
    XorCommutes(g, c, 64);
    XorUndo(b, h, 64);
    XorUndo(c, g, 64);
  }

  lemma {:induction false} FoldInjective(h: nat, g: nat, input: seq<byte>)
    requires h < TWO64 && g < TWO64 && Fold(h, input) == Fold(g, input)
    ensures h == g
    decreases |input|
  {
    if input != [] {
      FoldInjective(Step(h, input[0]), Step(g, input[0]), input[1..]);
      StepInjective(h, input[0], g, input[0]);
    }
  }

  lemma {:induction false} FoldConcat(h: nat, a: seq<byte>, b: seq<byte>)
    ensures Fold(h, a + b) == Fold(Fold(h, a), b)
    decreases |a|
  {
    if a == [] {
      assert a + b == b;
    } else {
      assert (a + b)[1..] == a[1..] + b;
      FoldConcat(Step(h, a[0]), a[1..], b);
    }
  }

  lemma {:induction false} FoldRange(h: nat, a: seq<byte>)
    requires h < TWO64
    ensures Fold(h, a) < TWO64
    decreases |a|
  {
    if a != [] {
      FoldRange(Step(h, a[0]), a[1..]);
    }
  }

  lemma DigitInjective(m: nat, n: nat)
    requires m < 16 && n < 16 && Digit(m) == Digit(n)
    ensures m == n
  {
  }

  lemma {:induction false} HexInjective(m: nat, n: nat, digits: nat)
    requires m < Pow(16, digits) && n < Pow(16, digits) && Hex(m, digits) == Hex(n, digits)
    ensures m == n
  {
    if digits > 0 {
      var a, b := Hex(m, digits), Hex(n, digits);
      assert a[..digits - 1] == Hex(m / 16, digits - 1) && b[..digits - 1] == Hex(n / 16, digits - 1);
      assert a[digits - 1] == Digit(m % 16) && b[digits - 1] == Digit(n % 16);
      assert Pow(16, digits) == 16 * Pow(16, digits - 1);
      HexInjective(m / 16, n / 16, digits - 1);
      DigitInjective(m % 16, n % 16);
    }
  }

  /** Two inputs of equal length that differ in exactly one byte have different fingerprints. */
  lemma SingleByteChange(input: seq<byte>, k: nat, b: byte)
    requires k < |input| && b != input[k]
    ensures HashHex(input[k := b]) != HashHex(input)
  {
    var pre, post := input[..k], input[k + 1..];
    assert input == pre + ([input[k]] + post) && input[k := b] == pre + ([b] + post);
    var h := Fold(FNV_OFFSET, pre);
    FoldConcat(FNV_OFFSET, pre, [input[k]] + post);
    FoldConcat(FNV_OFFSET, pre, [b] + post);
    FoldRange(FNV_OFFSET, pre);
    OneStep(h, input[k], post);
    OneStep(h, b, post);
    FoldRange(Step(h, input[k]), post);
    FoldRange(Step(h, b), post);
    PowersOfTwo();
    if HashHex(input[k := b]) == HashHex(input) {
      HexInjective(Fold(FNV_OFFSET, input), Fold(FNV_OFFSET, input[k := b]), 16);
      FoldInjective(Step(h, input[k]), Step(h, b), post);
      StepInjective(h, input[k], h, b);
    }
  }

  lemma OneStep(h: nat, b: byte, post: seq<byte>)
    ensures Fold(h, [b] + post) == Fold(Step(h, b), post)
  {
    assert ([b] + post)[1..] == post;
  }

  // ---- test values of the reference implementation ----

  lemma {:induction false} XorZero(a: nat, bits: nat)
    requires a < Pow(2, bits)
    ensures Xor(a, 0, bits) == a
  {
    if bits > 0 {
      assert Pow(2, bits) == 2 * Pow(2, bits - 1);
      XorZero(a / 2, bits - 1);
    }
  }

  lemma XorBit(a: nat, b: nat, x: nat, y: nat, bits: nat)
    requires x < 2 && y < 2
    ensures Xor(2 * a + x, 2 * b + y, bits + 1) == 2 * Xor(a, b, bits) + (x + y) % 2
  {
    assert (2 * a + x) / 2 == a && (2 * b + y) / 2 == b && (2 * a + x + (2 * b + y)) % 2 == (x + y) % 2;
  }

  lemma XorTwoBits(a: nat, b: nat, u: nat, v: nat, x: nat, y: nat, bits: nat)
    requires u < 2 && v < 2 && x < 2 && y < 2
    ensures Xor(4 * a + 2 * u + x, 4 * b + 2 * v + y, bits + 2) == 4 * Xor(a, b, bits) + 2 * ((u + v) % 2) + (x + y) % 2
  {
    var c, d := 2 * a + u, 2 * b + v;
    XorBit(a, b, u, v, bits);
    XorBit(c, d, x, y, bits + 1);
    assert 2 * c + x == 4 * a + 2 * u + x && 2 * d + y == 4 * b + 2 * v + y;
  }

  lemma XorNibble(a: nat, b: nat, x: nat, y: nat, bits: nat)
    requires x < 4 && y < 4 && x / 2 + y / 2 <= 1 && x % 2 + y % 2 <= 1
    ensures Xor(4 * a + x, 4 * b + y, bits + 2) == 4 * Xor(a, b, bits) + x + y
  {
    XorTwoBits(a, b, x / 2, y / 2, x % 2, y % 2, bits);
    assert 2 * (x / 2) + x % 2 == x && 2 * (y / 2) + y % 2 == y;
    assert 4 * a + 2 * (x / 2) + x % 2 == 4 * a + x && 4 * b + 2 * (y / 2) + y % 2 == 4 * b + y;
  }

  lemma XorHigh(q: nat, bits: nat)
    requires q < Pow(2, bits)
    ensures Xor(16 * q + 2, 6, bits + 4) == 16 * q + 4
  {
    XorZero(q, bits);
    var a := 4 * q;
    XorNibble(q, 0, 0, 1, bits);
    XorTwoBits(a, 1, 1, 1, 0, 0, bits + 2);
  }

  /** The letter "a" meets the low byte of the state only. */
  lemma XorOfLetter(q: nat, bits: nat)
    requires q < Pow(2, bits)
    ensures Xor(256 * q + 0x25, 97, bits + 8) == 256 * q + 0x44
  {
    XorHigh(q, bits);
    var a := 16 * q + 2;
    XorNibble(a, 6, 1, 0, bits + 4);
    var c := 4 * a + 1;
    XorTwoBits(c, 24, 0, 0, 1, 1, bits + 6);
  }

  lemma XorOfOffset(q: nat, bits: nat)
    requires q == 0xcb_f29c_e484_2223 && bits == 56
    ensures Xor(FNV_OFFSET, 97, bits + 8) == 0xcbf2_9ce4_8422_2344
  {
    PowersOfTwo();
    PowAdd(2, bits, 8);
    XorOfLetter(q, bits);
  }

  lemma StepOfOffset()
    ensures Step(FNV_OFFSET, 97) == 0xaf63_dc4c_8601_ec8c
  {
    XorOfOffset(0xcb_f29c_e484_2223, 56);
    assert 0xcbf29ce484222344 * 0x100_0000_01b3 == 0xcbf29ce5de * 0x1_0000_0000_0000_0000 + 0xaf63_dc4c_8601_ec8c;
  }

  /** The published hash values of the empty string and of "a". */
  lemma ReferenceValues()
    ensures Fold(FNV_OFFSET, []) == 0xcbf2_9ce4_8422_2325
    ensures Fold(FNV_OFFSET, [97]) == 0xaf63_dc4c_8601_ec8c
  {
    StepOfOffset();
    OneStep(FNV_OFFSET, 97, []);
    assert [97] + [] == [97];
  }

  /** What a hexadecimal digit is worth. */
  function Worth(c: char): nat {
    if '0' <= c <= '9' then c as nat - '0' as nat else if 'a' <= c <= 'f' then c as nat - 'a' as nat + 10 else 0
  }

  function Value(s: string): nat { if s == [] then 0 else 16 * Value(s[..|s| - 1]) + Worth(s[|s| - 1]) }

  /** The printed form reads back as the number. */
  lemma {:induction false} HexReadsBack(n: nat, digits: nat)
    requires n < Pow(16, digits)
    ensures Value(Hex(n, digits)) == n
  {
    if digits > 0 {
      assert Pow(16, digits) == 16 * Pow(16, digits - 1);
      HexReadsBack(n / 16, digits - 1);
      var s := Hex(n, digits);
      assert s[..digits - 1] == Hex(n / 16, digits - 1) && s[digits - 1] == Digit(n % 16);
      DigitWorth(n % 16);
    }
  }

  lemma DigitWorth(n: nat)
    requires n < 16
    ensures Worth(Digit(n)) == n
  {
  }
}
