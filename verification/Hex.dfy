/** Hexadecimal strings as the services handle them: sequences of digits,
    without the `0x` prefix. */
module Hex {

  type Digit = n: int | 0 <= n < 16
  type HexString = seq<Digit>

  /** Number of digits of a 256-bit word, the default `pad` of `numToHex`. */
  const WORD: nat := 64

  function Pow16(k: nat): (r: nat)
    ensures r >= 1
  {
    if k == 0 then 1 else 16 * Pow16(k - 1)
  }

  /** The number a string of hexadecimal digits denotes. */
  function Value(h: HexString): (v: nat)
    ensures v < Pow16(|h|)
  {
    if |h| == 0 then 0 else 16 * Value(h[..|h| - 1]) + h[|h| - 1]
  }

  /** The shortest digits of a number, as `BN.toString('hex')` prints them. */
  function Digits(n: nat): (h: HexString)
    ensures |h| >= 1
  {
    if n < 16 then [n] else Digits(n / 16) + [n % 16]
  }

  function Zeros(n: nat): (h: HexString)
    ensures |h| == n
  {
    seq(n, i => 0)
  }

  function PadLeft(h: HexString, pad: nat): (r: HexString)
    ensures |r| == if |h| < pad then pad else |h|
  {
    if |h| < pad then Zeros(pad - |h|) + h else h
  }

  /** `numToHex`: two's complement for negative numbers. An overflow is only
      logged by the source, so the result may be longer than `pad`. */
  function NumToHex(num: int, pad: nat): HexString
    requires 0 <= num + Pow16(pad)
  {
    PadLeft(Digits(if num < 0 then Pow16(pad) + num else num), pad)
  }

  /** `String.slice(start)`, which accepts a start past the end. */
  function From(h: HexString, start: nat): HexString {
    if start <= |h| then h[start..] else []
  }

  /** `String.slice(start, end)` for `start <= end`. */
  function Slice(h: HexString, start: nat, end: nat): HexString
    requires start <= end
  {
    From(if end <= |h| then h[..end] else h, start)
  }

  /** `Buffer.from(h, 'hex')` drops a last unpaired digit. */
  function Buffered(h: HexString): HexString {
    h[..|h| - |h| % 2]
  }

  /** Reads a string of digits as a two's complement number. */
  function SignedValue(h: HexString): int
    requires |h| > 0
  {
    if h[0] >= 8 then Value(h) - Pow16(|h|) else Value(h)
  }

  lemma {:induction false} Pow16Add(a: nat, b: nat)
    ensures Pow16(a + b) == Pow16(a) * Pow16(b)
  {
    if b > 0 {
      Pow16Add(a, b - 1);
      assert a + b - 1 == a + (b - 1);
      assert Pow16(a) * (16 * Pow16(b - 1)) == 16 * (Pow16(a) * Pow16(b - 1));
    }
  }

  lemma {:induction false} Pow16Monotone(a: nat, b: nat)
    requires a <= b
    ensures Pow16(a) <= Pow16(b)
  {
    if a < b {
      Pow16Monotone(a, b - 1);
    }
  }

  lemma ShiftOne(v: nat, p: nat, w: nat, d: nat)
    ensures 16 * (v * p + w) + d == v * (16 * p) + (16 * w + d)
  {
  }

  lemma {:induction false} ValueConcat(a: HexString, b: HexString)
    ensures Value(a + b) == Value(a) * Pow16(|b|) + Value(b)
  {
    if |b| == 0 {
      assert a + b == a;
      assert Value(a) * 1 == Value(a);
    } else {
      var b', d := b[..|b| - 1], b[|b| - 1];
      assert (a + b)[..|a + b| - 1] == a + b';
      assert Value(a + b) == 16 * Value(a + b') + d;
      ValueConcat(a, b');
      ShiftOne(Value(a), Pow16(|b'|), Value(b'), d);
    }
  }

  lemma {:induction false} ZerosValue(n: nat)
    ensures Value(Zeros(n)) == 0
  {
    if n > 0 {
      assert Zeros(n)[..n - 1] == Zeros(n - 1);
      ZerosValue(n - 1);
    }
  }

  /** Two strings of one length that denote one number are the same string. */
  lemma {:induction false} ValueInjective(a: HexString, b: HexString)
    requires |a| == |b| && Value(a) == Value(b)
    ensures a == b
  {
    if |a| > 0 {
      ValueInjective(a[..|a| - 1], b[..|b| - 1]);
      assert a == a[..|a| - 1] + [a[|a| - 1]];
      assert b == b[..|b| - 1] + [b[|b| - 1]];
    }
  }

  lemma {:induction false} DigitsFit(n: nat, pad: nat)
    requires pad >= 1
    ensures Value(Digits(n)) == n
    ensures |Digits(n)| <= pad <==> n < Pow16(pad)
  {
    if n < 16 {
      SingleDigit(n);
      Pow16Monotone(1, pad);
      assert Pow16(1) == 16 * Pow16(0);
    } else {
      var h := Digits(n / 16);
      assert (h + [n % 16])[..|h|] == h;
      if pad == 1 {
        DigitsFit(n / 16, 1);
        assert Pow16(1) == 16 * Pow16(0);
      } else {
        DigitsFit(n / 16, pad - 1);
        assert n / 16 < Pow16(pad - 1) <==> n < 16 * Pow16(pad - 1);
      }
    }
  }

  /** `numToHex` prints exactly `pad` digits precisely when the number fits,
      and then the digits denote the number modulo `16^pad`. */
  lemma NumToHexFits(num: int, pad: nat)
    requires pad >= 1 && 0 <= num + Pow16(pad)
    ensures |NumToHex(num, pad)| == pad <==> num < Pow16(pad)
    ensures num < Pow16(pad) ==> Value(NumToHex(num, pad)) == if num < 0 then num + Pow16(pad) else num
  {
    var n := if num < 0 then Pow16(pad) + num else num;
    DigitsFit(n, pad);
    PadLeftValue(Digits(n), pad);
  }

  lemma PadLeftValue(h: HexString, pad: nat)
    ensures Value(PadLeft(h, pad)) == Value(h)
  {
    if |h| < pad {
      ZerosValue(pad - |h|);
      ValueConcat(Zeros(pad - |h|), h);
      assert 0 * Pow16(|h|) == 0;
    }
  }

  /** Reading the digits back as a two's complement number returns the number
      precisely on the two's complement range of `pad` digits. */
  lemma NumToHexRoundTrip(num: int, pad: nat)
    requires pad >= 1 && 0 <= num + Pow16(pad) && num < Pow16(pad)
    ensures |NumToHex(num, pad)| == pad
    ensures SignedValue(NumToHex(num, pad)) == num <==> 0 <= 2 * num + Pow16(pad) && 2 * num < Pow16(pad)
  {
    NumToHexFits(num, pad);
    var h := NumToHex(num, pad);
    TopDigit(h);
  }

  /** The first digit is at least 8 exactly in the upper half of the range. */
  lemma TopDigit(h: HexString)
    requires |h| >= 1
    ensures h[0] >= 8 <==> 2 * Value(h) >= Pow16(|h|)
  {
    var rest := h[1..];
    var p := Pow16(|rest|);
    assert h == [h[0]] + rest;
    ValueConcat([h[0]], rest);
    SingleDigit(h[0]);
    assert Value(h) == h[0] * p + Value(rest);
    assert Pow16(|h|) == 16 * p;
    if h[0] >= 8 {
      AtLeast(h[0], 8, p);
    } else {
      AtLeast(7, h[0], p);
    }
  }

  lemma SingleDigit(d: Digit)
    ensures Value([d]) == d
  {
  }

  lemma AtLeast(a: nat, b: nat, p: nat)
    requires a >= b
    ensures a * p >= b * p
  {
  }
}
