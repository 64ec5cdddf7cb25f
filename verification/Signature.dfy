/** Compact signatures (section "Specification" of EIP-2098). */
module Signature {

  import opened Hex
  import opened Outcome

  const S_MAX: nat := 0x7FFF_FFFF_FFFF_FFFF_FFFF_FFFF_FFFF_FFFF_5D57_6E73_57A4_501D_DFE9_2F46_681B_20A0

  /** `2^255`, the bit of the packed word that carries the parity. */
  const PARITY_BIT: nat := 0x8000_0000_0000_0000_0000_0000_0000_0000_0000_0000_0000_0000_0000_0000_0000_0000

  const V27: HexString := [1, 11]
  const V28: HexString := [1, 12]

  /** Bitwise `d | 8` on one digit. */
  function SetTopBit(d: Digit): Digit {
    if d >= 8 then d else d + 8
  }

  /** `packSignature` on a signature without `0x`. */
  function Pack(signature: HexString): Result<HexString> {
    if |signature| > 128 then
      var v := Slice(signature, 128, 130);
      if v == V28 then Ok(signature[..64] + [SetTopBit(signature[64])] + signature[65..128])
      else if v != V27 then Err("invalid signature: v should be 27 or 28")
      else Ok(signature[..128])
    else if |signature| < 128 then Err("invalid signature: it should consist at least 64 bytes (128 chars)")
    else Ok(signature)
  }

  /** How `toBN` reads digits without `0x`: the standard asks for hexadecimal;
      web3 takes a string that has decimal digits only for a decimal number. */
  datatype Reading = Hexadecimal | Guessed

  predicate DecimalDigits(h: HexString) {
    forall d | d in h :: d < 10
  }

  function DecimalValue(h: HexString): nat {
    if |h| == 0 then 0 else 10 * DecimalValue(h[..|h| - 1]) + h[|h| - 1]
  }

  function Read(reading: Reading, h: HexString): nat {
    if reading == Guessed && DecimalDigits(h) then DecimalValue(h) else Value(h)
  }

  /** `unpackSignature`; the result is without `0x`. */
  function Unpack(reading: Reading, packed: HexString): Result<HexString> {
    if |packed| == 130 then Ok(packed)
    else if |packed| != 128 then Err("Invalid packed signature length")
    else
      var vs := Read(reading, packed[64..]);
      var v := NumToHex(27 + vs / PARITY_BIT, 2);
      var s := vs % PARITY_BIT;
      if s > S_MAX then Err("Invalid signature 's' value")
      else
        var sig := packed[..64] + NumToHex(s, WORD) + v;
        if |sig| != 130 then Err("Invalid resulting signature length") else Ok(sig)
  }

  /** A full signature `r ++ s ++ v`. */
  function Full(r: HexString, s: nat, parity: nat): HexString
    requires parity < 2
  {
    r + NumToHex(s, WORD) + (if parity == 1 then V28 else V27)
  }

  lemma VDigits(parity: nat)
    requires parity < 2
    ensures NumToHex(27 + parity, 2) == if parity == 1 then V28 else V27
  {
    var h := if parity == 1 then V28 else V27;
    assert h[..1] == [1];
    SingleDigit(1);
    assert Value(h) == 27 + parity;
    assert Pow16(2) == 16 * Pow16(1) && Pow16(1) == 16 * Pow16(0);
    NumToHexFits(27 + parity, 2);
    ValueInjective(NumToHex(27 + parity, 2), h);
  }

  lemma TopDigitSum(h: HexString, d: Digit)
    requires |h| >= 1
    ensures Value([d] + h[1..]) == Value(h) + (d - h[0]) * Pow16(|h| - 1)
  {
    hide Value, Pow16;
    var p := Pow16(|h| - 1);
    assert h == [h[0]] + h[1..];
    ValueConcat([h[0]], h[1..]);
    ValueConcat([d], h[1..]);
    SingleDigit(h[0]);
    SingleDigit(d);
    hide *;
    TopDigitMoves(Value(h), Value([d] + h[1..]), h[0], d, p, Value(h[1..]));
  }

  lemma TopDigitMoves(v: nat, v': nat, a: int, b: int, p: int, rest: int)
    requires v == a * p + rest && v' == b * p + rest
    ensures v' == v + (b - a) * p
  {
  }

  /** The packed word of a signature is `parity * 2^255 + s`. */
  lemma PackFull(r: HexString, s: nat, parity: nat)
    requires |r| == WORD && s < PARITY_BIT && parity < 2
    ensures var p := Pack(Full(r, s, parity));
            p.Ok? && |p.value| == 128 && p.value[..64] == r
            && Value(p.value[64..]) == parity * PARITY_BIT + s
  {
    hide Value, Pow16, NumToHex;
    ParityBitValue();
    NumToHexFits(s, WORD);
    var h := NumToHex(s, WORD);
    var sig := Full(r, s, parity);
    assert sig[..64] == r && sig[64] == h[0] && sig[65..128] == h[1..] && sig[64..128] == h;
    assert Slice(sig, 128, 130) == sig[128..130] == if parity == 1 then V28 else V27;
    var packed := Pack(sig).value;
    assert packed[..64] == r;
    if parity == 1 {
      assert packed[64..] == [SetTopBit(h[0])] + h[1..];
      TopDigit(h);
      TopDigitSum(h, SetTopBit(h[0]));
    } else {
      assert packed[64..] == h;
    }
  }

  /** Unpacking a word that is read as `parity * 2^255 + s`. */
  lemma UnpackWord(reading: Reading, packed: HexString, s: nat, parity: nat)
    requires |packed| == 128 && s < PARITY_BIT && parity < 2
    requires Read(reading, packed[64..]) == parity * PARITY_BIT + s
    ensures Unpack(reading, packed)
         == if s > S_MAX then Err("Invalid signature 's' value") else Ok(Full(packed[..64], s, parity))
  {
    hide Value, Pow16, NumToHex, DecimalValue, DecimalDigits;
    DivMod(parity, s, PARITY_BIT);
    VDigits(parity);
    ParityBitValue();
    NumToHexFits(s, WORD);
  }

  lemma DivMod(q: nat, r: nat, d: nat)
    requires r < d && q < 2
    ensures (q * d + r) / d == q && (q * d + r) % d == r
  {
  }

  /** Packing and unpacking undo each other for every `r`, `s <= S_MAX` and
      `v` in {27, 28}, the packed word being hexadecimal. */
  lemma UnpackPack(r: HexString, s: nat, parity: nat)
    requires |r| == WORD && s <= S_MAX && parity < 2
    ensures Pack(Full(r, s, parity)).Ok?
    ensures Unpack(Hexadecimal, Pack(Full(r, s, parity)).value) == Ok(Full(r, s, parity))
  {
    PackFull(r, s, parity);
    UnpackWord(Hexadecimal, Pack(Full(r, s, parity)).value, s, parity);
  }

  /** An accepted 128-digit value is returned digit by digit. */
  lemma PackUnpack(packed: HexString)
    requires |packed| == 128 && Unpack(Hexadecimal, packed).Ok?
    ensures Pack(Unpack(Hexadecimal, packed).value) == Ok(packed)
  {
    hide Pow16, NumToHex, DecimalValue, DecimalDigits;
    ParityBitValue();
    var word := Value(packed[64..]);
    var parity, s := word / PARITY_BIT, word % PARITY_BIT;
    assert parity * PARITY_BIT + s == word;
    UnpackWord(Hexadecimal, packed, s, parity);
    PackFull(packed[..64], s, parity);
    var again := Pack(Full(packed[..64], s, parity)).value;
    ValueInjective(again[64..], packed[64..]);
    assert packed == packed[..64] + packed[64..];
    assert again == again[..64] + again[64..];
  }

  /** With the reading the code uses, the round trip holds exactly when the
      packed word shows a letter or is a single digit. */
  lemma GuessedRoundTrip(r: HexString, s: nat, parity: nat)
    requires |r| == WORD && s <= S_MAX && parity < 2
    ensures Pack(Full(r, s, parity)).Ok?
    ensures var packed := Pack(Full(r, s, parity)).value;
            Unpack(Guessed, packed) == Ok(Full(r, s, parity))
            <==> !DecimalDigits(packed[64..]) || Value(packed[64..]) < 10
  {
    PackFull(r, s, parity);
    var packed := Pack(Full(r, s, parity)).value;
    var word := packed[64..];
    ParityBitValue();
    DecimalBelow(word);
    var n := Read(Guessed, word);
    var parity', s' := n / PARITY_BIT, n % PARITY_BIT;
    assert parity' * PARITY_BIT + s' == n;
    UnpackWord(Guessed, packed, s', parity');
    if Unpack(Guessed, packed) == Ok(Full(r, s, parity)) {
      FullInjective(r, s, parity, s', parity');
    }
  }

  /** A signature that is lost: the digits `...010` are read as ten. */
  lemma GuessedLoses(r: HexString)
    requires |r| == WORD
    ensures var packed := Pack(Full(r, 16, 0));
            packed.Ok? && Unpack(Guessed, packed.value) != Ok(Full(r, 16, 0))
  {
    hide Pow16, DecimalValue, Full, Unpack;
    GuessedRoundTrip(r, 16, 0);
    PackFull(r, 16, 0);
    var word := Pack(Full(r, 16, 0)).value[64..];
    var digits := Zeros(62) + [1, 0];
    assert |digits| == 64 && DecimalDigits(digits);
    assert digits[..63] == Zeros(62) + [1] && digits[..63][..62] == Zeros(62);
    ZerosValue(62);
    assert Value(digits) == 16;
    ValueInjective(word, digits);
  }

  lemma ParityBitValue()
    ensures Pow16(63) * 8 == PARITY_BIT && Pow16(64) == 2 * PARITY_BIT
  {
    assert Pow16(0) == 1 && Pow16(1) == 16 * Pow16(0);
    Pow16Double(1, 0x0010);
    Pow16Double(3, 0x1000);
    Pow16Double(7, 0x1000_0000);
    Pow16Double(15, 0x1000_0000_0000_0000);
    Pow16Double(31, 0x1000_0000_0000_0000_0000_0000_0000_0000);
    assert Pow16(64) == 16 * Pow16(63);
  }

  lemma Pow16Double(k: nat, p: nat)
    requires Pow16(k) == p
    ensures Pow16(2 * k + 1) == 16 * (p * p)
  {
    Pow16Add(k, k);
  }

  lemma FullInjective(r: HexString, s: nat, parity: nat, s': nat, parity': nat)
    requires s < PARITY_BIT && s' < PARITY_BIT && parity < 2 && parity' < 2
    requires Full(r, s, parity) == Full(r, s', parity')
    ensures s == s' && parity == parity'
  {
    ParityBitValue();
    NumToHexFits(s, WORD);
    NumToHexFits(s', WORD);
    var a, b := Full(r, s, parity), Full(r, s', parity');
    assert a[|r|..|r| + 64] == NumToHex(s, WORD) && b[|r|..|r| + 64] == NumToHex(s', WORD);
    assert a[|r| + 65] == if parity == 1 then 12 else 11;
    assert b[|r| + 65] == if parity' == 1 then 12 else 11;
  }

  /** The decimal reading never exceeds the hexadecimal one, and they agree only
      on a single significant digit. */
  lemma {:induction false} DecimalBelow(h: HexString)
    ensures DecimalValue(h) <= Value(h)
    ensures DecimalDigits(h) && |h| >= 1 ==> (DecimalValue(h) == Value(h) <==> Value(h) < 10)
  {
    if |h| > 0 {
      assert forall d | d in h[..|h| - 1] :: d in h;
      assert h[|h| - 1] in h;
      DecimalBelow(h[..|h| - 1]);
    }
  }

  /** What packing makes of any string of digits: 128 digits pass as they are, fewer are
      refused, and of more the two digits after them decide: `1b` drops the rest, `1c`
      also sets the top bit of the second word, anything else is refused. */
  lemma PackCases(signature: HexString)
    ensures |signature| == 128 ==> Pack(signature) == Ok(signature)
    ensures |signature| < 128 || |signature| == 129 ==> Pack(signature).Err?
    ensures |signature| >= 130 ==>
              var v, r := signature[128..130], Pack(signature);
              && (v == [1, 11] ==> r == Ok(signature[..128]))
              && (v == [1, 12] ==>
                    && r.Ok? && |r.value| == 128 && r.value[..64] == signature[..64]
                    && r.value[65..] == signature[65..128]
                    && r.value[64] >= 8 && r.value[64] % 8 == signature[64] % 8)
              && (v != [1, 11] && v != [1, 12] ==> r.Err?)
  {
    if |signature| >= 130 {
      assert Slice(signature, 128, 130) == signature[128..130];
    }
    if |signature| == 129 {
      assert |Slice(signature, 128, 130)| == 1;
    }
  }

  /** Unpacking passes 130 digits as they are and refuses every other length but 128. */
  lemma UnpackCases(reading: Reading, packed: HexString)
    ensures |packed| == 130 ==> Unpack(reading, packed) == Ok(packed)
    ensures |packed| != 130 && |packed| != 128 ==> Unpack(reading, packed).Err?
  {
  }
}
