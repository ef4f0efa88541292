/** UTF-8 as the line editor reads and writes it. */
module Utf8 {
  import opened Text

  predicate Continues(b: Byte) {
    0x80 <= b < 0xc0
  }

  /** A code point that fits in 21 bits, and is not the end of a string. */
  predicate Valid(c: Code) {
    0 < c < 0x20_0000
  }

  /** utf8_fromunicode: what does not fit in 21 bits is cut off. */
  function Encode(c: Code): seq<Byte> {
    if c <= 0x7f then [c]
    else if c <= 0x7ff then [0xc0 + c / 64, 0x80 + c % 64]
    else if c <= 0xffff then [0xe0 + c / 4096, 0x80 + c / 64 % 64, 0x80 + c % 64]
    else [0xf0 + c / 262144 % 8, 0x80 + c / 4096 % 64, 0x80 + c / 64 % 64, 0x80 + c % 64]
  }

  /** utf8_tounicode: the code point at `i`, and the number of its bytes; a byte that fits nowhere is itself. */
  function Decode(s: seq<Byte>, i: nat): (nat, nat) {
    DecodeBytes(At(s, i), At(s, i + 1), At(s, i + 2), At(s, i + 3))
  }

  function DecodeBytes(b0: Byte, b1: Byte, b2: Byte, b3: Byte): (nat, nat) {
    if b0 < 0xc0 then (b0, 1)
    else if b0 < 0xe0 then
      var c := (b0 - 0xc0) * 64 + (b1 % 128);
      if Continues(b1) && c >= 0x80 then (c, 2) else (b0, 1)
    else if b0 < 0xf0 then
      var c := (b0 - 0xe0) * 4096 + (b1 % 128) * 64 + (b2 % 128);
      if Continues(b1) && Continues(b2) && c >= 0x800 then (c, 3) else (b0, 1)
    else if b0 < 0xf8 then
      var c := (b0 - 0xf0) * 262144 + (b1 % 128) * 4096 + (b2 % 128) * 64 + (b3 % 128);
      if Continues(b1) && Continues(b2) && Continues(b3) && c >= 0x10000 then (c, 4) else (b0, 1)
    else (b0, 1)
  }

  lemma {:induction false} Digits(q: nat, d: nat)
    requires d < 64
    ensures (q * 64 + d) / 64 == q && (q * 64 + d) % 64 == d
  {
  }

  lemma {:induction false} DivideAgain(c: nat)
    ensures c / 4096 == c / 64 / 64 && c / 262144 == c / 64 / 64 / 64
  {
  }

  /** The four digits of `c` to the base 64. */
  lemma {:induction false} FourParts(c: nat, m: nat, n: nat, t: nat, r: nat, q: nat, d: nat)
    requires c == m * 64 + d && m == n * 64 + q && n == t * 64 + r && r < 64 && q < 64 && d < 64
    ensures c % 64 == d && c / 64 == m && m % 64 == q && c / 4096 == n && n % 64 == r && c / 262144 == t
  {
    Digits(m, d);
    Digits(n, q);
    Digits(t, r);
    DivideAgain(c);
  }

  lemma {:induction false} TwoBytes(c: Code, b2: Byte, b3: Byte)
    requires 0x7f < c <= 0x7ff
    ensures DecodeBytes(0xc0 + c / 64, 0x80 + c % 64, b2, b3) == (c, 2)
  {
  }

  lemma {:induction false} ThreeBytes(c: Code, b3: Byte)
    requires 0x7ff < c <= 0xffff
    ensures DecodeBytes(0xe0 + c / 4096, 0x80 + c / 64 % 64, 0x80 + c % 64, b3) == (c, 3)
  {
    var q := c / 64;
    DivideAgain(c);
    ThreeDigits(q / 64, q % 64, c % 64, b3);
  }

  lemma {:induction false} ThreeDigits(r: nat, q: nat, d: nat, b3: Byte)
    requires r < 16 && q < 64 && d < 64 && r * 4096 + q * 64 + d >= 0x800
    ensures DecodeBytes(0xe0 + r, 0x80 + q, 0x80 + d, b3) == (r * 4096 + q * 64 + d, 3)
  {
  }

  lemma {:induction false} FourBytes(c: Code)
    requires 0xffff < c && Valid(c)
    ensures DecodeBytes(0xf0 + c / 262144 % 8, 0x80 + c / 4096 % 64, 0x80 + c / 64 % 64, 0x80 + c % 64) == (c, 4)
  {
    var q := c / 64;
    var r := q / 64;
    DivideAgain(c);
    FourDigits(r / 64, r % 64, q % 64, c % 64);
  }

  lemma {:induction false} FourDigits(t: nat, r: nat, q: nat, d: nat)
    requires t < 8 && r < 64 && q < 64 && d < 64 && t * 262144 + r * 4096 + q * 64 + d >= 0x10000
    ensures DecodeBytes(0xf0 + t, 0x80 + r, 0x80 + q, 0x80 + d) == (t * 262144 + r * 4096 + q * 64 + d, 4)
  {
  }

  /** Decoding undoes encoding, wherever the bytes stand. */
  lemma {:induction false} DecodeEncode(s: seq<Byte>, i: nat, c: Code)
    requires StandsAt(s, i, Encode(c)) && Valid(c)
    ensures Decode(s, i) == (c, |Encode(c)|)
  {
    assert At(s, i) == s[i];
    if 0xffff < c {
      FourBytes(c);
    } else if 0x7ff < c {
      ThreeBytes(c, At(s, i + 3));
    } else if 0x7f < c {
      TwoBytes(c, At(s, i + 2), At(s, i + 3));
    }
  }

  lemma {:induction false} NoNul(c: Code)
    requires Valid(c)
    ensures 1 <= |Encode(c)| <= 4 && forall i | 0 <= i < |Encode(c)| :: Encode(c)[i] != 0
  {
  }

  lemma {:induction false} TwoBack(b0: Byte, b1: Byte, b2: Byte, b3: Byte)
    requires 0xc0 <= b0 < 0xe0 && DecodeBytes(b0, b1, b2, b3).1 == 2
    ensures Encode(DecodeBytes(b0, b1, b2, b3).0) == [b0, b1]
  {
    Digits(b0 - 0xc0, b1 - 0x80);
  }

  lemma {:induction false} Low(b: Byte)
    requires Continues(b)
    ensures b % 128 == b - 0x80 < 64
  {
  }

  lemma {:induction false} ThreeBack(b0: Byte, b1: Byte, b2: Byte, b3: Byte)
    requires 0xe0 <= b0 < 0xf0 && DecodeBytes(b0, b1, b2, b3).1 == 3
    ensures Encode(DecodeBytes(b0, b1, b2, b3).0) == [b0, b1, b2]
  {
    hide Encode;
    Low(b1);
    Low(b2);
    EncodeThree(b0 - 0xe0, b1 - 0x80, b2 - 0x80);
  }

  lemma {:induction false} EncodeThree(r: nat, q: nat, d: nat)
    requires r < 16 && q < 64 && d < 64 && r * 4096 + q * 64 + d >= 0x800
    ensures Encode(r * 4096 + q * 64 + d) == [0xe0 + r, 0x80 + q, 0x80 + d]
  {
    FourParts(r * 4096 + q * 64 + d, r * 64 + q, r, 0, r, q, d);
  }

  lemma {:induction false} FourBack(b0: Byte, b1: Byte, b2: Byte, b3: Byte)
    requires 0xf0 <= b0 < 0xf8 && DecodeBytes(b0, b1, b2, b3).1 == 4
    ensures Encode(DecodeBytes(b0, b1, b2, b3).0) == [b0, b1, b2, b3]
  {
    hide Encode;
    Low(b1);
    Low(b2);
    Low(b3);
    EncodeFour(b0 - 0xf0, b1 - 0x80, b2 - 0x80, b3 - 0x80);
  }

  lemma {:induction false} EncodeFour(t: nat, r: nat, q: nat, d: nat)
    requires t < 8 && r < 64 && q < 64 && d < 64 && t * 262144 + r * 4096 + q * 64 + d >= 0x10000
    ensures Encode(t * 262144 + r * 4096 + q * 64 + d) == [0xf0 + t, 0x80 + r, 0x80 + q, 0x80 + d]
  {
    FourParts(t * 262144 + r * 4096 + q * 64 + d, (t * 64 + r) * 64 + q, t * 64 + r, t, r, q, d);
  }

  /** More than one byte is taken only where they are what the encoder writes: no longer form is accepted. */
  lemma {:induction false} EncodeDecode(s: seq<Byte>, i: nat)
    requires Decode(s, i).1 > 1
    ensures StandsAt(s, i, Encode(Decode(s, i).0)) && |Encode(Decode(s, i).0)| == Decode(s, i).1
  {
    var b0, b1, b2, b3 := At(s, i), At(s, i + 1), At(s, i + 2), At(s, i + 3);
    if b0 < 0xe0 {
      TwoBack(b0, b1, b2, b3);
    } else if b0 < 0xf0 {
      ThreeBack(b0, b1, b2, b3);
    } else {
      FourBack(b0, b1, b2, b3);
    }
  }

  /** A first byte is never one that goes on, so that the beginning of a character can be found from anywhere. */
  lemma {:induction false} BytesLook(c: Code)
    requires Valid(c)
    ensures c < 0x80 ==> Encode(c) == [c]
    ensures c >= 0x80 ==> Encode(c)[0] >= 0xc2 && forall i | 0 < i < |Encode(c)| :: Continues(Encode(c)[i])
    ensures |Encode(c)| == if c < 0x80 then 1 else if c < 0x800 then 2 else if c < 0x1_0000 then 3 else 4
  {
    DivideAgain(c);
  }

  /** An e with an accent, the euro sign, and a face. */
  lemma {:induction false} Examples()
    ensures Encode(0xe9) == [0xc3, 0xa9] && Encode(0x20ac) == [0xe2, 0x82, 0xac]
    ensures Encode(0x1_f600) == [0xf0, 0x9f, 0x98, 0x80]
  {
  }

  lemma {:induction false} FirstDigits(c: nat, d: nat)
    requires c < d
    ensures c / 64 <= d / 64 && (c / 64 == d / 64 ==> c % 64 < d % 64)
  {
  }

  lemma {:induction false} OrderTwo(c: Code, d: Code) returns (k: nat)
    requires 0x7f < c < d <= 0x7ff
    ensures k < 2 && Encode(c)[k] < Encode(d)[k] && (k == 1 ==> Encode(c)[0] == Encode(d)[0])
  {
    FirstDigits(c, d);
    k := if c / 64 < d / 64 then 0 else 1;
  }

  lemma {:induction false} OrderThree(c: Code, d: Code) returns (k: nat)
    requires 0x7ff < c < d <= 0xffff
    ensures k < 3 && Encode(c)[k] < Encode(d)[k] && forall i | 0 <= i < k :: Encode(c)[i] == Encode(d)[i]
  {
    DivideAgain(c);
    DivideAgain(d);
    var p, q := c / 64, d / 64;
    FirstDigits(c, d);
    if p == q {
      k := 2;
    } else {
      FirstDigits(p, q);
      k := if p / 64 < q / 64 then 0 else 1;
    }
  }

  lemma {:induction false} OrderFour(c: Code, d: Code) returns (k: nat)
    requires 0xffff < c < d && Valid(d)
    ensures k < 4 && Encode(c)[k] < Encode(d)[k] && forall i | 0 <= i < k :: Encode(c)[i] == Encode(d)[i]
  {
    DivideAgain(c);
    DivideAgain(d);
    var p, q := c / 64, d / 64;
    FirstDigits(c, d);
    if p == q {
      k := 3;
    } else {
      FirstDigits(p, q);
      if p / 64 == q / 64 {
        k := 2;
      } else {
        FirstDigits(p / 64, q / 64);
        k := if c / 262144 < d / 262144 then 0 else 1;
      }
    }
  }

  /** The order of code points is the order of their bytes: `k` is the first byte that differs. */
  lemma {:induction false} KeepsOrder(c: Code, d: Code) returns (k: nat)
    requires Valid(c) && Valid(d) && c < d
    ensures k < |Encode(c)| && k < |Encode(d)| && Encode(c)[k] < Encode(d)[k]
    ensures forall i | 0 <= i < k :: Encode(c)[i] == Encode(d)[i]
  {
    if 0xffff < c {
      k := OrderFour(c, d);
    } else if 0x7ff < c && d <= 0xffff {
      k := OrderThree(c, d);
    } else if 0x7f < c && d <= 0x7ff {
      k := OrderTwo(c, d);
    } else {
      k := 0;
      BytesLook(c);
      BytesLook(d);
      LeadOrder(c, d);
    }
  }

  lemma {:induction false} LeadOrder(c: Code, d: Code)
    requires Valid(c) && Valid(d) && c < d && (|Encode(c)| < |Encode(d)| || c <= 0x7f)
    ensures Encode(c)[0] < Encode(d)[0]
  {
  }

  function Coding(): Codec {
    Codec(Valid, Encode, Decode)
  }

  /** The editor can rely on it. */
  lemma {:induction false} IsFaithful()
    ensures Faithful(Coding())
  {
    assert Advances(Coding());
    forall c: Code | Valid(c) ensures Proper(Coding(), c) {
      NoNul(c);
      forall s: seq<Byte>, i: nat | StandsAt(s, i, Encode(c)) ensures Decode(s, i) == (c, |Encode(c)|) {
        DecodeEncode(s, i, c);
      }
    }
  }
}
