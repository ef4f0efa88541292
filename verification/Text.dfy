/** Text as a string of bytes: what the line editor needs of a character encoding, and where characters begin. */
module Text {

  type Byte = b: nat | b < 256
  type Code = nat

  /** Which code points there are, how they are written, and what is read at some place of a string. */
  datatype Codec = Codec(valid: Code -> bool, encode: Code -> seq<Byte>, decode: (seq<Byte>, nat) -> (Code, nat))

  /** A string ends with a NUL byte, which is not part of the sequence. */
  function At(s: seq<Byte>, i: nat): Byte {
    if i < |s| then s[i] else 0
  }

  /** The bytes stand at `i`. */
  ghost predicate StandsAt(s: seq<Byte>, i: nat, e: seq<Byte>) {
    i + |e| <= |s| && forall k | i <= k < i + |e| :: s[k] == e[k - i]
  }

  /** A character is read where it has been written, whatever stands around it. */
  ghost predicate Proper(u: Codec, c: Code) {
    && u.encode(c) != [] && (forall i | 0 <= i < |u.encode(c)| :: u.encode(c)[i] != 0)
    && forall s, i: nat | StandsAt(s, i, u.encode(c)) :: u.decode(s, i) == (c, |u.encode(c)|)
  }

  /** Reading takes at least one byte, whatever it finds. */
  ghost predicate Advances(u: Codec) {
    forall s, i {:trigger u.decode(s, i)} :: u.decode(s, i).1 > 0
  }

  ghost predicate Faithful(u: Codec) {
    Advances(u) && forall c {:trigger Proper(u, c)} | u.valid(c) :: Proper(u, c)
  }

  ghost predicate IsText(u: Codec, text: seq<Code>) {
    forall i | 0 <= i < |text| :: u.valid(text[i])
  }

  function Enc(u: Codec, text: seq<Code>): seq<Byte> {
    if text == [] then [] else u.encode(text[0]) + Enc(u, text[1..])
  }

  lemma {:induction false} EncMore(u: Codec, a: seq<Code>, b: seq<Code>)
    ensures Enc(u, a + b) == Enc(u, a) + Enc(u, b)
  {
    if a == [] {
      assert a + b == b;
    } else {
      assert (a + b)[1..] == a[1..] + b;
      EncMore(u, a[1..], b);
    }
  }

  lemma {:induction false} EncOne(u: Codec, c: Code)
    ensures Enc(u, [c]) == u.encode(c)
  {
    assert [c][1..] == [];
  }

  /** Where character `k` begins. */
  function Offset(u: Codec, text: seq<Code>, k: nat): nat
    requires k <= |text|
    decreases k
  {
    if k == 0 then 0 else Offset(u, text, k - 1) + |u.encode(text[k - 1])|
  }

  /** The text in front of character `k`, and what is left of it. */
  lemma {:induction false} SplitAt(u: Codec, text: seq<Code>, k: nat)
    requires k <= |text|
    ensures |Enc(u, text[..k])| == Offset(u, text, k) <= |Enc(u, text)|
    ensures Enc(u, text)[..Offset(u, text, k)] == Enc(u, text[..k]) && Enc(u, text)[Offset(u, text, k)..] == Enc(u, text[k..])
  {
    PrefixLength(u, text, k);
    assert text == text[..k] + text[k..];
    EncMore(u, text[..k], text[k..]);
  }

  lemma {:induction false} PrefixLength(u: Codec, text: seq<Code>, k: nat)
    requires k <= |text|
    ensures |Enc(u, text[..k])| == Offset(u, text, k)
  {
    if k > 0 {
      PrefixLength(u, text, k - 1);
      assert text[..k] == text[..k - 1] + [text[k - 1]];
      EncMore(u, text[..k - 1], [text[k - 1]]);
      EncOne(u, text[k - 1]);
    }
  }

  /** The bytes of character `k` stand at its offset. */
  lemma {:induction false} CharStands(u: Codec, text: seq<Code>, k: nat)
    requires k < |text|
    ensures StandsAt(Enc(u, text), Offset(u, text, k), u.encode(text[k]))
  {
    SplitAt(u, text, k);
    SplitAt(u, text, k + 1);
    assert text[..k + 1] == text[..k] + [text[k]];
    EncMore(u, text[..k], [text[k]]);
    EncOne(u, text[k]);
    var s, i, e := Enc(u, text), Offset(u, text, k), u.encode(text[k]);
    assert s[..i + |e|] == Enc(u, text[..k]) + e;
    assert forall m | i <= m < i + |e| :: s[m] == s[..i + |e|][m];
  }

  /** The text stands in the string from `beg` on. */
  ghost predicate Holds(u: Codec, s: seq<Byte>, beg: nat, text: seq<Code>) {
    IsText(u, text) && beg + |Enc(u, text)| <= |s| && s[beg..beg + |Enc(u, text)|] == Enc(u, text)
  }

  ghost predicate CharAt(u: Codec, s: seq<Byte>, beg: nat, text: seq<Code>, k: nat)
    requires k < |text|
  {
    u.encode(text[k]) != [] && u.decode(s, beg + Offset(u, text, k)) == (text[k], |u.encode(text[k])|)
  }

  /** The characters are what is decoded at their offsets. */
  ghost predicate Readable(u: Codec, s: seq<Byte>, beg: nat, text: seq<Code>) {
    forall k {:trigger CharAt(u, s, beg, text, k)} | 0 <= k < |text| :: CharAt(u, s, beg, text, k)
  }

  lemma {:induction false} CanBeRead(u: Codec, s: seq<Byte>, beg: nat, text: seq<Code>)
    requires Faithful(u) && Holds(u, s, beg, text)
    ensures Readable(u, s, beg, text) && Offset(u, text, |text|) == |Enc(u, text)|
  {
    SplitAt(u, text, |text|);
    assert text[..|text|] == text;
    forall k | 0 <= k < |text| ensures CharAt(u, s, beg, text, k) {
      CharStands(u, text, k);
      StandsInside(s, beg, Enc(u, text), Offset(u, text, k), u.encode(text[k]));
      assert Proper(u, text[k]);
    }
  }

  lemma {:induction false} StandsInside(s: seq<Byte>, beg: nat, t: seq<Byte>, off: nat, e: seq<Byte>)
    requires beg + |t| <= |s| && s[beg..beg + |t|] == t && StandsAt(t, off, e)
    ensures StandsAt(s, beg + off, e)
  {
    forall m | beg + off <= m < beg + off + |e| ensures s[m] == e[m - (beg + off)] {
      assert s[m] == s[beg..beg + |t|][m - beg];
    }
  }

  /** Encoded text has no NUL byte, so that it can end with one. */
  lemma {:induction false} NoNul(u: Codec, text: seq<Code>)
    requires Faithful(u) && IsText(u, text)
    ensures forall i | 0 <= i < |Enc(u, text)| :: Enc(u, text)[i] != 0
    ensures |Enc(u, text)| >= |text|
  {
    if text != [] {
      assert Proper(u, text[0]);
      NoNul(u, text[1..]);
    }
  }

  lemma {:induction false} OffsetGrows(u: Codec, s: seq<Byte>, beg: nat, text: seq<Code>, k: nat, m: nat)
    requires Readable(u, s, beg, text) && k <= m <= |text|
    ensures Offset(u, text, k) + (m - k) <= Offset(u, text, m)
  {
    if k < m {
      assert CharAt(u, s, beg, text, m - 1);
      OffsetGrows(u, s, beg, text, k, m - 1);
    }
  }

  // ----- counting in any bytes -----

  /** How many characters are read from `i` on until `left` bytes have been taken; the last one may take more. */
  function Steps(u: Codec, s: seq<Byte>, i: nat, left: int): (n: nat)
    requires Advances(u)
    ensures left >= 0 ==> n <= left
    ensures left > 0 ==> n > 0
    decreases left
  {
    if left <= 0 then 0
    else
      var l := u.decode(s, i).1;
      1 + Steps(u, s, i + l, left - l)
  }

  /** How many bytes the next `k` characters take. */
  function Skipped(u: Codec, s: seq<Byte>, i: nat, k: nat): nat
    decreases k
  {
    if k == 0 then 0
    else
      var l := u.decode(s, i).1;
      l + Skipped(u, s, i + l, k - 1)
  }

  lemma {:induction false} SkippedMore(u: Codec, s: seq<Byte>, i: nat, k: nat)
    ensures Skipped(u, s, i, k + 1) == Skipped(u, s, i, k) + u.decode(s, i + Skipped(u, s, i, k)).1
    decreases k
  {
    if k > 0 {
      SkippedMore(u, s, i + u.decode(s, i).1, k - 1);
    }
  }

  /** In text the characters counted are those that were written. */
  lemma {:induction false} StepsOfText(u: Codec, s: seq<Byte>, beg: nat, text: seq<Code>)
    requires Faithful(u) && Holds(u, s, beg, text)
    ensures Steps(u, s, beg, |Enc(u, text)|) == |text|
  {
    CanBeRead(u, s, beg, text);
    StepsFrom(u, s, beg, text, 0);
  }

  lemma {:induction false} StepsFrom(u: Codec, s: seq<Byte>, beg: nat, text: seq<Code>, k: nat)
    requires Faithful(u) && Readable(u, s, beg, text) && k <= |text|
    ensures Steps(u, s, beg + Offset(u, text, k), Offset(u, text, |text|) - Offset(u, text, k)) == |text| - k
    decreases |text| - k
  {
    OffsetGrows(u, s, beg, text, k, |text|);
    if k < |text| {
      assert CharAt(u, s, beg, text, k);
      StepsFrom(u, s, beg, text, k + 1);
    }
  }

  lemma {:induction false} SkippedOfText(u: Codec, s: seq<Byte>, beg: nat, text: seq<Code>, k: nat)
    requires Faithful(u) && Holds(u, s, beg, text) && k <= |text|
    ensures Skipped(u, s, beg, k) == Offset(u, text, k)
  {
    if k > 0 {
      SkippedOfText(u, s, beg, text, k - 1);
      SkippedMore(u, s, beg, k - 1);
      CanBeRead(u, s, beg, text);
      assert CharAt(u, s, beg, text, k - 1);
    }
  }

  /** utf8_strlen, of `bytelen` bytes from `beg` on, whatever they are; if they are `text`, it is the length of it. */
  method StrLen(u: Codec, s: seq<Byte>, beg: nat, bytelen: nat, ghost text: seq<Code>) returns (charlen: nat)
    requires Faithful(u)
    ensures charlen == Steps(u, s, beg, bytelen) <= bytelen
    ensures Holds(u, s, beg, text) && bytelen == |Enc(u, text)| ==> charlen == |text|
  {
    charlen := 0;
    var i: nat, left: int := beg, bytelen;
    while left > 0
      invariant charlen + Steps(u, s, i, left) == Steps(u, s, beg, bytelen)
    {
      var l := u.decode(s, i).1;
      charlen := charlen + 1;
      i, left := i + l, left - l;
    }
    if Holds(u, s, beg, text) {
      StepsOfText(u, s, beg, text);
    }
  }

  /** utf8_index: how far the character `index` is from `beg`, whatever stands there. */
  method Index(u: Codec, s: seq<Byte>, beg: nat, index: nat, ghost text: seq<Code>) returns (off: nat)
    requires Faithful(u)
    ensures off == Skipped(u, s, beg, index) >= index
    ensures Holds(u, s, beg, text) && index <= |text| ==> off == Offset(u, text, index)
  {
    var i: nat := beg;
    for k := 0 to index
      invariant i == beg + Skipped(u, s, beg, k) >= beg + k
    {
      SkippedMore(u, s, beg, k);
      i := i + u.decode(s, i).1;
    }
    off := i - beg;
    if Holds(u, s, beg, text) && index <= |text| {
      SkippedOfText(u, s, beg, text, index);
    }
  }
}
