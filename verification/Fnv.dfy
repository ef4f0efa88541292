/** The hash of link labels: 32-bit FNV-1a, over the four bytes of each code point. */
module Fnv {
  import opened Sequences

  const PRIME: nat := 16777619
  const WIDTH: nat := 0x1_0000_0000

  function Xor(a: nat, b: nat): nat
    requires a < 256 && b < 256
  {
    ((a as bv8) ^ (b as bv8)) as nat
  }

  /** The word with its last byte mixed with `b`. */
  function Mixed(h: nat, b: nat): nat
    requires b < 256
  {
    h - h % 256 + Xor(h % 256, b)
  }

  function HashByte(h: nat, b: nat): nat
    requires b < 256
  {
    Mixed(h, b) * PRIME % WIDTH
  }

  /** The hashes that FNV-1a has for the texts "a" and "b". */
  lemma {:induction false} KnownHashes()
    ensures HashByte(0x811c_9dc5, 0x61) == 0xe40c_292c && HashByte(0x811c_9dc5, 0x62) == 0xe70c_2de5
  {
    KnownXors();
    KnownHash(0x61, 0xa4, 8461672, 0xe40c_292c);
    KnownHash(0x62, 0xa7, 8461672, 0xe70c_2de5);
  }

  lemma {:induction false} KnownHash(b: nat, x: nat, q: nat, hash: nat)
    requires b < 256 && Xor(0xc5, b) == x && hash < WIDTH && (0x811c_9d00 + x) * PRIME == q * WIDTH + hash
    ensures HashByte(0x811c_9dc5, b) == hash
  {
    hide Xor;
    Remainder((0x811c_9d00 + x) * PRIME, q, hash);
  }

  lemma {:induction false} Remainder(n: nat, q: nat, r: nat)
    requires n == q * WIDTH + r && r < WIDTH
    ensures n % WIDTH == r
  {
  }

  lemma {:induction false} KnownXors()
    ensures Xor(0xc5, 0x61) == 0xa4 && Xor(0xc5, 0x62) == 0xa7
  {
    assert (0xc5 as bv8) ^ (0x61 as bv8) == 0xa4 && (0xc5 as bv8) ^ (0x62 as bv8) == 0xa7;
  }

  predicate AreBytes(bytes: seq<nat>) {
    forall i | 0 <= i < |bytes| :: bytes[i] < 256
  }

  function HashBytes(h: nat, bytes: seq<nat>): nat
    requires AreBytes(bytes)
    decreases |bytes|
  {
    if bytes == [] then h else HashBytes(HashByte(h, bytes[0]), bytes[1..])
  }

  /** The bytes of a code point, the last one first. */
  function BytesOf(c: nat): (bytes: seq<nat>)
    ensures AreBytes(bytes)
  {
    [c % 256, c / 256 % 256, c / 65536 % 256, c / 16777216 % 256]
  }

  function HashCode(h: nat, c: nat): nat {
    HashBytes(h, BytesOf(c))
  }

  /** The bytes of some code points, as they lie in memory. */
  function AllBytes(codes: seq<nat>): (bytes: seq<nat>)
    ensures AreBytes(bytes)
  {
    if codes == [] then [] else BytesOf(codes[0]) + AllBytes(codes[1..])
  }

  /** md_fnv1a */
  method Fnv1a(base: nat, bytes: seq<nat>) returns (hash: nat)
    requires AreBytes(bytes)
    ensures hash == HashBytes(base, bytes)
  {
    hash := base;
    for i := 0 to |bytes|
      invariant HashBytes(hash, bytes[i..]) == HashBytes(base, bytes)
    {
      assert bytes[i..][1..] == bytes[i + 1..];
      hash := HashByte(hash, bytes[i]);
    }
  }

  /** A text may be hashed in pieces. */
  lemma {:induction false} HashPieces(h: nat, a: seq<nat>, b: seq<nat>)
    requires AreBytes(a) && AreBytes(b)
    ensures AreBytes(a + b) && HashBytes(h, a + b) == HashBytes(HashBytes(h, a), b)
    decreases |a|
  {
    if a == [] {
      assert a + b == b;
    } else {
      assert (a + b)[1..] == a[1..] + b;
      HashPieces(HashByte(h, a[0]), a[1..], b);
    }
  }

  // ----- one step can be undone: no two words become one -----

  const INVERSE: nat := 899433627   // of the prime, modulo 2^32

  lemma {:induction false} Product(k: nat)
    ensures (k * PRIME) * INVERSE == k + WIDTH * (k * 3513497)
  {
  }

  lemma {:induction false} Undo(k: nat)
    requires k < WIDTH
    ensures k * PRIME % WIDTH * INVERSE % WIDTH == k
  {
    var m := k * PRIME;
    assert m == WIDTH * (m / WIDTH) + m % WIDTH;
    Product(k);
    assert m % WIDTH * INVERSE == k + WIDTH * (k * 3513497 - m / WIDTH * INVERSE);
    Residue(k, k * 3513497 - m / WIDTH * INVERSE);
  }

  lemma {:induction false} Residue(k: nat, q: int)
    requires k < WIDTH
    ensures (k + WIDTH * q) % WIDTH == k
  {
  }

  lemma {:induction false} ThereAndBack(v: bv8)
    ensures (v as nat) < 256 && (v as nat) as bv8 == v
  {
  }

  lemma {:induction false} BackAndThere(a: nat)
    requires a < 256
    ensures (a as bv8) as nat == a
  {
    assert a % 256 == a;
  }

  lemma {:induction false} XorSelf(x: bv8, y: bv8)
    ensures (x ^ y) ^ y == x && x ^ (x ^ y) == y
  {
  }

  lemma {:induction false} XorOf(x: bv8, y: bv8)
    ensures (x as nat) < 256 && (y as nat) < 256 && (x ^ y) as nat < 256 && Xor(x as nat, y as nat) == (x ^ y) as nat
  {
    ThereAndBack(x);
    ThereAndBack(y);
  }

  lemma {:induction false} XorTwiceOf(x: bv8, y: bv8)
    ensures Xor(Xor(x as nat, y as nat), y as nat) == x as nat
    ensures Xor(x as nat, Xor(x as nat, y as nat)) == y as nat
  {
    XorOf(x, y);
    XorOf(x ^ y, y);
    XorOf(x, x ^ y);
    XorSelf(x, y);
  }

  lemma {:induction false} XorTwice(a: nat, b: nat)
    requires a < 256 && b < 256
    ensures Xor(Xor(a, b), b) == a && Xor(a, Xor(a, b)) == b
  {
    BackAndThere(a);
    BackAndThere(b);
    XorTwiceOf(a as bv8, b as bv8);
  }

  lemma {:induction false} MixedParts(h: nat, b: nat)
    requires h < WIDTH && b < 256
    ensures Mixed(h, b) < WIDTH && Mixed(h, b) / 256 == h / 256 && Mixed(h, b) % 256 == Xor(h % 256, b)
  {
    assert Mixed(h, b) == 256 * (h / 256) + Xor(h % 256, b);
  }

  lemma {:induction false} MixedApart(h: nat, b: nat, g: nat, c: nat)
    requires h < WIDTH && g < WIDTH && b < 256 && c < 256
    requires (b == c && h != g) || (h == g && b != c)
    ensures Mixed(h, b) != Mixed(g, c)
  {
    MixedParts(h, b);
    MixedParts(g, c);
    XorTwice(h % 256, b);
    XorTwice(g % 256, c);
    if h != g && h / 256 == g / 256 {
      assert h % 256 != g % 256;
    }
  }

  /** From the word after a byte the word before can be told, and so can the byte. */
  lemma {:induction false} StepIsInjective(h: nat, b: nat, g: nat, c: nat)
    requires h < WIDTH && g < WIDTH && b < 256 && c < 256
    requires (b == c && h != g) || (h == g && b != c)
    ensures HashByte(h, b) != HashByte(g, c)
  {
    MixedApart(h, b, g, c);
    MixedParts(h, b);
    MixedParts(g, c);
    Undo(Mixed(h, b));
    Undo(Mixed(g, c));
  }

  lemma {:induction false} StaysApart(h: nat, g: nat, bytes: seq<nat>)
    requires h < WIDTH && g < WIDTH && h != g && AreBytes(bytes)
    ensures HashBytes(h, bytes) != HashBytes(g, bytes)
    decreases |bytes|
  {
    if bytes != [] {
      StepIsInjective(h, bytes[0], g, bytes[0]);
      StaysApart(HashByte(h, bytes[0]), HashByte(g, bytes[0]), bytes[1..]);
    }
  }

  lemma {:induction false} IsWord(h: nat, bytes: seq<nat>)
    requires h < WIDTH && AreBytes(bytes)
    ensures HashBytes(h, bytes) < WIDTH
    decreases |bytes|
  {
    if bytes != [] {
      IsWord(HashByte(h, bytes[0]), bytes[1..]);
    }
  }

  /** Texts that differ in one byte only never have the same hash. */
  lemma {:induction false} OneByteApart(h: nat, a: seq<nat>, x: nat, y: nat, b: seq<nat>)
    requires h < WIDTH && AreBytes(a) && AreBytes(b) && x < 256 && y < 256
    ensures AreBytes(a + ([x] + b)) && AreBytes(a + ([y] + b))
    ensures HashBytes(h, a + ([x] + b)) == HashBytes(h, a + ([y] + b)) <==> x == y
  {
    HashPieces(h, a, [x] + b);
    HashPieces(h, a, [y] + b);
    var g := HashBytes(h, a);
    IsWord(h, a);
    assert ([x] + b)[1..] == b && ([y] + b)[1..] == b;
    if x != y {
      StepIsInjective(g, x, g, y);
      StaysApart(HashByte(g, x), HashByte(g, y), b);
    }
  }

  lemma {:induction false} MoreBytes(a: seq<nat>, b: seq<nat>)
    ensures AllBytes(a + b) == AllBytes(a) + AllBytes(b)
  {
    if a == [] {
      assert a + b == b;
    } else {
      assert (a + b)[1..] == a[1..] + b;
      MoreBytes(a[1..], b);
    }
  }

  lemma {:induction false} ThreeZeros(c: nat)
    requires c < 256
    ensures BytesOf(c) == [c] + [0, 0, 0]
  {
    assert c % 256 == c && c / 256 == 0;
  }

  /** Where a one-byte code point lies between others. */
  lemma {:induction false} BytesAround(a: seq<nat>, x: nat, b: seq<nat>)
    requires x < 256
    ensures AllBytes(a + ([x] + b)) == AllBytes(a) + ([x] + ([0, 0, 0] + AllBytes(b)))
  {
    MoreBytes(a, [x] + b);
    assert ([x] + b)[1..] == b;
    ThreeZeros(x);
    Assoc([x], [0, 0, 0], AllBytes(b));
  }

  /** Texts that differ in one code point only, which is a single byte in both, never have the same hash. */
  lemma {:induction false} OneCodeApart(h: nat, a: seq<nat>, x: nat, y: nat, b: seq<nat>)
    requires h < WIDTH && x < 256 && y < 256
    ensures HashBytes(h, AllBytes(a + ([x] + b))) == HashBytes(h, AllBytes(a + ([y] + b))) <==> x == y
  {
    BytesAround(a, x, b);
    BytesAround(a, y, b);
    OneByteApart(h, AllBytes(a), x, y, [0, 0, 0] + AllBytes(b));
  }

  // ----- the last byte of the hash -----

  lemma {:induction false} SameLow(k: int, r: int)
    ensures (256 * k + r) % 256 == r % 256
  {
  }

  /** The last byte of a hash depends on the last byte of the hash before. */
  lemma {:induction false} LowByte(h: nat, b: nat, low: nat, x: nat)
    requires b < 256 && h % 256 == low && Xor(low, b) == x
    ensures HashByte(h, b) % 256 == x * 147 % 256
  {
    var q := h / 256;
    var t := (h - low + x) * PRIME;
    assert PRIME == 256 * 65537 + 147;
    assert t == 256 * (q * PRIME + x * 65537) + x * 147;
    SameLow(q * PRIME + x * 65537, x * 147);
    assert t == 256 * (16777216 * (t / WIDTH)) + t % WIDTH;
    SameLow(16777216 * (t / WIDTH), t % WIDTH);
  }

  /** The last byte of a hash, by itself. */
  function LowBytes(low: nat, bytes: seq<nat>): nat
    requires low < 256 && AreBytes(bytes)
    decreases |bytes|
  {
    if bytes == [] then low else LowBytes(Xor(low, bytes[0]) * 147 % 256, bytes[1..])
  }

  lemma {:induction false} LowOfHash(h: nat, bytes: seq<nat>)
    requires AreBytes(bytes)
    ensures HashBytes(h, bytes) % 256 == LowBytes(h % 256, bytes)
    decreases |bytes|
  {
    if bytes != [] {
      LowByte(h, bytes[0], h % 256, Xor(h % 256, bytes[0]));
      LowOfHash(HashByte(h, bytes[0]), bytes[1..]);
    }
  }

  lemma {:induction false} Even(h: nat)
    ensures h % 256 % 2 == h % 2
  {
    assert h == 2 * (128 * (h / 256)) + h % 256;
  }

  lemma {:induction false} LowStep(low: nat, byte: nat, rest: seq<nat>, next: nat)
    requires low < 256 && byte < 256 && AreBytes(rest) && next == Xor(low, byte) * 147 % 256
    ensures AreBytes([byte] + rest) && LowBytes(low, [byte] + rest) == LowBytes(next, rest)
  {
    assert ([byte] + rest)[1..] == rest;
  }

  lemma {:induction false} SmallBytes(c: nat)
    requires c < 256
    ensures BytesOf(c) == [c] + ([0] + ([0] + ([0] + [])))
  {
    assert c % 256 == c && c / 256 == 0;
  }

  lemma {:induction false} XorZero(a: nat)
    requires a < 256
    ensures Xor(a, 0) == a
  {
    BackAndThere(a);
  }

  lemma {:induction false} LowCode(low: nat, c: nat, x: nat, l1: nat, l2: nat, l3: nat, l4: nat)
    requires low < 256 && c < 256 && Xor(low, c) == x && l1 == x * 147 % 256
    requires l2 == l1 * 147 % 256 && l3 == l2 * 147 % 256 && l4 == l3 * 147 % 256
    ensures LowBytes(low, BytesOf(c)) == l4
  {
    XorZero(l1);
    XorZero(l2);
    XorZero(l3);
    LowStep(l3, 0, [], l4);
    LowStep(l2, 0, [0] + [], l3);
    LowStep(l1, 0, [0] + ([0] + []), l2);
    LowStep(low, c, [0] + ([0] + ([0] + [])), l1);
    SmallBytes(c);
  }

  /** The last byte of the hash after one more code point, if that is a single byte. */
  lemma {:induction false} LowOfCode(h: nat, c: nat, x: nat, l1: nat, l2: nat, l3: nat, l4: nat)
    requires c < 256 && Xor(h % 256, c) == x && l1 == x * 147 % 256
    requires l2 == l1 * 147 % 256 && l3 == l2 * 147 % 256 && l4 == l3 * 147 % 256
    ensures HashCode(h, c) % 256 == l4
  {
    LowOfHash(h, BytesOf(c));
    LowCode(h % 256, c, x, l1, l2, l3, l4);
  }

  /** The letters `a` and `c`. */
  lemma {:induction false} Letters() returns (a: nat, c: nat)
    ensures a < 256 && c < 256 && a != 32 && c != 32 && a != c
    ensures Xor(197, a) == 164 && Xor(197, c) == 166 && Xor(228, 32) == 196
  {
    a, c := 97, 99;
  }

  lemma {:induction false} LowOfA(h: nat, a: nat)
    requires h % 256 == 197 && a < 256 && Xor(197, a) == 164
    ensures HashCode(h, a) % 256 == 228
  {
    LowOfCode(h, a, 164, 44, 68, 12, 228);
  }

  lemma {:induction false} LowOfC(h: nat, c: nat)
    requires h % 256 == 197 && c < 256 && Xor(197, c) == 166
    ensures HashCode(h, c) % 256 == 6
  {
    LowOfCode(h, c, 166, 82, 22, 162, 6);
  }

  lemma {:induction false} LowOfSpace(h: nat, space: nat)
    requires h % 256 == 228 && space < 256 && Xor(228, space) == 196
    ensures HashCode(h, space) % 256 == 4
  {
    LowOfCode(h, space, 196, 140, 100, 108, 4);
  }

  /** The hashes of `a`, of `c`, and of `a` with a space behind it: all are even, but the last one is another one. */
  lemma {:induction false} Hashes(h: nat, a: nat, c: nat, space: nat)
    requires h % 256 == 197 && a < 256 && c < 256 && space < 256
    requires Xor(197, a) == 164 && Xor(197, c) == 166 && Xor(228, space) == 196
    ensures HashCode(h, a) % 2 == HashCode(h, c) % 2 == HashCode(HashCode(h, a), space) % 2
    ensures HashCode(h, a) != HashCode(HashCode(h, a), space)
  {
    LowOfA(h, a);
    LowOfC(h, c);
    var ha := HashCode(h, a);
    LowOfSpace(ha, space);
    Even(ha);
    Even(HashCode(h, c));
    Even(HashCode(ha, space));
  }
}
