/** Advisory lock keys: a signed 32-bit FNV-1a loop over the bytes of a domain tag. */
module AdvisoryLocks {

  type Byte = b: int | 0 <= b < 256

  type Word = w: int | 0 <= w < 0x1_0000_0000

  const MODULUS := 0x1_0000_0000
  const FNV_OFFSET_BASIS: Word := 0x811c9dc5
  const FNV_PRIME: Word := 0x01000193

  // ----- JavaScript's 32-bit operators -----

  function ToUint32(x: int): Word {
    x % MODULUS
  }

  /** The word of `x` read as two's complement. */
  function ToInt32(x: int): int {
    var u := ToUint32(x);
    if u >= 0x8000_0000 then u - MODULUS else u
  }

  function Pow2(n: nat): (p: nat)
    ensures p > 0
  {
    if n == 0 then 1 else 2 * Pow2(n - 1)
  }

  /** Exclusive or of the lowest `bits` bits. */
  function Xor(a: nat, b: nat, bits: nat): (r: nat)
    ensures r < Pow2(bits)
  {
    if bits == 0 then 0
    else 2 * Xor(a / 2, b / 2, bits - 1) + if a % 2 == b % 2 then 0 else 1
  }

  lemma {:induction false} Pow2Adds(a: nat, b: nat)
    ensures Pow2(a + b) == Pow2(a) * Pow2(b)
  {
    if a > 0 {
      Pow2Adds(a - 1, b);
    }
  }

  lemma WordBits()
    ensures Pow2(32) == MODULUS
  {
    assert Pow2(8) == 256;
    Pow2Adds(8, 8);
    Pow2Adds(16, 16);
  }

  function XorWord(a: Word, b: Word): Word {
    WordBits();
    Xor(a, b, 32)
  }

  /** `a ^ b` */
  function BitXor(a: int, b: int): int {
    ToInt32(XorWord(ToUint32(a), ToUint32(b)))
  }

  /** `Math.imul(a, b)` */
  function Imul(a: int, b: int): int {
    ToInt32(ToUint32(a) * ToUint32(b))
  }

  lemma SameWord(x: int)
    ensures ToUint32(ToInt32(x)) == ToUint32(x)
    ensures ToInt32(ToInt32(x)) == ToInt32(x)
    ensures -0x8000_0000 <= ToInt32(x) < 0x8000_0000
  {
  }

  lemma WordsApart(x: Word, y: Word)
    ensures ToInt32(x) == ToInt32(y) <==> x == y
  {
  }

  // ----- FNV-1a on unsigned words -----

  function Round(h: Word, b: Byte): Word {
    ToUint32(XorWord(h, b) * FNV_PRIME)
  }

  function Fold(h: Word, bytes: seq<Byte>): Word {
    if bytes == [] then h else Round(Fold(h, bytes[..|bytes| - 1]), bytes[|bytes| - 1])
  }

  function Fnv1a(bytes: seq<Byte>): Word {
    Fold(FNV_OFFSET_BASIS, bytes)
  }

  lemma WordOf(w: Word)
    ensures ToUint32(w) == w
  {
  }

  lemma SignedWord(x: int)
    ensures ToInt32(ToUint32(x)) == ToInt32(x)
  {
  }

  /** One turn of the signed loop is a round on the words. */
  lemma SignedRound(hash: int, b: Byte)
    ensures ToUint32(Imul(BitXor(hash, b), FNV_PRIME)) == Round(ToUint32(hash), b)
  {
    hide ToInt32, ToUint32, XorWord;
    WordOf(b);
    WordOf(FNV_PRIME);
    var x := XorWord(ToUint32(hash), b);
    WordOf(x);
    SameWord(x);
    SameWord(x * FNV_PRIME);
  }

  /** `encode` is the UTF-8 encoder of the host. The signed loop computes unsigned FNV-1a. */
  method ComputeAdvisoryLockKey(encode: string -> seq<Byte>, domainTag: string) returns (key: int)
    ensures key == ToInt32(Fnv1a(encode(domainTag)))
    ensures -0x8000_0000 <= key < 0x8000_0000
  {
    hide BitXor, Imul, ToInt32, ToUint32, Round;
    var bytes := encode(domainTag);
    WordOf(FNV_OFFSET_BASIS);
    var hash: int := FNV_OFFSET_BASIS;
    for i := 0 to |bytes|
      invariant ToUint32(hash) == Fnv1a(bytes[..i])
    {
      assert bytes[..i + 1][..i] == bytes[..i];
      SignedRound(hash, bytes[i]);
      hash := BitXor(hash, bytes[i]);
      hash := Imul(hash, FNV_PRIME);
    }
    assert bytes[..|bytes|] == bytes;
    SameWord(hash);
    SignedWord(hash);
    return ToInt32(hash);
  }

  // ----- A round can be undone -----

  /** The inverse of the prime, which is odd, modulo 2^32. */
  const PRIME_INVERSE: Word := 899433627

  function Undo(h: Word, b: Byte): Word {
    XorWord(ToUint32(h * PRIME_INVERSE), b)
  }

  lemma {:induction false} XorTwice(a: nat, b: nat, bits: nat)
    requires a < Pow2(bits)
    ensures Xor(Xor(a, b, bits), b, bits) == a
  {
    if bits > 0 {
      var x := Xor(a, b, bits);
      XorTwice(a / 2, b / 2, bits - 1);
      assert x / 2 == Xor(a / 2, b / 2, bits - 1);
    }
  }

  lemma {:induction false} XorCommutes(a: nat, b: nat, bits: nat)
    ensures Xor(a, b, bits) == Xor(b, a, bits)
  {
    if bits > 0 {
      XorCommutes(a / 2, b / 2, bits - 1);
    }
  }

  lemma XorWordTwice(a: Word, b: Word)
    ensures XorWord(XorWord(a, b), b) == a
    ensures XorWord(a, b) == XorWord(b, a)
  {
    WordBits();
    XorTwice(a, b, 32);
    XorCommutes(a, b, 32);
  }

  lemma WholeTurns(a: int, k: int)
    ensures ToUint32(a + k * MODULUS) == ToUint32(a)
  {
  }

  lemma ProductOfWord(x: int, y: int)
    ensures ToUint32(ToUint32(x) * y) == ToUint32(x * y)
  {
    var q := x / MODULUS;
    assert x == q * MODULUS + ToUint32(x);
    assert x * y == ToUint32(x) * y + (q * y) * MODULUS;
    WholeTurns(ToUint32(x) * y, q * y);
  }

  lemma MultiplyBack(x: Word, a: Word, b: Word)
    requires ToUint32(a * b) == 1
    ensures ToUint32(ToUint32(x * a) * b) == x
  {
    ProductOfWord(x * a, b);
    var k := a * b / MODULUS;
    assert a * b == 1 + k * MODULUS;
    Regroup(x, a, b, k);
    WholeTurns(x, x * k);
  }

  lemma Regroup(x: int, a: int, b: int, k: int)
    requires a * b == 1 + k * MODULUS
    ensures x * a * b == x + (x * k) * MODULUS
  {
    calc {
      x * a * b;
      x * (a * b);
      x * (1 + k * MODULUS);
    }
  }

  /** For each byte, a round is a bijection of the 2^32 states. */
  lemma RoundIsBijection(h: Word, b: Byte)
    ensures Undo(Round(h, b), b) == h
    ensures Round(Undo(h, b), b) == h
  {
    hide Xor, ToUint32;
    InverseOfPrime();
    XorWordTwice(h, b);
    MultiplyBack(XorWord(h, b), FNV_PRIME, PRIME_INVERSE);
    var x := ToUint32(h * PRIME_INVERSE);
    XorWordTwice(x, b);
    MultiplyBack(h, PRIME_INVERSE, FNV_PRIME);
  }

  lemma InverseOfPrime()
    ensures ToUint32(FNV_PRIME * PRIME_INVERSE) == 1 && ToUint32(PRIME_INVERSE * FNV_PRIME) == 1
  {
  }

  /** In one state, different bytes lead to different states. */
  lemma RoundTellsBytesApart(h: Word, b: Byte, c: Byte)
    requires Round(h, b) == Round(h, c)
    ensures b == c
  {
    hide Xor, ToUint32;
    InverseOfPrime();
    MultiplyBack(XorWord(h, b), FNV_PRIME, PRIME_INVERSE);
    MultiplyBack(XorWord(h, c), FNV_PRIME, PRIME_INVERSE);
    XorWordTwice(h, b);
    XorWordTwice(h, c);
    XorWordTwice(b, h);
    XorWordTwice(c, h);
  }

  // ----- Which byte strings can collide -----

  lemma {:induction false} FoldAppend(h: Word, p: seq<Byte>, q: seq<Byte>)
    ensures Fold(h, p + q) == Fold(Fold(h, p), q)
  {
    if q == [] {
      assert p + q == p;
    } else {
      assert (p + q)[..|p + q| - 1] == p + q[..|q| - 1];
      FoldAppend(h, p, q[..|q| - 1]);
    }
  }

  lemma {:induction false} FoldIsInjective(h: Word, k: Word, q: seq<Byte>)
    requires Fold(h, q) == Fold(k, q)
    ensures h == k
  {
    hide Round;
    if q != [] {
      var n := |q| - 1;
      RoundIsBijection(Fold(h, q[..n]), q[n]);
      RoundIsBijection(Fold(k, q[..n]), q[n]);
      FoldIsInjective(h, k, q[..n]);
    }
  }

  function Key(bytes: seq<Byte>): int {
    ToInt32(Fnv1a(bytes))
  }

  /** A common ending neither causes nor cures a collision. */
  lemma SuffixCancels(p: seq<Byte>, r: seq<Byte>, q: seq<Byte>)
    ensures Key(p + q) == Key(r + q) <==> Key(p) == Key(r)
  {
    hide Fold, ToInt32;
    FoldAppend(FNV_OFFSET_BASIS, p, q);
    FoldAppend(FNV_OFFSET_BASIS, r, q);
    WordsApart(Fnv1a(p), Fnv1a(r));
    WordsApart(Fnv1a(p + q), Fnv1a(r + q));
    if Fnv1a(p + q) == Fnv1a(r + q) {
      FoldIsInjective(Fnv1a(p), Fnv1a(r), q);
    }
  }

  /** Byte strings of one length that differ in exactly one place have different keys. */
  lemma OneByteChangesKey(s: seq<Byte>, t: seq<Byte>, i: nat)
    requires |s| == |t| && i < |s| && s[i] != t[i]
    requires forall j :: 0 <= j < |s| && j != i ==> s[j] == t[j]
    ensures Key(s) != Key(t)
  {
    hide Round, ToInt32;
    var p, q := s[..i], s[i + 1..];
    assert s == (p + [s[i]]) + q && t == (p + [t[i]]) + q;
    SuffixCancels(p + [s[i]], p + [t[i]], q);
    assert (p + [s[i]])[..i] == p && (p + [t[i]])[..i] == p;
    WordsApart(Fnv1a(p + [s[i]]), Fnv1a(p + [t[i]]));
    if Fnv1a(p + [s[i]]) == Fnv1a(p + [t[i]]) {
      RoundTellsBytesApart(Fnv1a(p), s[i], t[i]);
    }
  }

  // ----- Published values -----

  lemma {:induction false} XorWithNothing(a: nat, bits: nat)
    requires a < Pow2(bits)
    ensures Xor(a, 0, bits) == a
  {
    if bits > 0 {
      XorWithNothing(a / 2, bits - 1);
    }
  }

  lemma XorStep(a: nat, b: nat, bits: nat)
    requires bits > 0
    ensures Xor(a, b, bits) == 2 * Xor(a / 2, b / 2, bits - 1) + if a % 2 == b % 2 then 0 else 1
  {
  }

  /** Exclusive or with four bits, bit by bit, in front of the other bits of the left side. */
  function Nibble(a: nat, b: nat): nat {
    (if a % 2 == b % 2 then 0 else 1) + (if a / 2 % 2 == b / 2 % 2 then 0 else 2)
    + (if a / 4 % 2 == b / 4 % 2 then 0 else 4) + (if a / 8 % 2 == b / 8 % 2 then 0 else 8)
  }

  lemma FourSteps(a: nat, b: nat, bits: nat)
    requires bits >= 4
    ensures Xor(a, b, bits) == 16 * Xor(a / 16, b / 16, bits - 4) + Nibble(a, b)
  {
    hide Xor;
    XorStep(a, b, bits);
    XorStep(a / 2, b / 2, bits - 1);
    XorStep(a / 4, b / 4, bits - 2);
    XorStep(a / 8, b / 8, bits - 3);
    assert a / 2 / 2 == a / 4 && a / 4 / 2 == a / 8 && a / 8 / 2 == a / 16;
    assert b / 2 / 2 == b / 4 && b / 4 / 2 == b / 8 && b / 8 / 2 == b / 16;
  }

  /** Exclusive or with a byte changes the bits in which the byte has a one, and no other. */
  lemma XorByte(a: Word, b: Byte)
    ensures XorWord(a, b) == 256 * (a / 256) + 16 * Nibble(a / 16, b / 16) + Nibble(a, b)
  {
    hide Xor, Nibble;
    FourSteps(a, b, 32);
    FourSteps(a / 16, b / 16, 28);
    assert a / 16 / 16 == a / 256 && b / 16 / 16 == 0;
    TopBits(a / 256);
    XorWithNothing(a / 256, 24);
  }

  lemma TopBits(a: nat)
    requires a < 0x100_0000
    ensures a < Pow2(24)
  {
    assert Pow2(8) == 256;
    Pow2Adds(8, 8);
    Pow2Adds(16, 8);
  }

  lemma RoundIs(h: Word, b: Byte)
    ensures Round(h, b) == (256 * (h / 256) + 16 * Nibble(h / 16, b / 16) + Nibble(h, b)) * 0x01000193 % 0x1_0000_0000
  {
    hide XorWord, Nibble;
    XorByte(h, b);
  }

  /** The 32-bit FNV-1a hashes of the empty text, of `a`, and of `foobar`. */
  lemma PublishedHashes()
    ensures Fnv1a([]) == 0x811c9dc5
    ensures Fnv1a([0x61]) == 0xe40c292c
    ensures Fnv1a([0x66, 0x6f, 0x6f, 0x62, 0x61, 0x72]) == 0xbf9cf968
  {
    hide Round, Fold, Nibble;
    var h := FNV_OFFSET_BASIS;
    NothingFolded(h);
    Arithmetic();
    FoldOne(h, [], 0x61, 0x811c9dc5, 0xe40c292c);
    FoldOne(h, [], 0x66, 0x811c9dc5, 0xe30c2799);
    var f: seq<Byte> := [] + [0x66];
    FoldOne(h, f, 0x6f, 0xe30c2799, 0x6222e842);
    var fo := f + [0x6f];
    FoldOne(h, fo, 0x6f, 0x6222e842, 0xa9f37ed7);
    var foo := fo + [0x6f];
    FoldOne(h, foo, 0x62, 0xa9f37ed7, 0x3f5076ef);
    var foob := foo + [0x62];
    FoldOne(h, foob, 0x61, 0x3f5076ef, 0x39aaa18a);
    var fooba := foob + [0x61];
    FoldOne(h, fooba, 0x72, 0x39aaa18a, 0xbf9cf968);
    assert fooba + [0x72] == [0x66, 0x6f, 0x6f, 0x62, 0x61, 0x72] && [] + [0x61] == [0x61];
  }

  lemma NothingFolded(h: Word)
    ensures Fold(h, []) == h
  {
  }

  lemma Arithmetic()
    ensures Turned(0x811c9dc5, 0x61) == 0xe40c292c && Turned(0x811c9dc5, 0x66) == 0xe30c2799
    ensures Turned(0xe30c2799, 0x6f) == 0x6222e842 && Turned(0x6222e842, 0x6f) == 0xa9f37ed7
    ensures Turned(0xa9f37ed7, 0x62) == 0x3f5076ef && Turned(0x3f5076ef, 0x61) == 0x39aaa18a
    ensures Turned(0x39aaa18a, 0x72) == 0xbf9cf968
  {
    hide Turned;
    TurnedIs(0x811c9dc5, 0x61, 10, 4, 0x811d68, 0xe40c292c);
    TurnedIs(0x811c9dc5, 0x66, 10, 3, 0x811d68, 0xe30c2799);
    TurnedIs(0xe30c2799, 0x6f, 15, 6, 0xe30d8d, 0x6222e842);
    TurnedIs(0x6222e842, 0x6f, 2, 13, 0x622382, 0xa9f37ed7);
    TurnedIs(0xa9f37ed7, 0x62, 11, 5, 0xa9f48a, 0x3f5076ef);
    TurnedIs(0x3f5076ef, 0x61, 8, 14, 0x3f50da, 0x39aaa18a);
    TurnedIs(0x39aaa18a, 0x72, 15, 8, 0x39aafc, 0xbf9cf968);
  }

  lemma TurnedIs(h: Word, b: Byte, n: nat, m: nat, q: nat, r: nat)
    requires Nibble(h / 16, b / 16) == n && Nibble(h, b) == m
    requires (256 * (h / 256) + 16 * n + m) * 0x01000193 == q * 0x1_0000_0000 + r && r < 0x1_0000_0000
    ensures Turned(h, b) == r
  {
    hide Nibble;
  }

  /** A round, in plain arithmetic. */
  function Turned(h: Word, b: Byte): int {
    (256 * (h / 256) + 16 * Nibble(h / 16, b / 16) + Nibble(h, b)) * 0x01000193 % 0x1_0000_0000
  }

  /** One more byte: `from` becomes `to`. */
  lemma FoldOne(h: Word, bytes: seq<Byte>, b: Byte, from: Word, to: Word)
    requires Fold(h, bytes) == from
    requires Turned(from, b) == to
    ensures Fold(h, bytes + [b]) == to
  {
    hide Round, Nibble;
    RoundIs(from, b);
    assert (bytes + [b])[..|bytes|] == bytes;
  }
}
