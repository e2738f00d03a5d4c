/** The 32-bit FNV-1a hash, on numbers. */
module Fnv32 {
  type Byte = b: nat | b < 256

  const OFFSET_BASIS: nat := 2166136261
  const PRIME: nat := 16777619
  const MODULUS: nat := 0x1_0000_0000

  /** Bitwise exclusive or. */
  function Xor(a: nat, b: nat): nat {
    if a == 0 && b == 0 then 0 else 2 * Xor(a / 2, b / 2) + (a % 2 + b % 2) % 2
  }

  /** One round; masking to 32 bits is the remainder by the modulus. */
  function Round(h: nat, b: Byte): (r: nat)
    ensures r < MODULUS
  {
    Xor(h, b) * PRIME % MODULUS
  }

  function HashFrom(h: nat, s: seq<Byte>): nat
    decreases |s|
  {
    if s == [] then h else HashFrom(Round(h, s[0]), s[1..])
  }

  function Hash(s: seq<Byte>): nat {
    HashFrom(OFFSET_BASIS, s)
  }

  method Fnv32a(s: seq<Byte>) returns (h: nat)
    ensures h == Hash(s)
  {
    h := OFFSET_BASIS;
    for i := 0 to |s|
      invariant HashFrom(h, s[i..]) == Hash(s)
    {
      assert s[i..][1..] == s[i + 1..];
      h := Round(h, s[i]);
    }
  }

  // ----- exclusive or

  lemma XorUnfold(a: nat, b: nat)
    ensures Xor(a, b) == 2 * Xor(a / 2, b / 2) + (a % 2 + b % 2) % 2
  {
  }

  lemma HalfAndBit(x: nat, bit: nat)
    requires bit < 2
    ensures (2 * x + bit) / 2 == x && (2 * x + bit) % 2 == bit
  {
  }

  lemma BitCancels(a: nat, b: nat)
    ensures ((a % 2 + b % 2) % 2 + b % 2) % 2 == a % 2
  {
  }

  lemma {:induction false} XorCancels(a: nat, b: nat)
    ensures Xor(Xor(a, b), b) == a
    decreases a + b
  {
    if a != 0 || b != 0 {
      XorCancels(a / 2, b / 2);
      hide Xor;
      XorUnfold(a, b);
      HalfAndBit(Xor(a / 2, b / 2), (a % 2 + b % 2) % 2);
      XorUnfold(Xor(a, b), b);
      BitCancels(a, b);
    }
  }

  lemma {:induction false} XorSymmetric(a: nat, b: nat)
    ensures Xor(a, b) == Xor(b, a)
  {
    if a != 0 || b != 0 {
      XorSymmetric(a / 2, b / 2);
    }
  }

  lemma XorInjective(a: nat, a': nat, b: nat, b': nat)
    requires Xor(a, b) == Xor(a', b')
    ensures a == a' <==> b == b'
  {
    XorCancels(a, b);
    XorCancels(a', b');
    XorSymmetric(a, b);
    XorSymmetric(a', b');
    XorCancels(b, a);
    XorCancels(b', a');
  }

  function Pow2(n: nat): (p: nat)
    ensures p > 0
  {
    if n == 0 then 1 else 2 * Pow2(n - 1)
  }

  lemma HalfMod(a: nat, p: nat)
    requires p > 0
    ensures a % (2 * p) == 2 * (a / 2 % p) + a % 2
  {
    var q, r := a / 2 / p, a / 2 % p;
    assert a / 2 == q * p + r;
    assert a == (2 * p) * q + (2 * r + a % 2);
    ModUnique(a, 2 * p, q, 2 * r + a % 2);
  }

  lemma MultipleIsLarge(m: nat, d: int)
    requires m > 0
    ensures d >= 1 ==> m * d >= m
    ensures d <= -1 ==> m * d + m <= 0
  {
  }

  lemma ModUnique(a: nat, m: nat, q: nat, r: nat)
    requires m > 0 && r < m && a == m * q + r
    ensures a % m == r
  {
    var d := a / m - q;
    assert a == m * (a / m) + a % m;
    assert m * d == r - a % m;
    MultipleIsLarge(m, d);
  }

  /** The low n bits of an exclusive or are the exclusive or of the low n bits. */
  lemma {:induction false} XorLowBits(a: nat, b: nat, n: nat)
    ensures Xor(a, b) % Pow2(n) == Xor(a % Pow2(n), b % Pow2(n))
    decreases n
  {
    if n > 0 {
      var p := Pow2(n - 1);
      XorLowBits(a / 2, b / 2, n - 1);
      XorUnfold(a, b);
      hide Xor;
      var bit := (a % 2 + b % 2) % 2;
      LowBits(a, p);
      LowBits(b, p);
      HalfAndBit(Xor(a / 2, b / 2), bit);
      HalfMod(Xor(a, b), p);
      XorUnfold(a % (2 * p), b % (2 * p));
    }
  }

  lemma LowBits(a: nat, p: nat)
    requires p > 0
    ensures a % (2 * p) / 2 == a / 2 % p && a % (2 * p) % 2 == a % 2
  {
    HalfMod(a, p);
    HalfAndBit(a / 2 % p, a % 2);
  }

  lemma ModulusIsPow2()
    ensures Pow2(32) == MODULUS
  {
    assert Pow2(8) == 256;
    assert Pow2(16) == 65536;
    assert Pow2(24) == 0x100_0000;
  }

  lemma XorBounded(h: nat, b: Byte)
    requires h < MODULUS
    ensures Xor(h, b) < MODULUS
  {
    ModulusIsPow2();
    XorLowBits(h, b, 32);
    hide Xor, Pow2;
    ModUnique(h, MODULUS, 0, h);
    ModUnique(b, MODULUS, 0, b);
  }

  // ----- one round is a bijection

  /** The inverse of the prime modulo 2^32. */
  const INVERSE: nat := 899433627
  const CARRY: nat := 3513497

  lemma PrimeHasInverse()
    ensures PRIME * INVERSE == 1 + MODULUS * CARRY
  {
  }

  lemma TimesPrimeInjective(x: nat, y: nat)
    requires x < MODULUS && y < MODULUS && x * PRIME % MODULUS == y * PRIME % MODULUS
    ensures x == y
  {
    PrimeHasInverse();
    var t := x * PRIME / MODULUS - y * PRIME / MODULUS;
    assert (x - y) * PRIME == MODULUS * t;
    var k := t * INVERSE - CARRY * (x - y);
    assert x - y == MODULUS * k;
  }

  /** A round loses nothing: with the same byte, different states stay different; from the same state,
      different bytes lead apart. */
  lemma RoundInjective(h: nat, h': nat, b: Byte, b': Byte)
    requires h < MODULUS && h' < MODULUS && Round(h, b) == Round(h', b')
    ensures h == h' <==> b == b'
  {
    XorBounded(h, b);
    XorBounded(h', b');
    TimesPrimeInjective(Xor(h, b), Xor(h', b'));
    XorInjective(h, h', b, b');
  }

  // ----- hashes

  lemma {:induction false} HashAppend(h: nat, s: seq<Byte>, t: seq<Byte>)
    ensures HashFrom(h, s + t) == HashFrom(HashFrom(h, s), t)
    decreases |s|
  {
    if s == [] {
      assert s + t == t;
    } else {
      assert (s + t)[1..] == s[1..] + t;
      HashAppend(Round(h, s[0]), s[1..], t);
    }
  }

  lemma {:induction false} HashBounded(h: nat, s: seq<Byte>)
    requires h < MODULUS
    ensures HashFrom(h, s) < MODULUS
    decreases |s|
  {
    if s != [] {
      HashBounded(Round(h, s[0]), s[1..]);
    }
  }

  /** Hashing the same bytes from different states gives different results. */
  lemma {:induction false} SameTail(h: nat, h': nat, s: seq<Byte>)
    requires h < MODULUS && h' < MODULUS
    ensures HashFrom(h, s) == HashFrom(h', s) <==> h == h'
    decreases |s|
  {
    if s != [] {
      if Round(h, s[0]) == Round(h', s[0]) {
        RoundInjective(h, h', s[0], s[0]);
      }
      SameTail(Round(h, s[0]), Round(h', s[0]), s[1..]);
    }
  }

  /** Between a common front and a common back, only the middles decide whether two texts collide. */
  lemma CollisionIsLocal(front: seq<Byte>, u: seq<Byte>, v: seq<Byte>, back: seq<Byte>)
    ensures Hash(front + u + back) == Hash(front + v + back)
       <==> HashFrom(Hash(front), u) == HashFrom(Hash(front), v)
  {
    HashBounded(OFFSET_BASIS, front);
    HashAppend(OFFSET_BASIS, front, u);
    HashAppend(OFFSET_BASIS, front + u, back);
    HashAppend(OFFSET_BASIS, front, v);
    HashAppend(OFFSET_BASIS, front + v, back);
    HashBounded(Hash(front), u);
    HashBounded(Hash(front), v);
    SameTail(HashFrom(Hash(front), u), HashFrom(Hash(front), v), back);
  }

  /** Two byte strings of one length that differ in exactly one byte never collide. */
  lemma OneByteDecides(s: seq<Byte>, t: seq<Byte>, i: nat)
    requires |s| == |t| && i < |s| && s[i] != t[i]
    requires forall j :: 0 <= j < |s| && j != i ==> s[j] == t[j]
    ensures Hash(s) != Hash(t)
  {
    var front, back := s[..i], s[i + 1..];
    assert s == front + [s[i]] + back;
    assert t == front + [t[i]] + back;
    CollisionIsLocal(front, [s[i]], [t[i]], back);
    HashBounded(OFFSET_BASIS, front);
    var h := Hash(front);
    assert HashFrom(h, [s[i]]) == Round(h, s[i]) && HashFrom(h, [t[i]]) == Round(h, t[i]);
    if Round(h, s[i]) == Round(h, t[i]) {
      RoundInjective(h, h, s[i], t[i]);
    }
  }

  // ----- two adjacent bytes

  lemma XorZero(a: nat)
    ensures Xor(a, 0) == a
  {
    if a > 0 {
      XorZero(a / 2);
    }
  }

  lemma HalfOfXor(a: nat, b: nat)
    ensures Xor(a, b) / 2 == Xor(a / 2, b / 2)
  {
    XorUnfold(a, b);
    HalfAndBit(Xor(a / 2, b / 2), (a % 2 + b % 2) % 2);
  }

  function Shifted(a: nat, n: nat): nat {
    if n == 0 then a else Shifted(a / 2, n - 1)
  }

  /** The high bits of an exclusive or are the exclusive or of the high bits. */
  lemma {:induction false} XorHighBits(a: nat, b: nat, n: nat)
    ensures Shifted(Xor(a, b), n) == Xor(Shifted(a, n), Shifted(b, n))
    decreases n
  {
    if n > 0 {
      HalfOfXor(a, b);
      hide Xor;
      XorHighBits(a / 2, b / 2, n - 1);
    }
  }

  lemma ShiftedByte(a: nat)
    ensures Shifted(a, 8) == a / 256
  {
    assert Shifted(a, 8) == Shifted(a / 2 / 2, 6) == Shifted(a / 2 / 2 / 2 / 2, 4);
    var b := a / 2 / 2 / 2 / 2;
    assert b == a / 16;
    assert Shifted(b, 4) == Shifted(b / 2 / 2, 2) == b / 2 / 2 / 2 / 2 == b / 16;
  }

  /** A byte reaches only the low 8 bits. */
  lemma ByteStaysLow(h: nat, b: Byte)
    ensures Xor(h, b) / 256 == h / 256
  {
    ShiftedByte(h);
    ShiftedByte(b);
    ShiftedByte(Xor(h, b));
    XorHighBits(h, b, 8);
    XorZero(h / 256);
    hide Xor, Shifted;
  }

  lemma ProductIsFar(d: int, k: int, e: int)
    requires d * PRIME == k * MODULUS + e && -256 < d < 256 && d != 0
    ensures e <= -256 || 256 <= e
  {
  }

  /** Multiplying by the prime drives numbers that differ only in the low 8 bits further apart. */
  lemma ProductsPart(x: nat, y: nat)
    requires x < MODULUS && y < MODULUS && x != y && x / 256 == y / 256
    ensures x * PRIME % MODULUS / 256 != y * PRIME % MODULUS / 256
  {
    var p, q := x * PRIME % MODULUS, y * PRIME % MODULUS;
    var i, j := x * PRIME / MODULUS, y * PRIME / MODULUS;
    assert x * PRIME == i * MODULUS + p && y * PRIME == j * MODULUS + q;
    ProductIsFar(x - y, i - j, p - q);
  }

  lemma FirstRoundParts(h: nat, b: Byte, c: Byte)
    requires h < MODULUS && b != c
    ensures Round(h, b) / 256 != Round(h, c) / 256
  {
    if Xor(h, b) == Xor(h, c) {
      XorInjective(h, h, b, c);
    }
    XorBounded(h, b);
    XorBounded(h, c);
    ByteStaysLow(h, b);
    ByteStaysLow(h, c);
    hide Xor;
    ProductsPart(Xor(h, b), Xor(h, c));
  }

  lemma SecondRoundParts(p: nat, q: nat, b: Byte, c: Byte)
    requires p < MODULUS && q < MODULUS && p / 256 != q / 256
    ensures Round(p, b) != Round(q, c)
  {
    ByteStaysLow(p, b);
    ByteStaysLow(q, c);
    XorBounded(p, b);
    XorBounded(q, c);
    hide Xor;
    if Round(p, b) == Round(q, c) {
      TimesPrimeInjective(Xor(p, b), Xor(q, c));
    }
  }

  lemma HashOfTwo(h: nat, u: seq<Byte>)
    requires |u| == 2
    ensures HashFrom(h, u) == Round(Round(h, u[0]), u[1])
  {
    hide Round;
    var p := Round(h, u[0]);
    assert u[1..] == [u[1]] && [u[1]][1..] == [];
    assert HashFrom(h, u) == HashFrom(p, [u[1]]) == HashFrom(Round(p, u[1]), []);
  }

  lemma TwoRoundsPart(h: nat, u: seq<Byte>, v: seq<Byte>)
    requires h < MODULUS && |u| == |v| == 2 && u != v
    ensures HashFrom(h, u) != HashFrom(h, v)
  {
    HashOfTwo(h, u);
    HashOfTwo(h, v);
    assert u[0] != v[0] || u[1] != v[1];
    hide HashFrom, Round;
    var p, q := Round(h, u[0]), Round(h, v[0]);
    if u[0] != v[0] {
      FirstRoundParts(h, u[0], v[0]);
      SecondRoundParts(p, q, u[1], v[1]);
    } else if Round(p, u[1]) == Round(q, v[1]) {
      RoundInjective(p, q, u[1], v[1]);
    }
  }

  /** All differences between s and t lie within the bytes i and i + 1. */
  predicate DifferAt(s: seq<Byte>, t: seq<Byte>, i: nat) {
    |s| == |t| && forall j :: 0 <= j < |s| && s[j] != t[j] ==> i <= j <= i + 1
  }

  /** Two different byte strings of one length that differ only within two adjacent bytes never collide. */
  lemma AdjacentBytesDecide(s: seq<Byte>, t: seq<Byte>, i: nat)
    requires s != t && DifferAt(s, t, i)
    ensures Hash(s) != Hash(t)
  {
    var j :| 0 <= j < |s| && s[j] != t[j];
    if i + 2 <= |s| {
      var front, back, u, v := s[..i], s[i + 2..], s[i..i + 2], t[i..i + 2];
      assert s == front + u + back;
      assert t == front + v + back;
      CollisionIsLocal(front, u, v, back);
      HashBounded(OFFSET_BASIS, front);
      TwoRoundsPart(Hash(front), u, v);
    } else {
      OneByteDecides(s, t, j);
    }
  }

  // ----- published hashes

  lemma HashOfNothing()
    ensures Hash([]) == 0x811C_9DC5
  {
  }

  lemma FirstXorOfA()
    ensures Xor(OFFSET_BASIS, 0x61) == 0x811c9da4
  {
    XorZero(0x102393b);
    hide Xor;
    XorUnfold(0x2047277, 0x1);
    assert Xor(0x2047277, 0x1) == 0x2047276;
    XorUnfold(0x408e4ee, 0x3);
    assert Xor(0x408e4ee, 0x3) == 0x408e4ed;
    XorUnfold(0x811c9dc, 0x6);
    assert Xor(0x811c9dc, 0x6) == 0x811c9da;
    XorUnfold(0x102393b8, 0xc);
    assert Xor(0x102393b8, 0xc) == 0x102393b4;
    XorUnfold(0x20472771, 0x18);
    assert Xor(0x20472771, 0x18) == 0x20472769;
    XorUnfold(0x408e4ee2, 0x30);
    assert Xor(0x408e4ee2, 0x30) == 0x408e4ed2;
    XorUnfold(0x811c9dc5, 0x61);
    assert Xor(0x811c9dc5, 0x61) == 0x811c9da4;
  }

  /** The published hash of "a". */
  lemma HashOfA()
    ensures Hash([0x61]) == 0xE40C_292C
  {
    FirstXorOfA();
    hide Xor;
    var h := Round(OFFSET_BASIS, 0x61);
    assert h == 0xE40C_292C;
    assert [0x61][1..] == [];
    hide Round;
    assert HashFrom(OFFSET_BASIS, [0x61]) == HashFrom(h, []);
  }

  // ----- when the mask is applied does not matter

  function Unmasked(h: nat, s: seq<Byte>): nat
    decreases |s|
  {
    if s == [] then h else Unmasked(Xor(h, s[0]) * PRIME, s[1..])
  }

  lemma ModAddMultiple(y: nat, m: nat, c: nat)
    requires m > 0
    ensures (m * c + y) % m == y % m
  {
    assert y == m * (y / m) + y % m;
    assert m * c + y == m * (c + y / m) + y % m;
    ModUnique(m * c + y, m, c + y / m, y % m);
  }

  lemma Distribute(m: nat, q: nat, r: nat, k: nat)
    ensures (m * q + r) * k == m * (q * k) + r * k
  {
  }

  lemma ModTimes(x: nat, m: nat, k: nat)
    requires m > 0
    ensures x * k % m == x % m * k % m
  {
    var q, r := x / m, x % m;
    assert x == m * q + r;
    Distribute(m, q, r, k);
    ModAddMultiple(r * k, m, q * k);
  }

  /** Masking in every round gives the same hash as masking once at the end. */
  lemma {:induction false} MaskOnce(h: nat, s: seq<Byte>)
    ensures Unmasked(h, s) % MODULUS == if s == [] then h % MODULUS else HashFrom(h % MODULUS, s)
    decreases |s|
  {
    if s != [] {
      var x := Xor(h, s[0]);
      ModulusIsPow2();
      ModUnique(s[0], MODULUS, 0, s[0]);
      XorLowBits(h, s[0], 32);
      ModTimes(x, MODULUS, PRIME);
      hide Xor, Pow2;
      assert x % MODULUS == Xor(h % MODULUS, s[0]);
      assert x * PRIME % MODULUS == Round(h % MODULUS, s[0]);
      MaskOnce(x * PRIME, s[1..]);
    }
  }
}
