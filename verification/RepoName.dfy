/**
  Names of DVCR repositories. A name that would make the repository path too long is cut
  and gets the FNV-1a-64 hash of the whole name appended.
*/
module RepoName {
  import opened Bytes

  const REPO_NAME_MAX_LEN: nat := 255
  const DEFAULT_REGISTRY_HOST := "dvcr.d8-virtualization.svc"
  const HASH_LEN: nat := 16

  const DASH: Byte := 45
  const DOT: Byte := 46
  const UNDERSCORE: Byte := 95

  // ---------------------------------------------------------------- FNV-1a, 64 bits

  /** The states of the hash. */
  type Word = h: int | 0 <= h < 0x1_0000_0000_0000_0000

  const OFFSET_BASIS: Word := 14695981039346656037

  function Pow2(n: nat): nat {
    if n == 0 then 1 else 2 * Pow2(n - 1)
  }

  /** The exclusive or of the lowest `n` bits. */
  function Xor(a: nat, b: nat, n: nat): (r: nat)
    ensures r < Pow2(n)
  {
    if n == 0 then 0 else (a + b) % 2 + 2 * Xor(a / 2, b / 2, n - 1)
  }

  function Xor8(a: Byte, b: Byte): Byte {
    assert Pow2(4) == 16 && Pow2(6) == 64 && Pow2(8) == 256;
    Xor(a, b, 8)
  }

  /** A 64-bit state with a byte mixed into its lowest eight bits. */
  function XorByte(h: Word, b: Byte): (r: Word)
    ensures h - h % 256 <= r < h - h % 256 + 256
  {
    BlockFits(h);
    h - h % 256 + Xor8(h % 256, b)
  }

  lemma BlockFits(h: Word)
    ensures 0 <= h - h % 256 && h - h % 256 + 256 <= 0x1_0000_0000_0000_0000
  {
  }

  /** One byte: exclusive or, then times the FNV prime 2^40 + 2^8 + 0xb3. */
  function FnvStep(h: Word, b: Byte): Word {
    XorByte(h, b) * 1099511628211 % 0x1_0000_0000_0000_0000
  }

  function FnvFrom(h: Word, s: Bytes): Word
    decreases |s|
  {
    if s == [] then h else FnvFrom(FnvStep(h, s[0]), s[1..])
  }

  function Fnv(s: Bytes): Word {
    FnvFrom(OFFSET_BASIS, s)
  }

  function HexDigit(d: nat): Byte
    requires d < 16
  {
    if d < 10 then 48 + d else 87 + d
  }

  /** The lowest `n` hexadecimal digits, most significant first. */
  function Hex(h: nat, n: nat): (s: Bytes)
    ensures |s| == n
  {
    if n == 0 then [] else Hex(h / 16, n - 1) + [HexDigit(h % 16)]
  }

  function Hash(name: Bytes): Bytes {
    Hex(Fnv(name), HASH_LEN)
  }

  // ---------------------------------------------------------------- shortening

  predicate IsSeparator(b: Byte) {
    b == DASH || b == DOT || b == UNDERSCORE
  }

  function TrimRight(s: Bytes): (r: Bytes)
    ensures |r| <= |s| && r == s[..|r|]
    ensures r != [] ==> !IsSeparator(r[|r| - 1])
    ensures forall i :: |r| <= i < |s| ==> IsSeparator(s[i])
  {
    if s != [] && IsSeparator(s[|s| - 1]) then TrimRight(s[..|s| - 1]) else s
  }

  function Keep(prefixLen: nat): int {
    REPO_NAME_MAX_LEN - prefixLen - 1 - HASH_LEN
  }

  function Shorten(prefixLen: nat, name: Bytes): Bytes {
    if prefixLen + |name| <= REPO_NAME_MAX_LEN then name
    else if Keep(prefixLen) < 1 then Hash(name)
    else TrimRight(name[..Keep(prefixLen)]) + [DASH] + Hash(name)
  }

  function HostLen(host: Bytes): nat {
    (if host == [] then |DEFAULT_REGISTRY_HOST| else |host|) + 1
  }

  function ClusterImageRepoName(host: Bytes, name: Bytes): Bytes {
    Shorten(HostLen(host) + |"cvi/"|, name)
  }

  function ImageRepoName(host: Bytes, namespace: Bytes, name: Bytes): Bytes {
    Shorten(HostLen(host) + |"vi/"| + |namespace| + |"/"|, name)
  }

  function DiskRepoName(host: Bytes, namespace: Bytes, name: Bytes): Bytes {
    Shorten(HostLen(host) + |"vd/"| + |namespace| + |"/"|, name)
  }

  // ---------------------------------------------------------------- the hash is FNV-1a

  lemma MultipleAtLeast(p: int, d: int)
    requires p >= 0
    ensures d >= 1 ==> p * d >= p
    ensures d <= -1 ==> p * d <= -p
  {
    assert p * d - p == p * (d - 1) && p * d + p == p * (d + 1);
  }

  lemma DivUnique(x: nat, p: nat, q: nat, r: nat)
    requires p > 0 && x == p * q + r && r < p
    ensures x / p == q
  {
    var d := x / p - q;
    assert p * d == r - x % p;
    MultipleAtLeast(p, d);
  }

  lemma DivDiv(x: nat, p: nat)
    requires p > 0
    ensures x / (2 * p) == (x / 2) / p
  {
    var q, r := (x / 2) / p, (x / 2) % p;
    assert x / 2 == p * q + r;
    assert x == (2 * p) * q + (2 * r + x % 2);
    DivUnique(x, 2 * p, q, 2 * r + x % 2);
  }

  lemma {:induction false} Pow2IsPositive(n: nat)
    ensures Pow2(n) > 0
  {
    if n > 0 {
      Pow2IsPositive(n - 1);
    }
  }

  predicate Bit(x: nat, i: nat) {
    if i == 0 then x % 2 == 1 else Bit(x / 2, i - 1)
  }

  lemma {:induction false} BitIsOfQuotient(x: nat, i: nat)
    ensures Pow2(i) > 0
    ensures Bit(x, i) <==> (x / Pow2(i)) % 2 == 1
  {
    Pow2IsPositive(i);
    if i > 0 {
      Pow2IsPositive(i - 1);
      DivDiv(x, Pow2(i - 1));
      BitIsOfQuotient(x / 2, i - 1);
    }
  }

  lemma XorHalves(a: nat, b: nat, n: nat)
    requires n > 0
    ensures Xor(a, b, n) / 2 == Xor(a / 2, b / 2, n - 1) && Xor(a, b, n) % 2 == (a + b) % 2
  {
  }

  lemma OddSum(a: nat, b: nat)
    ensures (a + b) % 2 == 1 <==> (a % 2 == 1) != (b % 2 == 1)
  {
  }

  /** Bit by bit, the result is set exactly where the operands differ. */
  lemma {:induction false} XorBits(a: nat, b: nat, n: nat, i: nat)
    requires i < n
    ensures Bit(Xor(a, b, n), i) <==> Bit(a, i) != Bit(b, i)
    decreases n
  {
    XorHalves(a, b, n);
    if i > 0 {
      XorBits(a / 2, b / 2, n - 1, i - 1);
    } else {
      OddSum(a, b);
    }
  }

  /** Mixing in a byte leaves the upper 56 bits alone and flips the lower ones where the byte is set. */
  lemma MixedBits(h: Word, b: Byte, i: nat)
    requires i < 8
    ensures XorByte(h, b) / 256 == h / 256
    ensures Bit(XorByte(h, b) % 256, i) <==> Bit(h % 256, i) != Bit(b, i)
  {
    XorBits(h % 256, b, 8, i);
  }

  lemma FnvFromOne(h: Word, b: Byte)
    ensures FnvFrom(h, [b]) == FnvStep(h, b)
  {
    var s := [b];
    assert s[0] == b && s[1..] == [];
    assert FnvFrom(h, s) == FnvFrom(FnvStep(h, s[0]), s[1..]);
  }

  /** Bytes are mixed in from the left. */
  lemma FnvNext(s: Bytes, b: Byte)
    ensures Fnv(s + [b]) == XorByte(Fnv(s), b) * 1099511628211 % 0x1_0000_0000_0000_0000
  {
    FnvAppend(OFFSET_BASIS, s, [b]);
    FnvFromOne(Fnv(s), b);
  }

  lemma XorLetter(a: nat, b: nat)
    requires a == 37 && b == 97
    ensures Xor8(a, b) == 68
  {
    assert Xor(0, 0, 1) == 0;
    assert Xor(0, 1, 2) == 1;
    assert Xor(1, 3, 3) == 2;
    assert Xor(2, 6, 4) == 4;
    assert Xor(4, 12, 5) == 8;
    assert Xor(9, 24, 6) == 17;
    assert Xor(18, 48, 7) == 34;
  }

  lemma FirstLetter(h: Word, b: Byte)
    requires h == 14695981039346656037 && b == 97
    ensures FnvStep(h, b) == 0xaf63_dc4c_8601_ec8c
  {
    XorLetter(h % 256, b);
  }

  /** The published values for nothing and for the letter a. */
  lemma FnvVectors()
    ensures Fnv([]) == 0xcbf2_9ce4_8422_2325
    ensures Fnv([97]) == 0xaf63_dc4c_8601_ec8c
  {
    FnvFromOne(OFFSET_BASIS, 97);
    FirstLetter(OFFSET_BASIS, 97);
  }

  /** The number that hexadecimal digits denote, by their codes. */
  function Unhex(s: Bytes): int {
    if s == [] then 0
    else 16 * Unhex(s[..|s| - 1]) + (var c: int := s[|s| - 1]; if c <= 57 then c - 48 else c - 87)
  }

  lemma ModPow(h: nat, p: nat)
    requires p > 0
    ensures h % (16 * p) == 16 * ((h / 16) % p) + h % 16
  {
    var q, r := (h / 16) / p, (h / 16) % p;
    assert h / 16 == p * q + r;
    assert h == (16 * p) * q + (16 * r + h % 16);
    DivUnique(h, 16 * p, q, 16 * r + h % 16);
  }

  /** The digits are 0 to 9 and a to f and denote the lowest digits of the number. */
  lemma {:induction false} HexDenotes(h: nat, n: nat)
    ensures Pow16(n) > 0 && Unhex(Hex(h, n)) == h % Pow16(n)
    ensures forall i :: 0 <= i < n ==> 48 <= Hex(h, n)[i] <= 57 || 97 <= Hex(h, n)[i] <= 102
  {
    if n > 0 {
      HexDenotes(h / 16, n - 1);
      ModPow(h, Pow16(n - 1));
      assert Hex(h, n)[..n - 1] == Hex(h / 16, n - 1);
    }
  }

  // ---------------------------------------------------------------- the hash keeps near names apart

  lemma LowBits(a: nat, b: nat, x: nat, y: nat)
    requires (a + x) % 2 == (b + y) % 2
    ensures a % 2 == b % 2 <==> x % 2 == y % 2
  {
  }

  lemma SameHalves(a: nat, b: nat)
    ensures a == b <==> a % 2 == b % 2 && a / 2 == b / 2
  {
  }

  lemma {:induction false} XorDetermines(a: nat, b: nat, x: nat, y: nat, n: nat)
    requires a < Pow2(n) && b < Pow2(n) && x < Pow2(n) && y < Pow2(n)
    requires Xor(a, x, n) == Xor(b, y, n)
    ensures a == b <==> x == y
    decreases n
  {
    if n > 0 {
      var p, q := Xor(a / 2, x / 2, n - 1), Xor(b / 2, y / 2, n - 1);
      assert (a + x) % 2 + 2 * p == (b + y) % 2 + 2 * q;
      LowBits(a, b, x, y);
      XorDetermines(a / 2, b / 2, x / 2, y / 2, n - 1);
      SameHalves(a, b);
      SameHalves(x, y);
    }
  }

  lemma Xor8Determines(a: Byte, b: Byte, x: Byte, y: Byte)
    requires Xor8(a, x) == Xor8(b, y)
    ensures a == b <==> x == y
  {
    assert Pow2(4) == 16 && Pow2(6) == 64 && Pow2(8) == 256;
    XorDetermines(a, b, x, y, 8);
  }

  /** Mixing different bytes into one state, or one byte into different states, shows. */
  lemma XorByteDetermines(g: Word, h: Word, a: Byte, b: Byte)
    requires XorByte(g, a) == XorByte(h, b)
    ensures g / 256 == h / 256
    ensures g == h <==> a == b
  {
    SameBlock(g, h, XorByte(g, a));
    Xor8Determines(g % 256, h % 256, a, b);
  }

  lemma SameBlock(g: nat, h: nat, r: nat)
    requires g - g % 256 <= r < g - g % 256 + 256
    requires h - h % 256 <= r < h - h % 256 + 256
    ensures g / 256 == h / 256 && g - g % 256 == h - h % 256
  {
  }

  /** The prime is odd: it has the inverse 14886173955864302971 modulo 2^64. */
  lemma OddMultiplier(d: int, k: int)
    requires d * 1099511628211 == k * 0x1_0000_0000_0000_0000
    requires -0x1_0000_0000_0000_0000 < d < 0x1_0000_0000_0000_0000
    ensures d == 0
  {
    var t := k * 14886173955864302971 - d * 887285111055;
    assert d == t * 0x1_0000_0000_0000_0000;
  }

  /** The difference of two products with the prime, up to a multiple of 2^64. */
  lemma ProductDifference(x: Word, y: Word) returns (k: int)
    ensures x * 1099511628211 % 0x1_0000_0000_0000_0000 - y * 1099511628211 % 0x1_0000_0000_0000_0000
         == (x - y) * 1099511628211 - k * 0x1_0000_0000_0000_0000
  {
    k := x * 1099511628211 / 0x1_0000_0000_0000_0000 - y * 1099511628211 / 0x1_0000_0000_0000_0000;
  }

  /** Every step permutes the states. */
  lemma TimesPrimeIsInjective(x: Word, y: Word)
    requires x * 1099511628211 % 0x1_0000_0000_0000_0000 == y * 1099511628211 % 0x1_0000_0000_0000_0000
    ensures x == y
  {
    var k := ProductDifference(x, y);
    OddMultiplier(x - y, k);
  }

  /**
    956575116354345 is the square of the prime modulo 2^64, that is 870 * 2^40 + 189225:
    small multiples of it and of the prime never meet close to a multiple of 2^64.
  */
  lemma FarFromMultiples(d: int, e: int, f: int, k: int)
    requires -256 < d < 256 && -511 < e < 511 && -256 < f < 256
    requires d * 956575116354345 + e * 1099511628211 - f == k * 0x1_0000_0000_0000_0000
    ensures d == 0 && e == 0
  {
    assert k == 0;
    assert (870 * d + e) * 0x100_0000_0000 == f - 189225 * d - 435 * e;
    assert 870 * d + e == 0;
  }

  lemma FnvThree(h: Word, s: Bytes)
    requires |s| == 3
    ensures FnvFrom(h, s) == FnvStep(FnvStep(FnvStep(h, s[0]), s[1]), s[2])
  {
    assert s == [s[0], s[1], s[2]] && s[1..] == [s[1], s[2]];
    assert [s[1], s[2]][1..] == [s[2]] && [s[2]][1..] == [];
    var g := FnvStep(h, s[0]);
    assert FnvFrom(g, [s[1], s[2]]) == FnvFrom(FnvStep(g, s[1]), [s[2]]);
    assert FnvFrom(FnvStep(g, s[1]), [s[2]]) == FnvFrom(FnvStep(FnvStep(g, s[1]), s[2]), []);
  }

  /** Two bytes from one state: a small difference, times the prime. */
  lemma FirstStep(h: Word, a: Byte, b: Byte) returns (d: int, k: int)
    ensures -256 < d < 256 && (d == 0 ==> a == b)
    ensures FnvStep(h, a) - FnvStep(h, b) == d * 1099511628211 - k * 0x1_0000_0000_0000_0000
  {
    var x: int, y: int := XorByte(h, a), XorByte(h, b);
    d := x - y;
    k := ProductDifference(x, y);
    if d == 0 {
      XorByteDetermines(h, h, a, b);
    }
  }

  /** Two bytes from two states: the difference moves a little, then times the prime. */
  lemma MiddleStep(g: Word, h: Word, a: Byte, b: Byte) returns (z: int, k: int)
    ensures -511 < z - (g - h) < 511 && (g == h && z == 0 ==> a == b)
    ensures FnvStep(g, a) - FnvStep(h, b) == z * 1099511628211 - k * 0x1_0000_0000_0000_0000
  {
    var x: int, y: int := XorByte(g, a), XorByte(h, b);
    z := x - y;
    k := ProductDifference(x, y);
    if g == h && z == 0 {
      XorByteDetermines(g, h, a, b);
    }
  }

  /** States that one more byte makes equal are closer than 256. */
  lemma LastStep(g: Word, h: Word, a: Byte, b: Byte)
    requires FnvStep(g, a) == FnvStep(h, b)
    ensures -256 < g - h < 256 && (g == h ==> a == b)
  {
    TimesPrimeIsInjective(XorByte(g, a), XorByte(h, b));
    XorByteDetermines(g, h, a, b);
  }

  lemma Chain(w: int, f: int, d: int, k1: int, z: int, k2: int)
    requires -256 < d < 256 && -511 < z - w < 511 && -256 < f < 256
    requires w == d * 1099511628211 - k1 * 0x1_0000_0000_0000_0000
    requires f == z * 1099511628211 - k2 * 0x1_0000_0000_0000_0000
    requires -0x1_0000_0000_0000_0000 < w < 0x1_0000_0000_0000_0000
    ensures d == 0 && w == 0 && z == 0 && f == 0
  {
    FarFromMultiples(d, z - w, f, k1 * 1099511628211 + k2 - d * 65536);
  }

  /** From one state, three bytes lead to a state no other three bytes lead to. */
  lemma ThreeStepsDetermined(h: Word, a0: Byte, a1: Byte, a2: Byte, b0: Byte, b1: Byte, b2: Byte)
    ensures FnvStep(FnvStep(FnvStep(h, a0), a1), a2) == FnvStep(FnvStep(FnvStep(h, b0), b1), b2) <==>
            a0 == b0 && a1 == b1 && a2 == b2
  {
    var u, v := FnvStep(h, a0), FnvStep(h, b0);
    var u2, v2 := FnvStep(u, a1), FnvStep(v, b1);
    if FnvStep(u2, a2) == FnvStep(v2, b2) {
      var d, k1 := FirstStep(h, a0, b0);
      var z, k2 := MiddleStep(u, v, a1, b1);
      LastStep(u2, v2, a2, b2);
      Chain(u as int - v as int, u2 as int - v2 as int, d, k1, z, k2);
    }
  }

  lemma ThreeBytesDetermined(h: Word, a: Bytes, b: Bytes)
    requires |a| == 3 && |b| == 3 && FnvFrom(h, a) == FnvFrom(h, b)
    ensures a == b
  {
    FnvThree(h, a);
    FnvThree(h, b);
    ThreeStepsDetermined(h, a[0], a[1], a[2], b[0], b[1], b[2]);
  }

  lemma {:induction false} FnvAppend(h: Word, s: Bytes, t: Bytes)
    ensures FnvFrom(h, s + t) == FnvFrom(FnvFrom(h, s), t)
    decreases |s|
  {
    if s == [] {
      assert s + t == t;
    } else {
      assert (s + t)[1..] == s[1..] + t;
      FnvAppend(FnvStep(h, s[0]), s[1..], t);
    }
  }

  /** A common suffix forgets nothing. */
  lemma {:induction false} SuffixKeepsApart(g: Word, h: Word, s: Bytes)
    requires FnvFrom(g, s) == FnvFrom(h, s)
    ensures g == h
    decreases |s|
  {
    if s != [] {
      SuffixKeepsApart(FnvStep(g, s[0]), FnvStep(h, s[0]), s[1..]);
      TimesPrimeIsInjective(XorByte(g, s[0]), XorByte(h, s[0]));
      XorByteDetermines(g, h, s[0], s[0]);
    }
  }

  /** Up to three bytes, padded alike to three. */
  lemma WindowDetermined(h: Word, a: Bytes, b: Bytes)
    requires |a| == |b| <= 3 && FnvFrom(h, a) == FnvFrom(h, b)
    ensures a == b
  {
    var pad := Zeros(3 - |a|);
    FnvAppend(h, a, pad);
    FnvAppend(h, b, pad);
    ThreeBytesDetermined(h, a + pad, b + pad);
    assert a == (a + pad)[..|a|] && b == (b + pad)[..|a|];
  }

  /** `m` and `n` have the same length and differ at most in bytes i, i+1 and i+2. */
  predicate DifferWithin(m: Bytes, n: Bytes, i: nat) {
    |m| == |n| && i <= |m| && m[..i] == n[..i] && m[Min(i + 3, |m|)..] == n[Min(i + 3, |m|)..]
  }

  /** The hash of a name in three stretches. */
  lemma FnvInStretches(m: Bytes, i: nat, j: nat)
    requires i <= j <= |m|
    ensures Fnv(m) == FnvFrom(FnvFrom(FnvFrom(OFFSET_BASIS, m[..i]), m[i..j]), m[j..])
    ensures m == m[..i] + m[i..j] + m[j..]
  {
    assert m == m[..i] + m[i..] && m[i..] == m[i..j] + m[j..];
    FnvAppend(OFFSET_BASIS, m[..i], m[i..]);
    FnvAppend(FnvFrom(OFFSET_BASIS, m[..i]), m[i..j], m[j..]);
  }

  lemma NearNamesHashApart(m: Bytes, n: Bytes, i: nat)
    requires DifferWithin(m, n, i)
    ensures Fnv(m) == Fnv(n) <==> m == n
  {
    var j := Min(i + 3, |m|);
    var h := FnvFrom(OFFSET_BASIS, m[..i]);
    FnvInStretches(m, i, j);
    FnvInStretches(n, i, j);
    if Fnv(m) == Fnv(n) {
      SuffixKeepsApart(FnvFrom(h, m[i..j]), FnvFrom(h, n[i..j]), m[j..]);
      WindowDetermined(h, m[i..j], n[i..j]);
    }
  }

  // ---------------------------------------------------------------- the names

  function Pow16(n: nat): nat {
    if n == 0 then 1 else 16 * Pow16(n - 1)
  }

  lemma SixteenDigits()
    ensures Pow16(16) == 0x1_0000_0000_0000_0000
  {
    assert Pow16(4) == 0x1_0000 && Pow16(8) == 0x1_0000_0000 && Pow16(12) == 0x1_0000_0000_0000;
  }

  lemma {:induction false} HexIsInjective(g: nat, h: nat, n: nat)
    requires g < Pow16(n) && h < Pow16(n) && Hex(g, n) == Hex(h, n)
    ensures g == h
  {
    if n > 0 {
      var p, q := Hex(g / 16, n - 1), Hex(h / 16, n - 1);
      assert p == Hex(g, n)[..n - 1] && q == Hex(h, n)[..n - 1];
      assert HexDigit(g % 16) == Hex(g, n)[n - 1] == HexDigit(h % 16);
      HexIsInjective(g / 16, h / 16, n - 1);
    }
  }

  /** Names of one length that differ within three adjacent bytes get different repositories. */
  lemma NearNamesStayApart(prefixLen: nat, m: Bytes, n: Bytes, i: nat)
    requires DifferWithin(m, n, i)
    ensures Shorten(prefixLen, m) == Shorten(prefixLen, n) <==> m == n
  {
    if prefixLen + |m| > REPO_NAME_MAX_LEN && Shorten(prefixLen, m) == Shorten(prefixLen, n) {
      LongNamesShareExactlyWhen(prefixLen, m, n);
      NearNamesHashApart(m, n, i);
    }
  }

  /** The path stays within the limit exactly when the name fits or the hash does. */
  lemma PathFitsExactlyWhen(prefixLen: nat, name: Bytes)
    ensures prefixLen + |Shorten(prefixLen, name)| <= REPO_NAME_MAX_LEN <==>
            prefixLen + |name| <= REPO_NAME_MAX_LEN || prefixLen + HASH_LEN <= REPO_NAME_MAX_LEN
  {
  }

  /**
    The parts of a shortened name, in numbers: up to 238 bytes less the prefix, without the
    separators they end in, a dash, and sixteen digits that denote the hash; the digits alone
    if the prefix leaves no room for more.
  */
  lemma ShortenedParts(prefixLen: nat, name: Bytes)
    requires prefixLen + |name| > 255
    ensures var r := Shorten(prefixLen, name);
            && |r| >= 16 && Unhex(r[|r| - 16..]) == Fnv(name)
            && (prefixLen >= 238 ==> |r| == 16)
            && (prefixLen < 238 ==>
                  && |r| >= 17 && |r| - 17 <= 238 - prefixLen && r[|r| - 17] == 45
                  && r[..|r| - 17] == name[..|r| - 17]
                  && (|r| > 17 ==> r[|r| - 18] != 45 && r[|r| - 18] != 46 && r[|r| - 18] != 95)
                  && forall i :: |r| - 17 <= i < 238 - prefixLen ==> name[i] == 45 || name[i] == 46 || name[i] == 95)
  {
    var r, hash := Shorten(prefixLen, name), Hash(name);
    HashDenotes(name);
    if prefixLen < 238 {
      var keep := 238 - prefixLen;
      TrimmedCut(name, keep);
      Joints(TrimRight(name[..keep]), hash);
    } else {
      assert r[0..] == hash;
    }
  }

  lemma WordDenotes(h: nat, n: nat)
    requires h < Pow16(n)
    ensures Unhex(Hex(h, n)) == h
  {
    HexDenotes(h, n);
  }

  lemma HashDenotes(name: Bytes)
    ensures |Hash(name)| == 16 && Unhex(Hash(name)) == Fnv(name)
  {
    SixteenDigits();
    WordDenotes(Fnv(name), HASH_LEN);
  }

  lemma Joints(kept: Bytes, hash: Bytes)
    ensures var r := kept + [DASH] + hash;
            r[..|kept|] == kept && r[|kept|] == 45 && r[|kept| + 1..] == hash
  {
  }

  lemma TrimmedCut(name: Bytes, keep: nat)
    requires keep <= |name|
    ensures var kept := TrimRight(name[..keep]);
            && |kept| <= keep && kept == name[..|kept|]
            && (kept != [] ==> !IsSeparator(kept[|kept| - 1]))
            && forall i :: |kept| <= i < keep ==> IsSeparator(name[i])
  {
    var cut, kept := name[..keep], TrimRight(name[..keep]);
    assert kept == cut[..|kept|] == name[..|kept|];
    forall i | |kept| <= i < keep
      ensures IsSeparator(name[i])
    {
      assert cut[i] == name[i];
    }
  }

  lemma KeptAt(prefixLen: nat, name: Bytes)
    ensures prefixLen + |name| <= 255 ==> Shorten(prefixLen, name) == name
    ensures prefixLen <= 239 && prefixLen + |name| > 255 ==> Shorten(prefixLen, name) != name
  {
    if prefixLen <= 239 && prefixLen + |name| > 255 {
      ShortenedParts(prefixLen, name);
    }
  }

  /** Which names of the three kinds of resources are kept, in numbers. */
  lemma KeptExactlyWhen(host: Bytes, namespace: Bytes, name: Bytes)
    ensures var h := if host == [] then 26 else |host|;
            && (h + 5 + |name| <= 255 ==> ClusterImageRepoName(host, name) == name)
            && (h + 5 + |namespace| + |name| <= 255 ==>
                  ImageRepoName(host, namespace, name) == name == DiskRepoName(host, namespace, name))
            && (h + 5 <= 239 ==> (ClusterImageRepoName(host, name) == name <==> h + 5 + |name| <= 255))
            && (h + 5 + |namespace| <= 239 ==>
                  && (ImageRepoName(host, namespace, name) == name <==> h + 5 + |namespace| + |name| <= 255)
                  && (DiskRepoName(host, namespace, name) == name <==> h + 5 + |namespace| + |name| <= 255))
  {
    var h := if host == [] then 26 else |host|;
    KeptAt(h + 5, name);
    KeptAt(h + 5 + |namespace|, name);
  }

  /** Names that fit are kept, and shortening a shortened name changes nothing. */
  lemma ShortenIsIdempotent(prefixLen: nat, name: Bytes)
    requires prefixLen + HASH_LEN <= REPO_NAME_MAX_LEN
    ensures Shorten(prefixLen, Shorten(prefixLen, name)) == Shorten(prefixLen, name)
    ensures prefixLen + |name| <= REPO_NAME_MAX_LEN <==> Shorten(prefixLen, name) == name
  {
    PathFitsExactlyWhen(prefixLen, name);
  }

  /** What a shortened name has before its hash. */
  function Stem(prefixLen: nat, name: Bytes): Bytes
    requires prefixLen + |name| > REPO_NAME_MAX_LEN
  {
    if Keep(prefixLen) < 1 then [] else TrimRight(name[..Keep(prefixLen)]) + [DASH]
  }

  lemma ShortenIsStemAndHash(prefixLen: nat, name: Bytes)
    requires prefixLen + |name| > REPO_NAME_MAX_LEN
    ensures Shorten(prefixLen, name) == Stem(prefixLen, name) + Hash(name)
  {
    assert [] + Hash(name) == Hash(name);
  }

  lemma HashesEqualExactlyWhen(m: Bytes, n: Bytes)
    ensures Hash(m) == Hash(n) <==> Fnv(m) == Fnv(n)
  {
    if Hash(m) == Hash(n) {
      SixteenDigits();
      HexIsInjective(Fnv(m), Fnv(n), HASH_LEN);
    }
  }

  lemma SameTails(a: Bytes, x: Bytes, b: Bytes, y: Bytes)
    requires |x| == |y|
    ensures a + x == b + y <==> a == b && x == y
  {
    if a + x == b + y {
      assert |a| == |b|;
      assert a == (a + x)[..|a|] && b == (b + y)[..|a|];
      assert x == (a + x)[|a|..] && y == (b + y)[|a|..];
    }
  }

  lemma StemsEqualExactlyWhen(prefixLen: nat, m: Bytes, n: Bytes)
    requires prefixLen + |m| > REPO_NAME_MAX_LEN && prefixLen + |n| > REPO_NAME_MAX_LEN
    ensures Stem(prefixLen, m) == Stem(prefixLen, n) <==>
            (Keep(prefixLen) >= 1 ==> TrimRight(m[..Keep(prefixLen)]) == TrimRight(n[..Keep(prefixLen)]))
  {
    if Keep(prefixLen) >= 1 {
      SameTails(TrimRight(m[..Keep(prefixLen)]), [DASH], TrimRight(n[..Keep(prefixLen)]), [DASH]);
    }
  }

  /** Two names that do not fit share a repository exactly if hashes and trimmed cuts agree. */
  lemma LongNamesShareExactlyWhen(prefixLen: nat, m: Bytes, n: Bytes)
    requires prefixLen + |m| > REPO_NAME_MAX_LEN && prefixLen + |n| > REPO_NAME_MAX_LEN
    ensures Shorten(prefixLen, m) == Shorten(prefixLen, n) <==>
            && Fnv(m) == Fnv(n)
            && (Keep(prefixLen) >= 1 ==> TrimRight(m[..Keep(prefixLen)]) == TrimRight(n[..Keep(prefixLen)]))
  {
    ShortenIsStemAndHash(prefixLen, m);
    ShortenIsStemAndHash(prefixLen, n);
    SameTails(Stem(prefixLen, m), Hash(m), Stem(prefixLen, n), Hash(n));
    HashesEqualExactlyWhen(m, n);
    StemsEqualExactlyWhen(prefixLen, m, n);
  }

  /** `m` is spelled like a long name's trimmed cut, a dash and its hash. */
  predicate SpellsShortened(prefixLen: nat, m: Bytes, n: Bytes)
    requires prefixLen + |n| > REPO_NAME_MAX_LEN
  {
    && |m| == |Stem(prefixLen, n)| + HASH_LEN
    && m[..|m| - HASH_LEN] == Stem(prefixLen, n) && m[|m| - HASH_LEN..] == Hash(n)
  }

  /**
    A name that fits and one that does not share a repository exactly if the first one ends
    with the hash of the second and begins with its trimmed cut and a dash.
  */
  lemma MixedNamesShareExactlyWhen(prefixLen: nat, m: Bytes, n: Bytes)
    requires prefixLen + |m| <= REPO_NAME_MAX_LEN < prefixLen + |n|
    ensures Shorten(prefixLen, m) == Shorten(prefixLen, n) <==> SpellsShortened(prefixLen, m, n)
  {
    ShortenIsStemAndHash(prefixLen, n);
    if |m| == |Stem(prefixLen, n)| + HASH_LEN {
      SameTails(m[..|m| - HASH_LEN], m[|m| - HASH_LEN..], Stem(prefixLen, n), Hash(n));
      assert m == m[..|m| - HASH_LEN] + m[|m| - HASH_LEN..];
    }
  }

  /** When two names share a repository. */
  predicate Share(prefixLen: nat, m: Bytes, n: Bytes) {
    var mFits, nFits := prefixLen + |m| <= REPO_NAME_MAX_LEN, prefixLen + |n| <= REPO_NAME_MAX_LEN;
    if mFits && nFits then m == n
    else if mFits then SpellsShortened(prefixLen, m, n)
    else if nFits then SpellsShortened(prefixLen, n, m)
    else Fnv(m) == Fnv(n)
         && (Keep(prefixLen) >= 1 ==> TrimRight(m[..Keep(prefixLen)]) == TrimRight(n[..Keep(prefixLen)]))
  }

  /** For any two names and any prefix. */
  lemma ShareExactlyWhen(prefixLen: nat, m: Bytes, n: Bytes)
    ensures Shorten(prefixLen, m) == Shorten(prefixLen, n) <==> Share(prefixLen, m, n)
  {
    var mFits, nFits := prefixLen + |m| <= REPO_NAME_MAX_LEN, prefixLen + |n| <= REPO_NAME_MAX_LEN;
    if mFits && !nFits {
      MixedNamesShareExactlyWhen(prefixLen, m, n);
    } else if !mFits && nFits {
      MixedNamesShareExactlyWhen(prefixLen, n, m);
    } else if !mFits {
      LongNamesShareExactlyWhen(prefixLen, m, n);
    }
  }

  // ---------------------------------------------------------------- the grammar

  predicate Alnum(b: Byte) {
    48 <= b <= 57 || 97 <= b <= 122
  }

  predicate AllAlnum(s: Bytes) {
    forall i :: 0 <= i < |s| ==> Alnum(s[i])
  }

  /** A label of RFC 1123 in lower case. */
  predicate Label(s: Bytes) {
    && s != [] && Alnum(s[0]) && Alnum(s[|s| - 1])
    && forall i :: 0 <= i < |s| ==> Alnum(s[i]) || s[i] == DASH
  }

  function Dotted(labels: seq<Bytes>): Bytes
    requires labels != []
  {
    if |labels| == 1 then labels[0] else labels[0] + [DOT] + Dotted(labels[1..])
  }

  /** Labels joined by dots. */
  ghost predicate Subdomain(s: Bytes) {
    exists labels: seq<Bytes> ::
      labels != [] && (forall i :: 0 <= i < |labels| ==> Label(labels[i])) && s == Dotted(labels)
  }

  predicate SeparatorRun(s: Bytes) {
    || s == [DOT] || s == [UNDERSCORE] || s == [UNDERSCORE, UNDERSCORE]
    || (s != [] && forall i :: 0 <= i < |s| ==> s[i] == DASH)
  }

  /** A repository path component: [a-z0-9]+((\.|_|__|-+)[a-z0-9]+)* */
  ghost predicate Component(s: Bytes) {
    exists n :: 1 <= n <= |s| && AllAlnum(s[..n]) && ComponentTail(s[n..])
  }

  ghost predicate ComponentTail(s: Bytes)
    decreases |s|, 1
  {
    s == [] || exists k, m :: GoesOn(s, k, m)
  }

  /** A separator run up to `k`, letters and digits up to `m`, and a tail again. */
  ghost predicate GoesOn(s: Bytes, k: nat, m: nat)
    decreases |s|, 0
  {
    1 <= k < m <= |s| && SeparatorRun(s[..k]) && AllAlnum(s[k..m]) && ComponentTail(s[m..])
  }

  /** Like a name, possibly cut off: a dot never stands next to another separator. */
  predicate NameLike(s: Bytes) {
    && s != [] && Alnum(s[0])
    && (forall i :: 0 <= i < |s| ==> Alnum(s[i]) || s[i] == DASH || s[i] == DOT)
    && (forall i :: 0 < i < |s| && s[i] == DOT ==> Alnum(s[i - 1]))
    && (forall i :: 0 <= i < |s| - 1 && s[i] == DOT ==> Alnum(s[i + 1]))
  }

  lemma DottedIsNameLike(a: Bytes, b: Bytes)
    requires Label(a) && NameLike(b)
    ensures NameLike(a + [DOT] + b)
  {
  }

  lemma {:induction false} LabelsAreNameLike(labels: seq<Bytes>)
    requires labels != [] && forall i :: 0 <= i < |labels| ==> Label(labels[i])
    ensures var s := Dotted(labels);
            NameLike(s) && Alnum(s[|s| - 1])
  {
    if |labels| > 1 {
      LabelsAreNameLike(labels[1..]);
      DottedIsNameLike(labels[0], Dotted(labels[1..]));
    }
  }

  lemma TrimmedIsNameLike(s: Bytes)
    requires NameLike(s)
    ensures NameLike(TrimRight(s)) && Alnum(TrimRight(s)[|TrimRight(s)| - 1])
  {
    var r := TrimRight(s);
    assert !IsSeparator(s[0]);
    assert r[0] == s[0];
  }

  lemma HexIsAlnum(h: nat, n: nat)
    ensures AllAlnum(Hex(h, n))
  {
  }

  lemma JoinedIsNameLike(s: Bytes, t: Bytes)
    requires NameLike(s) && Alnum(s[|s| - 1]) && AllAlnum(t) && t != []
    ensures NameLike(s + [DASH] + t) && Alnum((s + [DASH] + t)[|s| + |t|])
  {
  }

  /** The length of the leading run of letters and digits. */
  function AlnumRun(s: Bytes): (n: nat)
    ensures n <= |s| && AllAlnum(s[..n]) && (n < |s| ==> !Alnum(s[n]))
  {
    if s == [] || !Alnum(s[0]) then 0 else 1 + AlnumRun(s[1..])
  }

  function DashRun(s: Bytes): (n: nat)
    ensures n <= |s| && (forall i :: 0 <= i < n ==> s[i] == DASH) && (n < |s| ==> s[n] != DASH)
  {
    if s == [] || s[0] != DASH then 0 else 1 + DashRun(s[1..])
  }

  lemma SlicesOfRest(s: Bytes, k: nat, n: nat)
    requires k + n <= |s|
    ensures s[k..][..n] == s[k..k + n] && s[k..][n..] == s[k + n..]
  {
  }

  /** A component behind a separator is the tail of a component. */
  lemma TailFromComponent(s: Bytes, k: nat)
    requires 1 <= k < |s| && SeparatorRun(s[..k]) && Component(s[k..])
    ensures ComponentTail(s)
  {
    var c := s[k..];
    var n :| 1 <= n <= |c| && AllAlnum(c[..n]) && ComponentTail(c[n..]);
    SlicesOfRest(s, k, n);
    assert GoesOn(s, k, k + n);
  }

  /** What follows a separator run in a name is a name again. */
  lemma RestIsNameLike(s: Bytes, j: nat)
    requires NameLike(s) && Alnum(s[|s| - 1]) && j < |s| && Alnum(s[j])
    ensures NameLike(s[j..]) && Alnum(s[j..][|s| - j - 1])
  {
  }

  /** Behind the leading letters there is one separator run and then a letter again. */
  lemma SeparatorAhead(s: Bytes, n: nat) returns (k: nat)
    requires NameLike(s) && Alnum(s[|s| - 1]) && 0 < n < |s| && !Alnum(s[n])
    ensures 1 <= k && n + k < |s| && Alnum(s[n + k]) && SeparatorRun(s[n..n + k])
  {
    if s[n] == DOT {
      k := 1;
    } else {
      k := DashRun(s[n..]);
      assert s[n..][k - 1] == s[n + k - 1] == DASH;
      assert forall i :: n <= i < n + k ==> s[i] == s[n..][i - n];
      if n + k < |s| {
        assert s[n..][k] == s[n + k];
      }
    }
  }

  lemma {:induction false} NameLikeIsComponent(s: Bytes)
    requires NameLike(s) && Alnum(s[|s| - 1])
    ensures Component(s)
    decreases |s|
  {
    var n := AlnumRun(s);
    if n < |s| {
      var k := SeparatorAhead(s, n);
      RestIsNameLike(s, n + k);
      NameLikeIsComponent(s[n + k..]);
      assert ComponentTail(s[n..]) by {
        assert s[n..][..k] == s[n..n + k] && s[n..][k..] == s[n + k..];
        TailFromComponent(s[n..], k);
      }
    }
  }

  /** Where the first dot is, or the end. */
  function DotAt(s: Bytes): (n: nat)
    ensures n <= |s| && (forall i :: 0 <= i < n ==> s[i] != DOT) && (n < |s| ==> s[n] == DOT)
  {
    if s == [] || s[0] == DOT then 0 else 1 + DotAt(s[1..])
  }

  lemma FirstLabel(s: Bytes, n: nat)
    requires NameLike(s) && Alnum(s[|s| - 1]) && 0 < n <= |s|
    requires (forall i :: 0 <= i < n ==> s[i] != DOT) && (n < |s| ==> s[n] == DOT)
    ensures Label(s[..n])
    ensures n < |s| ==> n + 1 < |s| && Alnum(s[n + 1])
  {
  }

  /** Names without stray dots are labels joined by dots. */
  lemma {:induction false} LabelsOf(s: Bytes) returns (labels: seq<Bytes>)
    requires NameLike(s) && Alnum(s[|s| - 1])
    ensures labels != [] && (forall i :: 0 <= i < |labels| ==> Label(labels[i])) && Dotted(labels) == s
    decreases |s|
  {
    var n := DotAt(s);
    FirstLabel(s, n);
    if n == |s| {
      assert s[..n] == s;
      labels := [s];
    } else {
      RestIsNameLike(s, n + 1);
      var rest := LabelsOf(s[n + 1..]);
      labels := [s[..n]] + rest;
      assert labels[1..] == rest;
      assert s == s[..n] + [DOT] + s[n + 1..];
    }
  }

  /** What a subdomain is shortened to begins and ends with a letter and has no stray dots. */
  lemma ShortenedIsNameLike(prefixLen: nat, name: Bytes)
    requires Subdomain(name)
    ensures var r := Shorten(prefixLen, name);
            NameLike(r) && Alnum(r[|r| - 1])
  {
    var labels: seq<Bytes> :|
      labels != [] && (forall i :: 0 <= i < |labels| ==> Label(labels[i])) && name == Dotted(labels);
    LabelsAreNameLike(labels);
    HexIsAlnum(Fnv(name), HASH_LEN);
    if prefixLen + |name| > REPO_NAME_MAX_LEN && Keep(prefixLen) >= 1 {
      var cut := name[..Keep(prefixLen)];
      assert NameLike(cut);
      TrimmedIsNameLike(cut);
      JoinedIsNameLike(TrimRight(cut), Hash(name));
    }
  }

  /** Whatever the prefix, the repository name of a subdomain is a valid path component. */
  lemma ShortenedSubdomainIsComponent(prefixLen: nat, name: Bytes)
    requires Subdomain(name)
    ensures Component(Shorten(prefixLen, name))
  {
    ShortenedIsNameLike(prefixLen, name);
    NameLikeIsComponent(Shorten(prefixLen, name));
  }

  /** And it is a subdomain again. */
  lemma ShortenedSubdomainIsSubdomain(prefixLen: nat, name: Bytes)
    requires Subdomain(name)
    ensures Subdomain(Shorten(prefixLen, name))
  {
    ShortenedIsNameLike(prefixLen, name);
    var labels := LabelsOf(Shorten(prefixLen, name));
  }

  /**
    So for every resource whose name is shortened there is another, shorter name a resource
    can have, and both get the same repository.
  */
  lemma ShortenedNameIsTaken(prefixLen: nat, name: Bytes)
    requires Subdomain(name) && prefixLen + HASH_LEN <= REPO_NAME_MAX_LEN < prefixLen + |name|
    ensures var other := Shorten(prefixLen, name);
            && Subdomain(other) && |other| < |name|
            && Shorten(prefixLen, other) == Shorten(prefixLen, name)
  {
    ShortenedSubdomainIsSubdomain(prefixLen, name);
    PathFitsExactlyWhen(prefixLen, name);
    ShortenIsIdempotent(prefixLen, name);
  }

  /** With the address of DVCR and a namespace label every path fits, for any name. */
  lemma DefaultHostAlwaysFits(namespace: Bytes, name: Bytes)
    requires |namespace| <= 63
    ensures HostLen([]) + |"cvi/"| + |ClusterImageRepoName([], name)| <= REPO_NAME_MAX_LEN
    ensures HostLen([]) + |"vi/"| + |namespace| + |"/"| + |ImageRepoName([], namespace, name)| <= REPO_NAME_MAX_LEN
    ensures HostLen([]) + |"vd/"| + |namespace| + |"/"| + |DiskRepoName([], namespace, name)| <= REPO_NAME_MAX_LEN
  {
    PathFitsExactlyWhen(HostLen([]) + |"cvi/"|, name);
    PathFitsExactlyWhen(HostLen([]) + |"vi/"| + |namespace| + |"/"|, name);
    PathFitsExactlyWhen(HostLen([]) + |"vd/"| + |namespace| + |"/"|, name);
  }
}
