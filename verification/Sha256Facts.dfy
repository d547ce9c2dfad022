/**
 * What the functions and constants of FIPS 180-4 are: bit by bit, number by number, prime by prime.
 */
module Sha256Facts {
  import opened Sha256
  import opened Bytes

  // ---- Section 4.1.2, bit by bit

  /** Bit i of x, counted from the least significant one. */
  predicate Bit(x: word, i: word)
    requires i < 32
  {
    (x >> i) & 1 == 1
  }

  /** The place n above i, around the end of the word. */
  function Above(i: word, n: word): (j: word)
    ensures j < 32
  {
    (i + n) % 32
  }

  lemma ChBits(x: word, y: word, z: word, i: word)
    requires i < 32
    ensures Bit(Ch(x, y, z), i) <==> if Bit(x, i) then Bit(y, i) else Bit(z, i)
  {
    hide Bit;
    Choice(Ch(x, y, z), x, y, z, i);
  }

  lemma Choice(r: word, x: word, y: word, z: word, i: word)
    requires i < 32 && r == (x & y) ^ (!x & z)
    ensures Bit(r, i) <==> if Bit(x, i) then Bit(y, i) else Bit(z, i)
  {
  }

  /** The majority of three bits: if two agree, it is theirs. */
  lemma MajBits(x: word, y: word, z: word, i: word)
    requires i < 32
    ensures Bit(Maj(x, y, z), i) <==> if Bit(x, i) <==> Bit(y, i) then Bit(x, i) else Bit(z, i)
  {
    hide Bit;
    Majority(Maj(x, y, z), x, y, z, i);
  }

  lemma Majority(r: word, x: word, y: word, z: word, i: word)
    requires i < 32 && r == (x & y) ^ (x & z) ^ (y & z)
    ensures Bit(r, i) <==> if Bit(x, i) <==> Bit(y, i) then Bit(x, i) else Bit(z, i)
  {
  }

  lemma Ep0Bits(x: word, i: word)
    requires i < 32
    ensures Bit(Ep0(x), i)
       <==> ((Bit(x, Above(i, 2)) <==> Bit(x, Above(i, 13))) <==> Bit(x, Above(i, 22)))
  {
    hide Rotr, Ep0, Bit, Above;
    Ep0Xor(x, i);
    Rotr2(x, i);
    Rotr13(x, i);
    Rotr22(x, i);
  }

  lemma Ep0Xor(x: word, i: word)
    requires i < 32
    ensures Bit(Ep0(x), i)
       <==> ((Bit(Rotr(x, 2), i) <==> Bit(Rotr(x, 13), i)) <==> Bit(Rotr(x, 22), i))
  {
    hide Rotr;
  }

  lemma Ep1Bits(x: word, i: word)
    requires i < 32
    ensures Bit(Ep1(x), i)
       <==> ((Bit(x, Above(i, 6)) <==> Bit(x, Above(i, 11))) <==> Bit(x, Above(i, 25)))
  {
    hide Rotr, Ep1, Bit, Above;
    Ep1Xor(x, i);
    Rotr6(x, i);
    Rotr11(x, i);
    Rotr25(x, i);
  }

  lemma Ep1Xor(x: word, i: word)
    requires i < 32
    ensures Bit(Ep1(x), i)
       <==> ((Bit(Rotr(x, 6), i) <==> Bit(Rotr(x, 11), i)) <==> Bit(Rotr(x, 25), i))
  {
    hide Rotr;
  }

  lemma Sig0Bits(x: word, i: word)
    requires i < 32
    ensures Bit(Sig0(x), i)
       <==> ((Bit(x, Above(i, 7)) <==> Bit(x, Above(i, 18))) <==> (i < 29 && Bit(x, i + 3)))
  {
    hide Rotr, Sig0, Bit, Above;
    Sig0Xor(x, i);
    Rotr7(x, i);
    Rotr18(x, i);
  }

  lemma Sig0Xor(x: word, i: word)
    requires i < 32
    ensures Bit(Sig0(x), i)
       <==> ((Bit(Rotr(x, 7), i) <==> Bit(Rotr(x, 18), i)) <==> (i < 29 && Bit(x, i + 3)))
  {
    hide Rotr;
  }

  lemma Sig1Bits(x: word, i: word)
    requires i < 32
    ensures Bit(Sig1(x), i)
       <==> ((Bit(x, Above(i, 17)) <==> Bit(x, Above(i, 19))) <==> (i < 22 && Bit(x, i + 10)))
  {
    hide Rotr, Sig1, Bit, Above;
    Sig1Xor(x, i);
    Rotr17(x, i);
    Rotr19(x, i);
  }

  lemma Sig1Xor(x: word, i: word)
    requires i < 32
    ensures Bit(Sig1(x), i)
       <==> ((Bit(Rotr(x, 17), i) <==> Bit(Rotr(x, 19), i)) <==> (i < 22 && Bit(x, i + 10)))
  {
    hide Rotr;
  }

  lemma Rotr2(x: word, i: word)
    requires i < 32
    ensures Bit(Rotr(x, 2), i) <==> Bit(x, Above(i, 2))
  {
  }

  lemma Rotr6(x: word, i: word)
    requires i < 32
    ensures Bit(Rotr(x, 6), i) <==> Bit(x, Above(i, 6))
  {
  }

  lemma Rotr7(x: word, i: word)
    requires i < 32
    ensures Bit(Rotr(x, 7), i) <==> Bit(x, Above(i, 7))
  {
  }

  lemma Rotr11(x: word, i: word)
    requires i < 32
    ensures Bit(Rotr(x, 11), i) <==> Bit(x, Above(i, 11))
  {
  }

  lemma Rotr13(x: word, i: word)
    requires i < 32
    ensures Bit(Rotr(x, 13), i) <==> Bit(x, Above(i, 13))
  {
  }

  lemma Rotr17(x: word, i: word)
    requires i < 32
    ensures Bit(Rotr(x, 17), i) <==> Bit(x, Above(i, 17))
  {
  }

  lemma Rotr18(x: word, i: word)
    requires i < 32
    ensures Bit(Rotr(x, 18), i) <==> Bit(x, Above(i, 18))
  {
  }

  lemma Rotr19(x: word, i: word)
    requires i < 32
    ensures Bit(Rotr(x, 19), i) <==> Bit(x, Above(i, 19))
  {
  }

  lemma Rotr22(x: word, i: word)
    requires i < 32
    ensures Bit(Rotr(x, 22), i) <==> Bit(x, Above(i, 22))
  {
  }

  lemma Rotr25(x: word, i: word)
    requires i < 32
    ensures Bit(Rotr(x, 25), i) <==> Bit(x, Above(i, 25))
  {
  }

  // ---- Words and octets

  /** The number that octets stand for, most significant first. */
  function Number(b: seq<octet>): nat {
    if b == [] then 0 else 256 * Number(Init(b)) + Last(b) as nat
  }

  /** Four octets of a message are one big-endian word. */
  lemma WordNumber(b: seq<octet>)
    requires |b| == 4
    ensures WordFrom(b[0], b[1], b[2], b[3]) as nat == Number(b)
  {
    hide WordFrom, Number;
    WordDigits(b[0], b[1], b[2], b[3]);
    FourOctets(b);
  }

  lemma WordDigits(b0: octet, b1: octet, b2: octet, b3: octet)
    ensures WordFrom(b0, b1, b2, b3) as nat == 256 * (256 * (256 * (b0 as nat) + b1 as nat) + b2 as nat) + b3 as nat
  {
    WordNested(b0, b1, b2, b3);
    var w1 := (b0 as word << 8) | b1 as word;
    var w2 := (w1 << 8) | b2 as word;
    hide WordFrom;
    OneOctet(b0);
    Horner(b0 as word, b1);
    Horner(w1, b2);
    Horner(w2, b3);
  }

  lemma FourOctets(b: seq<octet>)
    requires |b| == 4
    ensures Number(b)
         == 256 * (256 * (256 * (b[0] as nat) + b[1] as nat) + b[2] as nat) + b[3] as nat
  {
    assert b[..3][..2] == b[..2] && b[..2][..1] == b[..1] && b[..1][..0] == [];
    assert Number(b[..1]) == b[0] as nat;
    assert Number(b[..2]) == 256 * Number(b[..1]) + b[1] as nat;
    assert Number(b[..3]) == 256 * Number(b[..2]) + b[2] as nat;
  }

  lemma WordNested(b0: octet, b1: octet, b2: octet, b3: octet)
    ensures WordFrom(b0, b1, b2, b3)
         == ((((((b0 as word << 8) | b1 as word) << 8) | b2 as word) << 8) | b3 as word)
  {
  }

  lemma OneOctet(b: octet)
    ensures (b as word) as nat == b as nat
  {
  }

  lemma Horner(x: word, b: octet)
    requires x <= 0xffffff
    ensures ((x << 8) | b as word) as nat == 256 * (x as nat) + b as nat
  {
  }

  /** The octets of the digest are those of its words, most significant first. */
  lemma OctetsOfWord(b0: octet, b1: octet, b2: octet, b3: octet)
    ensures var w := WordFrom(b0, b1, b2, b3);
            WordOctet(w, 0) == b0 && WordOctet(w, 1) == b1 && WordOctet(w, 2) == b2 && WordOctet(w, 3) == b3
  {
  }

  /** The octets of any word make up that word. */
  lemma WordOfOctets(w: word)
    ensures WordFrom(WordOctet(w, 0), WordOctet(w, 1), WordOctet(w, 2), WordOctet(w, 3)) == w
  {
    Parts(w);
    hide WordOctet, WordFrom;
    OctetsOfWord(((w >> 24) & 0xff) as octet, ((w >> 16) & 0xff) as octet, ((w >> 8) & 0xff) as octet,
                 (w & 0xff) as octet);
  }

  lemma Parts(w: word)
    ensures WordFrom(((w >> 24) & 0xff) as octet, ((w >> 16) & 0xff) as octet, ((w >> 8) & 0xff) as octet,
                     (w & 0xff) as octet) == w
  {
  }

  /** Octets grouped into words and joined again are what they were. */
  lemma JoinedFrom(ws: seq<word>, b: seq<octet>)
    requires |b| == 4 * |ws|
    requires forall i :: 0 <= i < |ws| ==> ws[i] == WordFrom(b[4 * i], b[4 * i + 1], b[4 * i + 2], b[4 * i + 3])
    ensures Joined(ws) == b
  {
    hide WordFrom, WordOctet;
    forall k | 0 <= k < |b|
      ensures Joined(ws)[k] == b[k]
    {
      var i := k / 4;
      OctetsOfWord(b[4 * i], b[4 * i + 1], b[4 * i + 2], b[4 * i + 3]);
    }
  }

  /** The length octets are the low k octets of the number, most significant first. */
  lemma {:induction false} WideNumber(x: nat, k: nat)
    ensures Pow256(k) > 0 && Number(Wide(x, k)) == x % Pow256(k)
  {
    hide Octet;
    if k > 0 {
      WideNumber(x / 256, k - 1);
      assert Init(Wide(x, k)) == Wide(x / 256, k - 1);
      OctetNumber(x);
      Digits(x, Pow256(k - 1));
    }
  }

  lemma OctetNumber(x: nat)
    ensures Octet(x) as nat == x % 256
  {
    var b := OctetOf(x % 256);
    OctetBack(b);
  }

  lemma OctetBack(b: octet)
    ensures (b as nat) as octet == b
  {
  }

  /** Every number below 256 is that of an octet. */
  lemma {:induction false} OctetOf(y: nat) returns (b: octet)
    requires y < 256
    ensures b as nat == y
  {
    b := 0;
    if y > 0 {
      b := OctetOf(y - 1);
      NextOctet(b);
      b := b + 1;
    }
  }

  lemma NextOctet(b: octet)
    requires b < 255
    ensures (b + 1) as nat == b as nat + 1
  {
  }

  lemma Digits(x: nat, p: nat)
    requires p > 0
    ensures x % (256 * p) == 256 * (x / 256 % p) + x % 256
  {
    var y := x / 256;
    var r := 256 * (y % p) + x % 256;
    assert y == p * (y / p) + y % p;
    assert x == 256 * y + x % 256;
    assert x == 256 * p * (y / p) + r;
    Remains(x, 256 * p, y / p, r);
  }

  lemma Remains(x: nat, m: nat, q: nat, r: nat)
    requires x == m * q + r && r < m
    ensures x % m == r
  {
    assert m * (q - x / m) == x % m - r;
    Multiple(m, q - x / m);
  }

  lemma Multiple(m: nat, d: int)
    ensures d >= 1 ==> m * d >= m
    ensures d <= -1 ==> m * d + m <= 0
  {
  }

  // ---- Sections 4.2.2 and 5.3.3: the constants

  /** The first 64 primes. */
  const PRIMES: seq<nat> :=
    [2, 3, 5, 7, 11, 13, 17, 19] +
    [23, 29, 31, 37, 41, 43, 47, 53] +
    [59, 61, 67, 71, 73, 79, 83, 89] +
    [97, 101, 103, 107, 109, 113, 127, 131] +
    [137, 139, 149, 151, 157, 163, 167, 173] +
    [179, 181, 191, 193, 197, 199, 211, 223] +
    [227, 229, 233, 239, 241, 251, 257, 263] +
    [269, 271, 277, 281, 283, 293, 307, 311]

  function Cube(x: nat): nat {
    x * x * x
  }

  /** k is the first 32 bits of the fractional part of the cube root of p; c is the integer part. */
  predicate IsCubeRoot(k: word, p: nat, c: nat) {
    var x := TWO_32 * c + k as nat;
    Cube(x) <= p * Cube(TWO_32) < Cube(x + 1)
  }

  /** The same of the square root. */
  predicate IsSquareRoot(k: word, p: nat, c: nat) {
    var x := TWO_32 * c + k as nat;
    x * x <= p * TWO_32 * TWO_32 < (x + 1) * (x + 1)
  }

  /** The t-th round constant is the fraction of the cube root of the t-th prime. */
  ghost predicate FromCubeRoot(t: nat)
    requires t < 64
  {
    exists c: nat :: IsCubeRoot(K[t], PRIMES[t], c)
  }

  ghost predicate FromSquareRoot(i: nat)
    requires i < 8
  {
    exists c: nat :: IsSquareRoot(H0[i], PRIMES[i], c)
  }

  /** All constants are what section 4.2.2 and section 5.3.3 say. */
  lemma ConstantsFromRoots()
    ensures forall t :: 0 <= t < 64 ==> FromCubeRoot(t)
    ensures forall i :: 0 <= i < 8 ==> FromSquareRoot(i)
  {
    hide FromCubeRoot, FromSquareRoot;
    Roots0();
    Roots16();
    Roots32();
    Roots48();
    InitialRoots();
  }

  lemma InitialRoots()
    ensures forall i :: 0 <= i < 8 ==> FromSquareRoot(i)
  {
    SquareRoots();
    InitialConstants();
    Primes0();
    hide H0, PRIMES, IsSquareRoot;
    assert FromSquareRoot(0) && FromSquareRoot(1) && FromSquareRoot(2) && FromSquareRoot(3);
    assert FromSquareRoot(4) && FromSquareRoot(5) && FromSquareRoot(6) && FromSquareRoot(7);
  }

  lemma InitialConstants()
    ensures H0[0] == 0x6a09e667 && H0[1] == 0xbb67ae85 && H0[2] == 0x3c6ef372 && H0[3] == 0xa54ff53a
    ensures H0[4] == 0x510e527f && H0[5] == 0x9b05688c && H0[6] == 0x1f83d9ab && H0[7] == 0x5be0cd19
  {
  }

  lemma SquareRoots()
    ensures IsSquareRoot(0x6a09e667, 2, 1)
    ensures IsSquareRoot(0xbb67ae85, 3, 1)
    ensures IsSquareRoot(0x3c6ef372, 5, 2)
    ensures IsSquareRoot(0xa54ff53a, 7, 2)
    ensures IsSquareRoot(0x510e527f, 11, 3)
    ensures IsSquareRoot(0x9b05688c, 13, 3)
    ensures IsSquareRoot(0x1f83d9ab, 17, 4)
    ensures IsSquareRoot(0x5be0cd19, 19, 4)
  {
  }

  lemma Roots0()
    ensures forall t :: 0 <= t < 16 ==> FromCubeRoot(t)
  {
    Constants0();
    Primes0();
    CubeRoots0();
    hide K, PRIMES, IsCubeRoot;
    assert FromCubeRoot(0) && FromCubeRoot(1) && FromCubeRoot(2) && FromCubeRoot(3);
    assert FromCubeRoot(4) && FromCubeRoot(5) && FromCubeRoot(6) && FromCubeRoot(7);
    assert FromCubeRoot(8) && FromCubeRoot(9) && FromCubeRoot(10) && FromCubeRoot(11);
    assert FromCubeRoot(12) && FromCubeRoot(13) && FromCubeRoot(14) && FromCubeRoot(15);
  }

  lemma CubeRoots0()
    ensures IsCubeRoot(0x428a2f98, 2, 1) && IsCubeRoot(0x71374491, 3, 1)
    ensures IsCubeRoot(0xb5c0fbcf, 5, 1) && IsCubeRoot(0xe9b5dba5, 7, 1)
    ensures IsCubeRoot(0x3956c25b, 11, 2) && IsCubeRoot(0x59f111f1, 13, 2)
    ensures IsCubeRoot(0x923f82a4, 17, 2) && IsCubeRoot(0xab1c5ed5, 19, 2)
    ensures IsCubeRoot(0xd807aa98, 23, 2) && IsCubeRoot(0x12835b01, 29, 3)
    ensures IsCubeRoot(0x243185be, 31, 3) && IsCubeRoot(0x550c7dc3, 37, 3)
    ensures IsCubeRoot(0x72be5d74, 41, 3) && IsCubeRoot(0x80deb1fe, 43, 3)
    ensures IsCubeRoot(0x9bdc06a7, 47, 3) && IsCubeRoot(0xc19bf174, 53, 3)
  {
  }

  lemma Primes0()
    ensures PRIMES[0] == 2 && PRIMES[1] == 3 && PRIMES[2] == 5 && PRIMES[3] == 7
    ensures PRIMES[4] == 11 && PRIMES[5] == 13 && PRIMES[6] == 17 && PRIMES[7] == 19
    ensures PRIMES[8] == 23 && PRIMES[9] == 29 && PRIMES[10] == 31 && PRIMES[11] == 37
    ensures PRIMES[12] == 41 && PRIMES[13] == 43 && PRIMES[14] == 47 && PRIMES[15] == 53
  {
  }

  lemma Constants0()
    ensures K[0] == 0x428a2f98 && K[1] == 0x71374491 && K[2] == 0xb5c0fbcf && K[3] == 0xe9b5dba5
    ensures K[4] == 0x3956c25b && K[5] == 0x59f111f1 && K[6] == 0x923f82a4 && K[7] == 0xab1c5ed5
    ensures K[8] == 0xd807aa98 && K[9] == 0x12835b01 && K[10] == 0x243185be && K[11] == 0x550c7dc3
    ensures K[12] == 0x72be5d74 && K[13] == 0x80deb1fe && K[14] == 0x9bdc06a7 && K[15] == 0xc19bf174
  {
  }

  lemma Roots16()
    ensures forall t :: 16 <= t < 32 ==> FromCubeRoot(t)
  {
    Constants16();
    Primes16();
    CubeRoots16();
    hide K, PRIMES, IsCubeRoot;
    assert FromCubeRoot(16) && FromCubeRoot(17) && FromCubeRoot(18) && FromCubeRoot(19);
    assert FromCubeRoot(20) && FromCubeRoot(21) && FromCubeRoot(22) && FromCubeRoot(23);
    assert FromCubeRoot(24) && FromCubeRoot(25) && FromCubeRoot(26) && FromCubeRoot(27);
    assert FromCubeRoot(28) && FromCubeRoot(29) && FromCubeRoot(30) && FromCubeRoot(31);
  }

  lemma CubeRoots16()
    ensures IsCubeRoot(0xe49b69c1, 59, 3) && IsCubeRoot(0xefbe4786, 61, 3)
    ensures IsCubeRoot(0x0fc19dc6, 67, 4) && IsCubeRoot(0x240ca1cc, 71, 4)
    ensures IsCubeRoot(0x2de92c6f, 73, 4) && IsCubeRoot(0x4a7484aa, 79, 4)
    ensures IsCubeRoot(0x5cb0a9dc, 83, 4) && IsCubeRoot(0x76f988da, 89, 4)
    ensures IsCubeRoot(0x983e5152, 97, 4) && IsCubeRoot(0xa831c66d, 101, 4)
    ensures IsCubeRoot(0xb00327c8, 103, 4) && IsCubeRoot(0xbf597fc7, 107, 4)
    ensures IsCubeRoot(0xc6e00bf3, 109, 4) && IsCubeRoot(0xd5a79147, 113, 4)
    ensures IsCubeRoot(0x06ca6351, 127, 5) && IsCubeRoot(0x14292967, 131, 5)
  {
  }

  lemma Primes16()
    ensures PRIMES[16] == 59 && PRIMES[17] == 61 && PRIMES[18] == 67 && PRIMES[19] == 71
    ensures PRIMES[20] == 73 && PRIMES[21] == 79 && PRIMES[22] == 83 && PRIMES[23] == 89
    ensures PRIMES[24] == 97 && PRIMES[25] == 101 && PRIMES[26] == 103 && PRIMES[27] == 107
    ensures PRIMES[28] == 109 && PRIMES[29] == 113 && PRIMES[30] == 127 && PRIMES[31] == 131
  {
  }

  lemma Constants16()
    ensures K[16] == 0xe49b69c1 && K[17] == 0xefbe4786 && K[18] == 0x0fc19dc6 && K[19] == 0x240ca1cc
    ensures K[20] == 0x2de92c6f && K[21] == 0x4a7484aa && K[22] == 0x5cb0a9dc && K[23] == 0x76f988da
    ensures K[24] == 0x983e5152 && K[25] == 0xa831c66d && K[26] == 0xb00327c8 && K[27] == 0xbf597fc7
    ensures K[28] == 0xc6e00bf3 && K[29] == 0xd5a79147 && K[30] == 0x06ca6351 && K[31] == 0x14292967
  {
  }

  lemma Roots32()
    ensures forall t :: 32 <= t < 48 ==> FromCubeRoot(t)
  {
    Constants32();
    Primes32();
    CubeRoots32();
    hide K, PRIMES, IsCubeRoot;
    assert FromCubeRoot(32) && FromCubeRoot(33) && FromCubeRoot(34) && FromCubeRoot(35);
    assert FromCubeRoot(36) && FromCubeRoot(37) && FromCubeRoot(38) && FromCubeRoot(39);
    assert FromCubeRoot(40) && FromCubeRoot(41) && FromCubeRoot(42) && FromCubeRoot(43);
    assert FromCubeRoot(44) && FromCubeRoot(45) && FromCubeRoot(46) && FromCubeRoot(47);
  }

  lemma CubeRoots32()
    ensures IsCubeRoot(0x27b70a85, 137, 5) && IsCubeRoot(0x2e1b2138, 139, 5)
    ensures IsCubeRoot(0x4d2c6dfc, 149, 5) && IsCubeRoot(0x53380d13, 151, 5)
    ensures IsCubeRoot(0x650a7354, 157, 5) && IsCubeRoot(0x766a0abb, 163, 5)
    ensures IsCubeRoot(0x81c2c92e, 167, 5) && IsCubeRoot(0x92722c85, 173, 5)
    ensures IsCubeRoot(0xa2bfe8a1, 179, 5) && IsCubeRoot(0xa81a664b, 181, 5)
    ensures IsCubeRoot(0xc24b8b70, 191, 5) && IsCubeRoot(0xc76c51a3, 193, 5)
    ensures IsCubeRoot(0xd192e819, 197, 5) && IsCubeRoot(0xd6990624, 199, 5)
    ensures IsCubeRoot(0xf40e3585, 211, 5) && IsCubeRoot(0x106aa070, 223, 6)
  {
  }

  lemma Primes32()
    ensures PRIMES[32] == 137 && PRIMES[33] == 139 && PRIMES[34] == 149 && PRIMES[35] == 151
    ensures PRIMES[36] == 157 && PRIMES[37] == 163 && PRIMES[38] == 167 && PRIMES[39] == 173
    ensures PRIMES[40] == 179 && PRIMES[41] == 181 && PRIMES[42] == 191 && PRIMES[43] == 193
    ensures PRIMES[44] == 197 && PRIMES[45] == 199 && PRIMES[46] == 211 && PRIMES[47] == 223
  {
  }

  lemma Constants32()
    ensures K[32] == 0x27b70a85 && K[33] == 0x2e1b2138 && K[34] == 0x4d2c6dfc && K[35] == 0x53380d13
    ensures K[36] == 0x650a7354 && K[37] == 0x766a0abb && K[38] == 0x81c2c92e && K[39] == 0x92722c85
    ensures K[40] == 0xa2bfe8a1 && K[41] == 0xa81a664b && K[42] == 0xc24b8b70 && K[43] == 0xc76c51a3
    ensures K[44] == 0xd192e819 && K[45] == 0xd6990624 && K[46] == 0xf40e3585 && K[47] == 0x106aa070
  {
  }

  lemma Roots48()
    ensures forall t :: 48 <= t < 64 ==> FromCubeRoot(t)
  {
    Constants48();
    Primes48();
    CubeRoots48();
    hide K, PRIMES, IsCubeRoot;
    assert FromCubeRoot(48) && FromCubeRoot(49) && FromCubeRoot(50) && FromCubeRoot(51);
    assert FromCubeRoot(52) && FromCubeRoot(53) && FromCubeRoot(54) && FromCubeRoot(55);
    assert FromCubeRoot(56) && FromCubeRoot(57) && FromCubeRoot(58) && FromCubeRoot(59);
    assert FromCubeRoot(60) && FromCubeRoot(61) && FromCubeRoot(62) && FromCubeRoot(63);
  }

  lemma CubeRoots48()
    ensures IsCubeRoot(0x19a4c116, 227, 6) && IsCubeRoot(0x1e376c08, 229, 6)
    ensures IsCubeRoot(0x2748774c, 233, 6) && IsCubeRoot(0x34b0bcb5, 239, 6)
    ensures IsCubeRoot(0x391c0cb3, 241, 6) && IsCubeRoot(0x4ed8aa4a, 251, 6)
    ensures IsCubeRoot(0x5b9cca4f, 257, 6) && IsCubeRoot(0x682e6ff3, 263, 6)
    ensures IsCubeRoot(0x748f82ee, 269, 6) && IsCubeRoot(0x78a5636f, 271, 6)
    ensures IsCubeRoot(0x84c87814, 277, 6) && IsCubeRoot(0x8cc70208, 281, 6)
    ensures IsCubeRoot(0x90befffa, 283, 6) && IsCubeRoot(0xa4506ceb, 293, 6)
    ensures IsCubeRoot(0xbef9a3f7, 307, 6) && IsCubeRoot(0xc67178f2, 311, 6)
  {
  }

  lemma Primes48()
    ensures PRIMES[48] == 227 && PRIMES[49] == 229 && PRIMES[50] == 233 && PRIMES[51] == 239
    ensures PRIMES[52] == 241 && PRIMES[53] == 251 && PRIMES[54] == 257 && PRIMES[55] == 263
    ensures PRIMES[56] == 269 && PRIMES[57] == 271 && PRIMES[58] == 277 && PRIMES[59] == 281
    ensures PRIMES[60] == 283 && PRIMES[61] == 293 && PRIMES[62] == 307 && PRIMES[63] == 311
  {
  }

  lemma Constants48()
    ensures K[48] == 0x19a4c116 && K[49] == 0x1e376c08 && K[50] == 0x2748774c && K[51] == 0x34b0bcb5
    ensures K[52] == 0x391c0cb3 && K[53] == 0x4ed8aa4a && K[54] == 0x5b9cca4f && K[55] == 0x682e6ff3
    ensures K[56] == 0x748f82ee && K[57] == 0x78a5636f && K[58] == 0x84c87814 && K[59] == 0x8cc70208
    ensures K[60] == 0x90befffa && K[61] == 0xa4506ceb && K[62] == 0xbef9a3f7 && K[63] == 0xc67178f2
  {
  }
}
