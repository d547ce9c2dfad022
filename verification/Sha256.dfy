/**
 * lpac/euicc/sha256.c: the compression function with its in-place schedule, and
 * the streaming context, against the definition of FIPS 180-4.
 */
module Sha256 {
  import Bytes

  type octet = bv8
  type word = bv32

  // ---- Section 4: functions and constants

  function Rotr(x: word, n: word): word
    requires 0 < n < 32
  {
    (x >> n) | (x << (32 - n))
  }

  function Ch(x: word, y: word, z: word): word {
    (x & y) ^ (!x & z)
  }

  function Maj(x: word, y: word, z: word): word {
    (x & y) ^ (x & z) ^ (y & z)
  }

  function Ep0(x: word): word {
    Rotr(x, 2) ^ Rotr(x, 13) ^ Rotr(x, 22)
  }

  function Ep1(x: word): word {
    Rotr(x, 6) ^ Rotr(x, 11) ^ Rotr(x, 25)
  }

  function Sig0(x: word): word {
    Rotr(x, 7) ^ Rotr(x, 18) ^ (x >> 3)
  }

  function Sig1(x: word): word {
    Rotr(x, 17) ^ Rotr(x, 19) ^ (x >> 10)
  }

  const K: seq<word> :=
    [0x428a2f98, 0x71374491, 0xb5c0fbcf, 0xe9b5dba5, 0x3956c25b, 0x59f111f1, 0x923f82a4, 0xab1c5ed5] +
    [0xd807aa98, 0x12835b01, 0x243185be, 0x550c7dc3, 0x72be5d74, 0x80deb1fe, 0x9bdc06a7, 0xc19bf174] +
    [0xe49b69c1, 0xefbe4786, 0x0fc19dc6, 0x240ca1cc, 0x2de92c6f, 0x4a7484aa, 0x5cb0a9dc, 0x76f988da] +
    [0x983e5152, 0xa831c66d, 0xb00327c8, 0xbf597fc7, 0xc6e00bf3, 0xd5a79147, 0x06ca6351, 0x14292967] +
    [0x27b70a85, 0x2e1b2138, 0x4d2c6dfc, 0x53380d13, 0x650a7354, 0x766a0abb, 0x81c2c92e, 0x92722c85] +
    [0xa2bfe8a1, 0xa81a664b, 0xc24b8b70, 0xc76c51a3, 0xd192e819, 0xd6990624, 0xf40e3585, 0x106aa070] +
    [0x19a4c116, 0x1e376c08, 0x2748774c, 0x34b0bcb5, 0x391c0cb3, 0x4ed8aa4a, 0x5b9cca4f, 0x682e6ff3] +
    [0x748f82ee, 0x78a5636f, 0x84c87814, 0x8cc70208, 0x90befffa, 0xa4506ceb, 0xbef9a3f7, 0xc67178f2]

  const H0: seq<word> := [
    0x6a09e667, 0xbb67ae85, 0x3c6ef372, 0xa54ff53a, 0x510e527f, 0x9b05688c, 0x1f83d9ab, 0x5be0cd19
  ]

  // ---- Section 6.2.2: the hash of one block

  /** Addition modulo 2^32. */
  function Add(x: word, y: word): word {
    x + y
  }

  function WordFrom(b0: octet, b1: octet, b2: octet, b3: octet): word {
    (b0 as word << 24) | (b1 as word << 16) | (b2 as word << 8) | b3 as word
  }

  /** A word of the message schedule from the words 2, 7, 15 and 16 places before it. */
  function NextWord(w2: word, w7: word, w15: word, w16: word): word {
    Sig1(w2) + w7 + Sig0(w15) + w16
  }

  /** The message schedule. */
  function Schedule(block: seq<octet>, t: nat): word
    requires |block| == 64 && t < 64
  {
    if t < 16 then WordFrom(block[4 * t], block[4 * t + 1], block[4 * t + 2], block[4 * t + 3])
    else NextWord(Schedule(block, t - 2), Schedule(block, t - 7), Schedule(block, t - 15), Schedule(block, t - 16))
  }

  datatype Working = Working(a: word, b: word, c: word, d: word, e: word, f: word, g: word, h: word)

  function T1(e: word, f: word, g: word, h: word, k: word, w: word): word {
    h + Ep1(e) + Ch(e, f, g) + k + w
  }

  function T2(a: word, b: word, c: word): word {
    Ep0(a) + Maj(a, b, c)
  }

  function Round(v: Working, k: word, w: word): Working {
    var t1, t2 := T1(v.e, v.f, v.g, v.h, k, w), T2(v.a, v.b, v.c);
    Working(Add(t1, t2), v.a, v.b, v.c, Add(v.d, t1), v.e, v.f, v.g)
  }

  function Rounds(block: seq<octet>, v: Working, t: nat): Working
    requires |block| == 64 && t <= 64
  {
    if t == 0 then v else Round(Rounds(block, v, t - 1), RoundConstant(t - 1), Schedule(block, t - 1))
  }

  function StateAsWorking(state: seq<word>): Working
    requires |state| == 8
  {
    Working(state[0], state[1], state[2], state[3], state[4], state[5], state[6], state[7])
  }

  function Compress(state: seq<word>, block: seq<octet>): (r: seq<word>)
    requires |state| == 8 && |block| == 64
    ensures |r| == 8
  {
    Sum(state, Rounds(block, StateAsWorking(state), 64))
  }

  function Sum(state: seq<word>, v: Working): (r: seq<word>)
    requires |state| == 8
    ensures |r| == 8
  {
    [Add(state[0], v.a), Add(state[1], v.b), Add(state[2], v.c), Add(state[3], v.d),
     Add(state[4], v.e), Add(state[5], v.f), Add(state[6], v.g), Add(state[7], v.h)]
  }

  function InitialWord(i: nat): word
    requires i < 8
  {
    H0[i]
  }

  function RoundConstant(t: nat): word
    requires t < 64
  {
    K[t]
  }

  function Initial(): (r: seq<word>)
    ensures |r| == 8
  {
    seq(8, i requires 0 <= i < 8 => InitialWord(i))
  }

  // ---- Sections 5.1.1 and 6.2: padding, and the hash of a message

  /** The hash value after the first n blocks of m. */
  function Chain(m: seq<octet>, n: nat): (r: seq<word>)
    requires 64 * n <= |m|
    ensures |r| == 8
  {
    if n == 0 then Initial() else Compress(Chain(m, n - 1), m[64 * (n - 1)..64 * n])
  }

  function Octet(x: nat): octet {
    (x % 256) as octet
  }

  /** x as k octets, most significant first. */
  function Wide(x: nat, k: nat): (b: seq<octet>)
    ensures |b| == k
  {
    if k == 0 then [] else Wide(x / 256, k - 1) + [Octet(x)]
  }

  function Zeros(n: nat): (z: seq<octet>)
    ensures |z| == n && forall i :: 0 <= i < n ==> z[i] == 0
  {
    seq(n, i => 0)
  }

  /** The number of zero octets of the padding, for a message of n octets. */
  function ZeroCount(n: nat): nat {
    (119 - n % 64) % 64
  }

  /** It is the least number that leaves room for exactly the eight length octets in the last block. */
  lemma ZeroCountIsLeast(n: nat, k: nat)
    ensures (n + 1 + ZeroCount(n)) % 64 == 56
    ensures (n + 1 + k) % 64 == 56 ==> ZeroCount(n) <= k
  {
    var q, r, u := n / 64, n % 64, (n + 1 + k) / 64;
    assert n == 64 * q + r;
    assert n + 1 + k == 64 * u + (n + 1 + k) % 64;
    if r < 56 {
      assert ZeroCount(n) == 55 - r;
      Remainder(q, 56, n + 1 + ZeroCount(n));
    } else {
      assert ZeroCount(n) == 119 - r;
      Remainder(q + 1, 56, n + 1 + ZeroCount(n));
    }
  }

  lemma Remainder(q: nat, r: nat, x: nat)
    requires x == 64 * q + r && r < 64
    ensures x % 64 == r && x / 64 == q
  {
  }

  function Padded(m: seq<octet>): seq<octet> {
    m + [0x80] + Zeros(ZeroCount(|m|)) + Wide(8 * |m|, 8)
  }

  lemma PaddedBlocks(m: seq<octet>)
    ensures |Padded(m)| == |m| + 9 + ZeroCount(|m|)
    ensures |Padded(m)| % 64 == 0
  {
    hide ZeroCount, Wide, Zeros;
    ZeroCountIsLeast(|m|, 0);
  }

  /** The i-th octet of a word, most significant first. */
  function WordOctet(w: word, i: nat): octet
    requires i < 4
  {
    ((w >> Below(i)) & 0xff) as octet
  }

  /** 24 - i * 8: how far the i-th octet is from the least significant end. */
  function Below(i: nat): word
    requires i < 4
  {
    if i == 0 then 24 else if i == 1 then 16 else if i == 2 then 8 else 0
  }

  /** Words as octets, each most significant octet first. */
  function Joined(ws: seq<word>): (b: seq<octet>)
    ensures |b| == 4 * |ws|
  {
    seq(4 * |ws|, i requires 0 <= i < 4 * |ws| => WordOctet(ws[i / 4], i % 4))
  }

  function Digest(m: seq<octet>): (d: seq<octet>)
    ensures |d| == 32
  {
    PaddedBlocks(m);
    Joined(Chain(Padded(m), |Padded(m)| / 64))
  }

  // ---- The code

  class Context {
    const data: array<octet>
    var datalen: nat
    var bitlen: nat
    const state: array<word>
    ghost var fed: seq<octet>

    /** The context has taken in exactly fed. */
    ghost predicate Valid()
      reads this, data, state
    {
      && data.Length == 64 && state.Length == 8
      && datalen == |fed| % 64 && data[..datalen] == fed[|fed| - datalen..]
      && state[..] == Chain(fed, |fed| / 64)
      && bitlen == 512 * (|fed| / 64) % 0x1_0000_0000_0000_0000
    }

    /** lpac/euicc/sha256.c:86-97 */
    constructor ()
      ensures Valid() && fed == [] && fresh(data) && fresh(state)
    {
      hide InitialWord, Chain;
      data := new octet[64](_ => 0);
      datalen, bitlen := 0, 0;
      state := new word[8](i requires 0 <= i < 8 => InitialWord(i));
      fed := [];
      new;
      ChainStart();
    }

    /** The schedule loops: lpac/euicc/sha256.c:49-52. */
    method FillSchedule(m: array<word>)
      requires data.Length == 64 && m.Length == 64
      modifies m
      ensures forall t :: 0 <= t < 64 ==> m[t] == Schedule(data[..], t)
    {
      hide WordFrom, NextWord;
      ghost var block := data[..];
      var i, j := 0, 0;
      while i < 16
        invariant i <= 16 && j == 4 * i
        invariant forall t :: 0 <= t < i ==> m[t] == Schedule(block, t)
      {
        m[i] := WordFrom(data[j], data[j + 1], data[j + 2], data[j + 3]);
        i, j := i + 1, j + 4;
      }
      while i < 64
        invariant 16 <= i <= 64
        invariant forall t :: 0 <= t < i ==> m[t] == Schedule(block, t)
      {
        m[i] := NextWord(m[i - 2], m[i - 7], m[i - 15], m[i - 16]);
        i := i + 1;
      }
    }

    /** The 64 rounds: lpac/euicc/sha256.c:54-74. */
    method RunRounds(m: array<word>) returns (v: Working)
      requires data.Length == 64 && state.Length == 8 && m.Length == 64
      requires forall t :: 0 <= t < 64 ==> m[t] == Schedule(data[..], t)
      ensures v == Rounds(data[..], StateAsWorking(state[..]), 64)
    {
      hide T1, T2, Add, Schedule, Rounds, RoundConstant;
      ghost var block, start := data[..], StateAsWorking(state[..]);
      var a, b, c, d, e, f, g, h := state[0], state[1], state[2], state[3], state[4], state[5], state[6], state[7];
      RoundsStep(block, start, 0);
      var i := 0;
      while i < 64
        invariant i <= 64 && Working(a, b, c, d, e, f, g, h) == Rounds(block, start, i)
      {
        RoundsStep(block, start, i + 1);
        var t1 := T1(e, f, g, h, RoundConstant(i), m[i]);
        var t2 := T2(a, b, c);
        h := g;
        g := f;
        f := e;
        e := Add(d, t1);
        d := c;
        c := b;
        b := a;
        a := Add(t1, t2);
        i := i + 1;
      }
      v := Working(a, b, c, d, e, f, g, h);
    }

    /** lpac/euicc/sha256.c:76-83 */
    method AddTo(v: Working)
      requires state.Length == 8
      modifies state
      ensures state[0] == Add(old(state[0]), v.a) && state[1] == Add(old(state[1]), v.b)
      ensures state[2] == Add(old(state[2]), v.c) && state[3] == Add(old(state[3]), v.d)
      ensures state[4] == Add(old(state[4]), v.e) && state[5] == Add(old(state[5]), v.f)
      ensures state[6] == Add(old(state[6]), v.g) && state[7] == Add(old(state[7]), v.h)
    {
      hide Add;
      state[0] := Add(state[0], v.a);
      state[1] := Add(state[1], v.b);
      state[2] := Add(state[2], v.c);
      state[3] := Add(state[3], v.d);
      state[4] := Add(state[4], v.e);
      state[5] := Add(state[5], v.f);
      state[6] := Add(state[6], v.g);
      state[7] := Add(state[7], v.h);
    }

    /** lpac/euicc/sha256.c:46-84 */
    method Transform()
      requires data.Length == 64 && state.Length == 8
      modifies state
      ensures state[..] == Compress(old(state[..]), data[..])
    {
      hide Add, Schedule, Rounds;
      var m := new word[64];
      FillSchedule(m);
      var v := RunRounds(m);
      AddTo(v);
      assert state[..] == Sum(old(state[..]), v);
    }

    /** One turn of the update loop: lpac/euicc/sha256.c:103-109. */
    method Feed(x: octet)
      requires Valid()
      modifies this, data, state
      ensures Valid() && fed == old(fed) + [x]
    {
      hide Compress, Chain;
      ghost var m, n := fed + [x], |fed| / 64;
      ChainPrefix(fed, [x], n);
      BlockTail(fed, x, data[..], datalen);
      data[datalen] := x;
      datalen := datalen + 1;
      fed := m;
      if datalen == 64 {
        ChainStep(m, n + 1);
        assert m[64 * n..64 * (n + 1)] == data[..];
        Transform();
        BitCount(n);
        bitlen := (bitlen + 512) % 0x1_0000_0000_0000_0000;
        datalen := 0;
      }
    }

    /**
     * lpac/euicc/sha256.c:99-111. The index is a 32-bit word, so longer inputs
     * are not taken in one call.
     */
    method Update(src: array<octet>, len: nat)
      requires Valid() && len <= src.Length && len < 0x1_0000_0000 && src != data
      modifies this, data, state
      ensures Valid() && fed == old(fed) + src[..len]
    {
      var i := 0;
      while i < len
        invariant i <= len && Valid() && fed == old(fed) + src[..i]
        invariant src[..] == old(src[..])
      {
        Feed(src[i]);
        i := i + 1;
      }
    }

    /** The end marker and the zeros up to limit: lpac/euicc/sha256.c:120-122 and 124-126. */
    method Mark(limit: nat)
      requires data.Length == 64 && datalen < limit <= 64
      modifies data
      ensures data[..] == old(data[..datalen]) + [0x80] + Zeros(limit - datalen - 1) + old(data[limit..])
    {
      ghost var was := data[..];
      data[datalen] := 0x80;
      var i := datalen + 1;
      while i < limit
        invariant datalen < i <= limit
        invariant forall j :: 0 <= j < 64 && j != datalen && !(datalen < j < i) ==> data[j] == was[j]
        invariant data[datalen] == 0x80 && forall j :: datalen < j < i ==> data[j] == 0
      {
        data[i] := 0;
        i := i + 1;
      }
    }

    /** The length octets: lpac/euicc/sha256.c:133-140. */
    method PutLength()
      requires data.Length == 64
      modifies data
      ensures data[..] == old(data[..56]) + Wide(bitlen, 8)
    {
      hide Octet, Bytes.Shr8, Wide;
      data[63] := Octet(Bytes.Shr8(bitlen, 0));
      data[62] := Octet(Bytes.Shr8(bitlen, 1));
      data[61] := Octet(Bytes.Shr8(bitlen, 2));
      data[60] := Octet(Bytes.Shr8(bitlen, 3));
      data[59] := Octet(Bytes.Shr8(bitlen, 4));
      data[58] := Octet(Bytes.Shr8(bitlen, 5));
      data[57] := Octet(Bytes.Shr8(bitlen, 6));
      data[56] := Octet(Bytes.Shr8(bitlen, 7));
      WideTail(data[..], bitlen);
      assert data[..56] == old(data[..56]);
    }

    /** One turn of the loop that writes the digest: lpac/euicc/sha256.c:146-153. */
    method PutOctets(hash: array<octet>, i: nat)
      requires state.Length == 8 && 32 <= hash.Length && i < 4
      modifies hash
      ensures hash[i] == WordOctet(state[0], i) && hash[i + 4] == WordOctet(state[1], i)
      ensures hash[i + 8] == WordOctet(state[2], i) && hash[i + 12] == WordOctet(state[3], i)
      ensures hash[i + 16] == WordOctet(state[4], i) && hash[i + 20] == WordOctet(state[5], i)
      ensures hash[i + 24] == WordOctet(state[6], i) && hash[i + 28] == WordOctet(state[7], i)
      ensures forall q :: 0 <= q < hash.Length && !InColumn(q, i) ==> hash[q] == old(hash[q])
    {
      hide WordOctet;
      hash[i] := WordOctet(state[0], i);
      hash[i + 4] := WordOctet(state[1], i);
      hash[i + 8] := WordOctet(state[2], i);
      hash[i + 12] := WordOctet(state[3], i);
      hash[i + 16] := WordOctet(state[4], i);
      hash[i + 20] := WordOctet(state[5], i);
      hash[i + 24] := WordOctet(state[6], i);
      hash[i + 28] := WordOctet(state[7], i);
    }

    /** lpac/euicc/sha256.c:145-154 */
    method PutDigest(hash: array<octet>)
      requires state.Length == 8 && 32 <= hash.Length
      modifies hash
      ensures hash[..32] == Joined(state[..]) && hash[32..] == old(hash[32..])
    {
      hide WordOctet, InColumn;
      var i := 0;
      while i < 4
        invariant i <= 4
        invariant forall q :: 32 <= q < hash.Length ==> hash[q] == old(hash[q])
        invariant forall q :: 0 <= q < 32 && q % 4 < i ==> hash[q] == WordOctet(state[q / 4], q % 4)
      {
        ghost var was := hash[..];
        PutOctets(hash, i);
        forall q | 0 <= q < hash.Length
          ensures hash[q] == if q < 32 && q % 4 == i then WordOctet(state[q / 4], i) else was[q]
        {
          Column(q, i);
        }
        i := i + 1;
      }
    }

    /** The end marker, and one more block when the length does not fit: lpac/euicc/sha256.c:116-129. */
    method Pad() returns (ghost n: nat)
      requires Valid()
      modifies data, state
      ensures 64 * (n + 1) == |Padded(fed)| && state[..] == Chain(Padded(fed), n)
      ensures data[..56] + Wide(8 * |fed|, 8) == Padded(fed)[64 * n..]
    {
      hide Compress, Chain, Wide, ZeroCount, Zeros, Padded;
      n := |fed| / 64;
      ghost var w := Wide(8 * |fed|, 8);
      PaddedChain(fed, n);
      PaddedAt(fed, n, datalen);
      if datalen < 56 {
        OneBlock(fed, n, datalen, w);
        Mark(56);
        assert data[..56] == fed[|fed| - datalen..] + [0x80] + Zeros(55 - datalen);
      } else {
        TwoBlocks(fed, n, datalen, w);
        Mark(64);
        assert data[..] == Padded(fed)[64 * n..64 * (n + 1)];
        ChainStep(Padded(fed), n + 1);
        Transform();
        forall i | 0 <= i < 56 {
          data[i] := 0;
        }
        AllZero(data[..56]);
        n := n + 1;
      }
    }

    /**
     * lpac/euicc/sha256.c:113-155. Messages are shorter than 2^64 bits, as
     * section 5.1.1 of FIPS 180-4 has it. The context is spent afterwards.
     */
    method Final(hash: array<octet>)
      requires Valid() && 32 <= hash.Length && hash != data
      requires 8 * |fed| < 0x1_0000_0000_0000_0000
      modifies this, data, state, hash
      ensures hash[..32] == Digest(fed) && hash[32..] == old(hash[32..]) && fed == old(fed)
    {
      hide Compress, Chain, Wide, ZeroCount, Joined, Padded, Rounds, Schedule;
      BitTotal(|fed|);
      ghost var n := Pad();
      bitlen := (bitlen + datalen * 8) % 0x1_0000_0000_0000_0000;
      PutLength();
      assert data[..] == Padded(fed)[64 * n..64 * (n + 1)];
      ChainStep(Padded(fed), n + 1);
      Transform();
      PutDigest(hash);
    }
  }

  /** The first of the two hashes: lpac/euicc/es10b.c:94-98. */
  method HashCode(code: array<octet>, hash: array<octet>)
    requires code.Length < 0x1_0000_0000 && hash.Length == 32 && code != hash
    modifies hash
    ensures hash[..] == Digest(code[..])
  {
    hide Digest, Context.Valid;
    ghost var was := code[..];
    var context := new Context();
    context.Update(code, code.Length);
    assert context.fed == was;
    context.Final(hash);
    assert hash[..] == hash[..32];
  }

  /** The second, over the first and the transaction: lpac/euicc/es10b.c:100-104. */
  method HashBound(hash: array<octet>, transactionId: array<octet>)
    requires hash.Length == 32 && transactionId.Length < 0x1_0000_0000 && hash != transactionId
    modifies hash
    ensures hash[..] == Digest(old(hash[..]) + transactionId[..])
  {
    hide Digest, Context.Valid;
    ghost var was, id := hash[..], transactionId[..];
    var context := new Context();
    context.Update(hash, hash.Length);
    assert context.fed == was;
    context.Update(transactionId, transactionId.Length);
    assert context.fed == was + id;
    context.Final(hash);
    assert hash[..] == hash[..32];
  }

  /**
   * The hash of a confirmation code, bound to the transaction: SHA256(SHA256(code) | transactionId).
   * The one buffer holds both hashes. lpac/euicc/es10b.c:89-104
   */
  method HashCc(code: array<octet>, transactionId: array<octet>) returns (hashCC: array<octet>)
    requires 0 < code.Length < 0x1_0000_0000 && transactionId.Length < 0x1_0000_0000
    ensures fresh(hashCC) && hashCC[..] == Digest(Digest(code[..]) + transactionId[..])
  {
    hide Digest, Context.Valid;
    hashCC := new octet[32];
    HashCode(code, hashCC);
    HashBound(hashCC, transactionId);
  }

  /** The places of the i-th octets of the eight words. */
  predicate InColumn(q: nat, i: nat) {
    || q == i || q == i + 4 || q == i + 8 || q == i + 12
    || q == i + 16 || q == i + 20 || q == i + 24 || q == i + 28
  }

  lemma Column(q: nat, i: nat)
    requires i < 4
    ensures InColumn(q, i) <==> q < 32 && q % 4 == i
    ensures q % 4 == i ==> q == 4 * (q / 4) + i
  {
  }

  /** The bit count wraps as a 64-bit number does. */
  lemma BitCount(n: nat)
    ensures (512 * n % 0x1_0000_0000_0000_0000 + 512) % 0x1_0000_0000_0000_0000
         == 512 * (n + 1) % 0x1_0000_0000_0000_0000
  {
  }

  /** Whole blocks and the rest make up the length of the message in bits. */
  lemma BitTotal(n: nat)
    requires 8 * n < 0x1_0000_0000_0000_0000
    ensures (512 * (n / 64) % 0x1_0000_0000_0000_0000 + n % 64 * 8) % 0x1_0000_0000_0000_0000 == 8 * n
  {
    assert 512 * (n / 64) + n % 64 * 8 == 8 * n;
  }

  lemma WideTail(b: seq<octet>, x: nat)
    requires |b| == 64
    requires forall j :: 56 <= j < 64 ==> b[j] == Octet(Bytes.Shr8(x, 63 - j))
    ensures b == b[..56] + Wide(x, 8)
  {
    hide Octet, Wide, Bytes.Shr8;
    forall j | 56 <= j < 64
      ensures b[j] == Wide(x, 8)[j - 56]
    {
      WideOctet(x, 8, 63 - j);
    }
  }

  lemma AllZero(b: seq<octet>)
    requires forall i :: 0 <= i < |b| ==> b[i] == 0
    ensures b == Zeros(|b|)
  {
  }

  lemma {:induction false} WideOctet(x: nat, k: nat, i: nat)
    requires i < k
    ensures Wide(x, k)[k - 1 - i] == Octet(Bytes.Shr8(x, i))
  {
    hide Octet;
    if i > 0 {
      WideOctet(x / 256, k - 1, i - 1);
    }
  }

  lemma PaddedChain(m: seq<octet>, n: nat)
    requires n == |m| / 64
    ensures 64 * n <= |m| <= |Padded(m)| && Chain(Padded(m), n) == Chain(m, n)
  {
    hide Chain, Wide, ZeroCount;
    var rest := [0x80] + Zeros(ZeroCount(|m|)) + Wide(8 * |m|, 8);
    assert Padded(m) == m + rest;
    ChainPrefix(m, rest, n);
  }

  lemma PaddedAt(m: seq<octet>, n: nat, d: nat)
    requires |m| == 64 * n + d && d < 64
    ensures Padded(m) == m + [0x80] + Zeros(if d < 56 then 55 - d else 119 - d) + Wide(8 * |m|, 8)
  {
    ZeroCountAt(|m|, n, d);
    hide Zeros, Wide, ZeroCount;
  }

  lemma ZeroCountAt(x: nat, n: nat, d: nat)
    requires x == 64 * n + d && d < 64
    ensures ZeroCount(x) == if d < 56 then 55 - d else 119 - d
  {
    Remainder(n, d, x);
  }

  /** The last block of a padded message, or its last two. */
  lemma OneBlock(m: seq<octet>, n: nat, d: nat, w: seq<octet>)
    requires |m| == 64 * n + d && d < 56 && |w| == 8
    ensures var p := m + [0x80] + Zeros(55 - d) + w;
            |p| == 64 * (n + 1) && p[64 * n..64 * (n + 1)] == m[|m| - d..] + [0x80] + Zeros(55 - d) + w
  {
    hide Zeros;
    var head, tail, z := m[..64 * n], m[|m| - d..], Zeros(55 - d);
    assert m == head + tail;
    assert m + [0x80] + z + w == head + (tail + [0x80] + z + w);
  }

  lemma TwoBlocks(m: seq<octet>, n: nat, d: nat, w: seq<octet>)
    requires |m| == 64 * n + d && 56 <= d < 64 && |w| == 8
    ensures var p := m + [0x80] + Zeros(119 - d) + w;
            && |p| == 64 * (n + 2)
            && p[64 * n..64 * (n + 1)] == m[|m| - d..] + [0x80] + Zeros(63 - d)
            && p[64 * (n + 1)..64 * (n + 2)] == Zeros(56) + w
  {
    hide Zeros;
    var head, tail, z := m[..64 * n], m[|m| - d..], Zeros(63 - d);
    ZerosJoin(63 - d, 56);
    var first, second := tail + [0x80] + z, Zeros(56) + w;
    assert m == head + tail;
    assert m + [0x80] + Zeros(119 - d) + w == head + first + second;
  }

  lemma ZerosJoin(i: nat, j: nat)
    ensures Zeros(i) + Zeros(j) == Zeros(i + j)
  {
  }

  /** The unhashed tail of the input after one more octet. */
  lemma BlockTail(m: seq<octet>, x: octet, b: seq<octet>, k: nat)
    requires k == |m| % 64 && |b| == 64 && b[..k] == m[|m| - k..]
    ensures b[k := x][..k + 1] == (m + [x])[|m| - k..]
    ensures k == 63 ==> (|m| + 1) % 64 == 0 && (|m| + 1) / 64 == |m| / 64 + 1
    ensures k < 63 ==> (|m| + 1) % 64 == k + 1 && (|m| + 1) / 64 == |m| / 64
    ensures |m| == 64 * (|m| / 64) + k
  {
    assert b[k := x][..k + 1] == b[..k] + [x];
    assert (m + [x])[|m| - k..] == m[|m| - k..] + [x];
  }

  lemma ChainStart()
    ensures Chain([], 0) == Initial()
  {
    hide InitialWord;
  }

  lemma ChainStep(m: seq<octet>, n: nat)
    requires 0 < n && 64 * n <= |m|
    ensures Chain(m, n) == Compress(Chain(m, n - 1), m[64 * (n - 1)..64 * n])
  {
    hide Compress;
  }

  /** Later octets do not change the hash value of earlier blocks. */
  lemma {:induction false} ChainPrefix(m: seq<octet>, x: seq<octet>, n: nat)
    requires 64 * n <= |m|
    ensures Chain(m + x, n) == Chain(m, n)
  {
    hide Compress;
    if n > 0 {
      ChainPrefix(m, x, n - 1);
      assert (m + x)[64 * (n - 1)..64 * n] == m[64 * (n - 1)..64 * n];
    }
  }

  lemma RoundsStep(block: seq<octet>, v: Working, t: nat)
    requires |block| == 64 && t <= 64
    ensures Rounds(block, v, t)
         == if t == 0 then v else Round(Rounds(block, v, t - 1), RoundConstant(t - 1), Schedule(block, t - 1))
  {
    hide Round, Schedule;
  }
}
