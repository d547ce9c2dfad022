/** Octets, 32-bit arithmetic and big-endian numbers shared by the codec modules. */
module Bytes {
  type byte = x: int | 0 <= x < 256

  datatype Option<+T> = None | Some(value: T)

  const TWO_32: nat := 0x1_0000_0000

  /** The value a uint32_t keeps of x. */
  function U32(x: int): (r: nat)
    ensures r < TWO_32
    ensures 0 <= x < TWO_32 ==> r == x
  {
    x % TWO_32
  }

  function Last<T>(s: seq<T>): T
    requires s != []
  {
    s[|s| - 1]
  }

  function Init<T>(s: seq<T>): (r: seq<T>)
    requires s != []
    ensures |r| == |s| - 1 && s == r + [Last(s)]
  {
    s[..|s| - 1]
  }

  lemma PrefixStep<T>(s: seq<T>, i: nat)
    requires i < |s|
    ensures s[..i + 1] != [] && Init(s[..i + 1]) == s[..i] && Last(s[..i + 1]) == s[i]
  {
  }

  /** The shortest big-endian form of n. */
  function BigEndian(n: nat): (b: seq<byte>)
    ensures 1 <= |b|
    ensures n != 0 ==> b[0] != 0
  {
    if n < 256 then [n] else BigEndian(n / 256) + [n % 256]
  }

  /** The number a big-endian octet string stands for. */
  function Value(b: seq<byte>): nat {
    if b == [] then 0 else 256 * Value(Init(b)) + Last(b)
  }

  lemma {:induction false} ValueOfBigEndian(n: nat)
    ensures Value(BigEndian(n)) == n
  {
    if n >= 256 {
      ValueOfBigEndian(n / 256);
      assert Init(BigEndian(n)) == BigEndian(n / 256);
    } else {
      assert Init(BigEndian(n)) == [];
    }
  }

  function Pow256(k: nat): nat {
    if k == 0 then 1 else 256 * Pow256(k - 1)
  }

  lemma {:induction false} BigEndianBounds(n: nat, k: nat)
    requires 1 <= k
    ensures |BigEndian(n)| <= k <==> n < Pow256(k)
    decreases k
  {
    if n >= 256 && k > 1 {
      BigEndianBounds(n / 256, k - 1);
      assert n / 256 < Pow256(k - 1) <==> n < 256 * Pow256(k - 1);
    } else if k > 1 {
      assert n < Pow256(1);
      PowMonotone(1, k);
    } else {
      assert Pow256(1) == 256;
    }
  }

  lemma {:induction false} PowMonotone(j: nat, k: nat)
    requires j <= k
    ensures 1 <= Pow256(j) <= Pow256(k)
    decreases k
  {
    if j < k {
      PowMonotone(j, k - 1);
    } else if k > 0 {
      PowMonotone(k - 1, k - 1);
    }
  }

  /** n >> (8 * i) */
  function Shr8(n: nat, i: nat): nat {
    if i == 0 then n else Shr8(n / 256, i - 1)
  }

  /** The octets of the shortest big-endian form are what shifting and masking gives. */
  lemma {:induction false} BigEndianDigit(n: nat, i: nat)
    requires i < |BigEndian(n)|
    ensures BigEndian(n)[|BigEndian(n)| - 1 - i] == Shr8(n, i) % 256
  {
    if i > 0 {
      BigEndianDigit(n / 256, i - 1);
    }
  }

  /** s with x written over the part that starts at o. */
  function Splice<T>(s: seq<T>, o: nat, x: seq<T>): (r: seq<T>)
    requires o + |x| <= |s|
    ensures |r| == |s|
  {
    s[..o] + x + s[o + |x|..]
  }

  lemma SpliceSplice<T>(s: seq<T>, o: nat, x: seq<T>, y: seq<T>)
    requires o + |x| + |y| <= |s|
    ensures Splice(Splice(s, o, x), o + |x|, y) == Splice(s, o, x + y)
  {
  }

  lemma Spliced<T>(s: seq<T>, o: nat, x: seq<T>, r: seq<T>)
    requires o + |x| <= |s| == |r|
    requires forall j :: 0 <= j < |s| && !(o <= j < o + |x|) ==> r[j] == s[j]
    requires forall j :: o <= j < o + |x| ==> r[j] == x[j - o]
    ensures r == Splice(s, o, x)
  {
  }

  /** memcpy: the two ranges must be the same or not overlap. */
  method Memcpy(dst: array<byte>, to: nat, src: array<byte>, from: nat, n: nat)
    requires to + n <= dst.Length && from + n <= src.Length
    requires dst != src || to == from || to + n <= from || from + n <= to
    modifies dst
    ensures dst[..] == Splice(old(dst[..]), to, old(src[from..from + n]))
  {
    forall i | 0 <= i < n {
      dst[to + i] := src[from + i];
    }
  }
}
