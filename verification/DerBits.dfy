/**
 * lpac/euicc/derutil.c, lines 284-378: sets of numbered capabilities as the contents
 * octets of a DER BIT STRING, and their descriptions read back from it.
 */
module DerBits {
  import opened Bytes

  type octet = bv8

  /** The octet with bit p alone set, counted from the least significant one. */
  function Bit(p: nat): octet
    requires p < 8
  {
    if p == 0 then 1 else if p == 1 then 2 else if p == 2 then 4 else if p == 3 then 8
    else if p == 4 then 16 else if p == 5 then 32 else if p == 6 then 64 else 128
  }

  predicate Has(x: octet, p: nat)
    requires p < 8
  {
    x & Bit(p) != 0
  }

  lemma SetBit(x: octet, p: nat, q: nat)
    requires p < 8 && q < 8
    ensures Has(x | Bit(p), q) <==> p == q || Has(x, q)
    ensures !Has(0, q)
  {
  }

  lemma OneShifted(p: nat)
    requires p < 8
    ensures (1 as octet) << p == Bit(p)
  {
  }

  /** Bit k of a bit string: the first octet counts the unused bits. Section 8.6.2 of X.690. */
  predicate BitAt(b: seq<octet>, k: nat) {
    k / 8 + 1 < |b| && Has(b[k / 8 + 1], 7 - k % 8)
  }

  function MaxOf(bits: seq<nat>): nat {
    if bits == [] then 0 else if Last(bits) > MaxOf(Init(bits)) then Last(bits) else MaxOf(Init(bits))
  }

  lemma {:induction false} MaxBounds(bits: seq<nat>)
    ensures forall i :: 0 <= i < |bits| ==> bits[i] <= MaxOf(bits)
  {
    if bits != [] {
      MaxBounds(Init(bits));
    }
  }

  function SizeOf(bits: seq<nat>): nat {
    (MaxOf(bits) + 8) / 8 + 1
  }

  /** It is the least size that has an octet for every bit, after the one that counts the unused bits. */
  lemma SizeIsLeast(bits: seq<nat>)
    ensures forall i :: 0 <= i < |bits| ==> bits[i] / 8 + 1 < SizeOf(bits)
    ensures if bits == [] then SizeOf(bits) == 2
            else exists i :: 0 <= i < |bits| && bits[i] / 8 + 2 == SizeOf(bits)
  {
    MaxBounds(bits);
    if bits != [] {
      var i := MaxIsOne(bits);
      assert bits[i] / 8 + 2 == SizeOf(bits);
    }
  }

  lemma {:induction false} MaxIsOne(bits: seq<nat>) returns (i: nat)
    requires bits != []
    ensures i < |bits| && bits[i] == MaxOf(bits)
  {
    if Last(bits) > MaxOf(Init(bits)) || |bits| == 1 {
      i := |bits| - 1;
    } else {
      i := MaxIsOne(Init(bits));
    }
  }

  /** Bit 0 is the most significant one of the first octet: section 8.6.2.1 of X.690. */
  lemma BitsExample(k: nat)
    ensures BitAt([0x00, 0xA0, 0x40], k) <==> k == 0 || k == 2 || k == 9
  {
  }

  /** lpac/euicc/derutil.c:284-293. Bit numbers leave the 32-bit sum room. */
  method Bits2BinSizeof(bits: seq<nat>) returns (size: nat)
    requires forall i :: 0 <= i < |bits| ==> bits[i] < TWO_32 - 8
    ensures size == SizeOf(bits)
  {
    var maxBit := 0;
    for i := 0 to |bits|
      invariant maxBit == MaxOf(bits[..i])
    {
      PrefixStep(bits, i);
      if bits[i] > maxBit {
        maxBit := bits[i];
      }
    }
    assert bits[..|bits|] == bits;
    return (maxBit + 8) / 8 + 1;
  }

  /** The contents octets hold exactly the bits, and no unused ones. */
  ghost predicate Holds(b: seq<octet>, bits: seq<nat>) {
    && |b| > 0 && b[0] == 0
    && forall k: nat :: BitAt(b, k) <==> k in bits
  }

  /** lpac/euicc/derutil.c:295-309 */
  method Bits2Bin(buffer: array<octet>, bits: seq<nat>) returns (r: int)
    requires forall i :: 0 <= i < |bits| ==> bits[i] < TWO_32 - 8
    modifies buffer
    ensures r == if buffer.Length < SizeOf(bits) then -1 else 0
    ensures r == 0 ==> Holds(buffer[..], bits)
    ensures r < 0 ==> buffer[..] == old(buffer[..])
  {
    hide BitAt, MaxOf;
    var size := Bits2BinSizeof(bits);
    if buffer.Length < size {
      return -1;
    }
    MaxBounds(bits);
    forall i | 0 <= i < buffer.Length {
      buffer[i] := 0;
    }
    buffer[0] := 0;
    NoBits(buffer[..]);
    for i := 0 to |bits|
      invariant buffer[0] == 0 && forall k: nat :: BitAt(buffer[..], k) <==> k in bits[..i]
    {
      var bit := bits[i];
      assert bits[..i + 1] == bits[..i] + [bit];
      BitFits(bit, MaxOf(bits), buffer.Length);
      ghost var was := buffer[..];
      OneShifted(7 - bit % 8);
      buffer[bit / 8 + 1] := buffer[bit / 8 + 1] | ((1 as octet) << (7 - bit % 8));
      forall k: nat
        ensures BitAt(buffer[..], k) <==> BitAt(was, k) || k == bit
      {
        SetBitAt(was, bit, k);
      }
    }
    assert bits[..|bits|] == bits;
    return 0;
  }

  lemma BitFits(bit: nat, max: nat, size: nat)
    requires bit <= max && (max + 8) / 8 + 1 <= size
    ensures bit / 8 + 1 < size
  {
  }

  lemma NoBits(b: seq<octet>)
    requires forall i :: 0 <= i < |b| ==> b[i] == 0
    ensures forall k: nat :: !BitAt(b, k)
  {
    forall k: nat
      ensures !BitAt(b, k)
    {
      SetBit(0, 0, 7 - k % 8);
    }
  }

  lemma SetBitAt(b: seq<octet>, bit: nat, k: nat)
    requires bit / 8 + 1 < |b|
    ensures BitAt(b[bit / 8 + 1 := b[bit / 8 + 1] | Bit(7 - bit % 8)], k) <==> BitAt(b, k) || k == bit
  {
    hide Has, Bit;
    if k / 8 == bit / 8 {
      SetBit(b[bit / 8 + 1], 7 - bit % 8, 7 - k % 8);
    }
  }

  // ---- Reading

  /** Bit k is set and is not among the unused bits of the last octet. */
  predicate UsedBit(b: seq<octet>, k: nat) {
    BitAt(b, k) && k + b[0] as nat < 8 * (|b| - 1)
  }

  /** The texts of the used bits among the first k, in ascending order. */
  function Described(b: seq<octet>, texts: seq<string>, k: nat): (r: seq<string>)
    requires k <= |texts|
    ensures |r| <= k
  {
    if k == 0 then []
    else if UsedBit(b, k - 1) then Described(b, texts, k - 1) + [texts[k - 1]]
    else Described(b, texts, k - 1)
  }

  /** The texts of a set of bits, in ascending order. */
  function Chosen(bits: seq<nat>, texts: seq<string>, k: nat): seq<string>
    requires k <= |texts|
  {
    if k == 0 then []
    else if k - 1 in bits then Chosen(bits, texts, k - 1) + [texts[k - 1]]
    else Chosen(bits, texts, k - 1)
  }

  /** Written and read back, a set of bits yields its own texts. */
  lemma {:induction false} DescriptionsComeBack(b: seq<octet>, bits: seq<nat>, texts: seq<string>, k: nat)
    requires Holds(b, bits) && k <= |texts|
    ensures Described(b, texts, k) == Chosen(bits, texts, k)
  {
    hide Has, Bit;
    if k > 0 {
      DescriptionsComeBack(b, bits, texts, k - 1);
      assert BitAt(b, k - 1) <==> k - 1 in bits;
      BitIsInside(b, k - 1);
    }
  }

  lemma BitIsInside(b: seq<octet>, k: nat)
    ensures BitAt(b, k) ==> k < 8 * (|b| - 1)
  {
  }

  /** No bit lies past the octets. */
  lemma {:induction false} NoneBeyond(b: seq<octet>, texts: seq<string>, j: nat, k: nat)
    requires j <= k <= |texts| && (j == k || 8 * (|b| - 1) <= j)
    ensures Described(b, texts, k) == Described(b, texts, j)
    decreases k
  {
    if j < k {
      NoneBeyond(b, texts, j, k - 1);
      BitIsInside(b, k - 1);
    }
  }

  /** A table of texts ends at its first null. */
  function TableLen(desc: seq<Option<string>>, from: nat): (n: nat)
    requires from < |desc| && Last(desc).None?
    ensures from <= n < |desc| && desc[n].None? && forall i :: from <= i < n ==> desc[i].Some?
    decreases |desc| - from
  {
    if desc[from].None? then from else TableLen(desc, from + 1)
  }

  function Texts(desc: seq<Option<string>>): seq<string>
    requires desc != [] && Last(desc).None?
  {
    seq(TableLen(desc, 0), i requires 0 <= i < TableLen(desc, 0) => desc[i].value)
  }

  /** buffer[j] without the unused bits: lpac/euicc/derutil.c:343-347 */
  function Flags(b: seq<octet>, j: nat): octet
    requires j + 1 < |b| && b[0] <= 8
  {
    if j + 2 == |b| then b[j + 1] & !(0xFF >> (8 - b[0])) else b[j + 1]
  }

  lemma MaskClears(x: octet, unused: octet, p: nat)
    requires unused <= 8 && p < 8
    ensures Has(x & !(0xFF >> (8 - unused)), p) <==> Has(x, p) && p >= unused as nat
  {
  }

  lemma FlagIsUsedBit(b: seq<octet>, j: nat, i: nat)
    requires j + 1 < |b| && b[0] <= 8 && i < 8
    ensures Has(Flags(b, j), 7 - i) <==> UsedBit(b, 8 * j + i)
  {
    hide Has;
    assert (8 * j + i) / 8 == j && (8 * j + i) % 8 == i;
    MaskClears(b[j + 1], b[0], 7 - i);
  }

  /** x moved up by i bits in a wider register. */
  function Raised(x: octet, i: nat): bv16
    requires i <= 8
  {
    var w := x as bv16;
    if i == 0 then w else if i == 1 then w << 1 else if i == 2 then w << 2 else if i == 3 then w << 3
    else if i == 4 then w << 4 else if i == 5 then w << 5 else if i == 6 then w << 6
    else if i == 7 then w << 7 else w << 8
  }

  lemma RaisedStep(x: octet, i: nat)
    requires i < 8
    ensures Raised(x, i + 1) == Raised(x, i) << 1
    ensures Raised(x, i) & 0x80 != 0 <==> Has(x, 7 - i)
  {
  }

  /** The bits of one octet, counted: lpac/euicc/derutil.c:343-353. */
  method CountOctet(b: seq<octet>, texts: seq<string>, j: nat, before: nat) returns (count: nat)
    requires j + 1 < |b| && b[0] <= 8
    requires before == |Described(b, texts, Least(8 * j, |texts|))|
    ensures count == |Described(b, texts, Least(8 * j + 8, |texts|))|
  {
    hide Raised, Has, UsedBit, Flags;
    var x := Flags(b, j);
    var flags := x as bv16;
    RaisedStart(x);
    count := before;
    var i := 0;
    while i < 8 && j * 8 + i < |texts|
      invariant i <= 8 && flags == Raised(x, i)
      invariant count == |Described(b, texts, Least(8 * j + i, |texts|))|
    {
      RaisedStep(x, i);
      FlagIsUsedBit(b, j, i);
      if flags & 0x80 != 0 {
        count := count + 1;
      }
      flags := flags << 1;
      i := i + 1;
    }
  }

  function Least(x: nat, y: nat): nat {
    if x < y then x else y
  }

  lemma RaisedStart(x: octet)
    ensures Raised(x, 0) == x as bv16
  {
  }

  /** The texts of one octet, written: lpac/euicc/derutil.c:362-375. */
  method FillOctet(b: seq<octet>, texts: seq<string>, j: nat, output: array<Option<string>>, at: nat)
    returns (w: nat)
    requires j + 1 < |b| && b[0] <= 8
    requires at == |Described(b, texts, Least(8 * j, |texts|))|
    requires |Described(b, texts, Least(8 * j + 8, |texts|))| <= output.Length
    requires Begins(output[..], Described(b, texts, Least(8 * j, |texts|)))
    modifies output
    ensures w == |Described(b, texts, Least(8 * j + 8, |texts|))|
    ensures Begins(output[..], Described(b, texts, Least(8 * j + 8, |texts|)))
  {
    hide Raised, Has, UsedBit, Flags, Begins;
    var x := Flags(b, j);
    var flags := x as bv16;
    RaisedStart(x);
    w := at;
    var i := 0;
    while i < 8 && j * 8 + i < |texts|
      invariant i <= 8 && flags == Raised(x, i)
      invariant w == |Described(b, texts, Least(8 * j + i, |texts|))|
      invariant Begins(output[..], Described(b, texts, Least(8 * j + i, |texts|)))
    {
      RaisedStep(x, i);
      FlagIsUsedBit(b, j, i);
      DescribedGrows(b, texts, 8 * j + i + 1, Least(8 * j + 8, |texts|));
      if flags & 0x80 != 0 {
        BeginsSnoc(output[..], Described(b, texts, 8 * j + i), texts[j * 8 + i]);
        output[w] := Some(texts[j * 8 + i]);
        w := w + 1;
      }
      flags := flags << 1;
      i := i + 1;
    }
  }

  lemma {:induction false} DescribedGrows(b: seq<octet>, texts: seq<string>, j: nat, k: nat)
    requires j <= k <= |texts|
    ensures |Described(b, texts, j)| <= |Described(b, texts, k)|
    decreases k
  {
    if j < k {
      DescribedGrows(b, texts, j, k - 1);
    }
  }

  /** The texts come first and only nulls after them. */
  predicate Begins(output: seq<Option<string>>, texts: seq<string>) {
    && |texts| <= |output|
    && (forall i :: 0 <= i < |texts| ==> output[i] == Some(texts[i]))
    && (forall i :: |texts| <= i < |output| ==> output[i].None?)
  }

  /**
   * lpac/euicc/derutil.c:321-378. The shift by 8 - unused asks for at most eight unused bits. The
   * counting pass makes just enough room for the filling pass and the null that ends the list.
   */
  method Bin2BitsStr(b: seq<octet>, desc: seq<Option<string>>) returns (output: Option<array<Option<string>>>)
    requires desc != [] && Last(desc).None?
    requires |b| > 1 ==> b[0] <= 8
    ensures output.None? <==> b == []
    ensures output.Some? ==> fresh(output.value)
    ensures output.Some? ==>
              var d := Described(b, Texts(desc), |Texts(desc)|);
              && output.value.Length == |d| + 1 && Begins(output.value[..], d)
  {
    hide UsedBit, Flags, Begins;
    if b == [] {
      return None;
    }
    var maxCapLen := 0;
    while desc[maxCapLen].Some?
      invariant maxCapLen < |desc| && TableLen(desc, maxCapLen) == TableLen(desc, 0)
      decreases |desc| - maxCapLen
    {
      maxCapLen := maxCapLen + 1;
    }
    var texts := Texts(desc);
    var count := 0;
    for j := 0 to |b| - 1
      invariant count == |Described(b, texts, Least(8 * j, maxCapLen))|
    {
      count := CountOctet(b, texts, j, count);
    }
    AllSeen(b, texts);
    var list := new Option<string>[count + 1](_ => None);
    BeginsEmpty(list[..]);
    var w := 0;
    for j := 0 to |b| - 1
      invariant w == |Described(b, texts, Least(8 * j, maxCapLen))|
      invariant Begins(list[..], Described(b, texts, Least(8 * j, maxCapLen)))
    {
      DescribedGrows(b, texts, Least(8 * j + 8, maxCapLen), maxCapLen);
      w := FillOctet(b, texts, j, list, w);
    }
    return Some(list);
  }

  lemma AllSeen(b: seq<octet>, texts: seq<string>)
    requires b != []
    ensures Described(b, texts, Least(8 * (|b| - 1), |texts|)) == Described(b, texts, |texts|)
  {
    NoneBeyond(b, texts, Least(8 * (|b| - 1), |texts|), |texts|);
  }

  lemma BeginsSnoc(output: seq<Option<string>>, texts: seq<string>, text: string)
    requires Begins(output, texts) && |texts| < |output|
    ensures Begins(output[|texts| := Some(text)], texts + [text])
  {
  }

  lemma BeginsEmpty(output: seq<Option<string>>)
    requires forall i :: 0 <= i < |output| ==> output[i].None?
    ensures Begins(output, [])
  {
  }
}
