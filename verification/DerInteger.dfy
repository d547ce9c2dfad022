/** lpac/euicc/derutil.c, lines 247-282: long integers as the contents octets of a DER INTEGER. */
module DerInteger {
  import opened Bytes

  const LONG_OCTETS: nat := 8
  const TWO_63: int := 0x8000_0000_0000_0000
  const TWO_55: int := 0x80_0000_0000_0000

  /** A 64-bit long. */
  type long = x: int | -TWO_63 <= x < TWO_63

  /** What the contents octets of an INTEGER stand for: section 8.3.3 of X.690. */
  function Signed(b: seq<byte>): int
    requires b != []
  {
    if b[0] < 128 then Value(b) else Value(b) - Pow256(|b|)
  }

  /** The first nine bits are not all alike: section 8.3.2 of X.690. */
  predicate Minimal(b: seq<byte>) {
    |b| > 1 ==> !(b[0] == 0 && b[1] < 128) && !(b[0] == 255 && b[1] >= 128)
  }

  /** value >> (8 * i), the sign drawn in from the left. */
  function Sar(value: int, i: nat): int
    decreases i
  {
    if i == 0 then value else Sar(value / 256, i - 1)
  }

  /** The low n octets of a two's complement number. */
  function Octets(value: int, n: nat): (b: seq<byte>)
    ensures |b| == n
    decreases n
  {
    if n == 0 then [] else Octets(value / 256, n - 1) + [value % 256]
  }

  lemma {:induction false} OctetAt(value: int, n: nat, k: nat)
    requires k < n
    ensures Octets(value, n)[n - 1 - k] == Sar(value, k) % 256
    decreases n
  {
    if k > 0 {
      OctetAt(value / 256, n - 1, k - 1);
    }
  }

  lemma {:induction false} ValueOfOctets(value: int, n: nat)
    requires 0 <= value + Pow256(n) && value < Pow256(n)
    ensures Value(Octets(value, n)) == if value < 0 then value + Pow256(n) else value
    decreases n
  {
    if n > 0 {
      ValueOfOctets(value / 256, n - 1);
      assert Init(Octets(value, n)) == Octets(value / 256, n - 1);
    }
  }

  /** The sign bit of the octets is the sign of a number that they can hold. */
  lemma {:induction false} SignOctet(value: int, n: nat)
    requires 1 <= n && -128 * Pow256(n - 1) <= value < 128 * Pow256(n - 1)
    ensures Octets(value, n)[0] >= 128 <==> value < 0
    decreases n
  {
    if n > 1 {
      SignOctet(value / 256, n - 1);
    } else {
      assert Pow256(0) == 1;
    }
  }

  lemma SignedOctets(value: int, n: nat)
    requires 1 <= n && -128 * Pow256(n - 1) <= value < 128 * Pow256(n - 1)
    ensures Signed(Octets(value, n)) == value
  {
    assert Pow256(n) == 256 * Pow256(n - 1);
    SignOctet(value, n);
    ValueOfOctets(value, n);
  }

  /** The octets are as few as can be exactly when one fewer would not hold the number. */
  lemma {:induction false} MinimalOctets(value: int, n: nat)
    requires 2 <= n && -128 * Pow256(n - 1) <= value < 128 * Pow256(n - 1)
    ensures Minimal(Octets(value, n)) <==> !(-128 * Pow256(n - 2) <= value < 128 * Pow256(n - 2))
    decreases n
  {
    if n > 2 {
      MinimalOctets(value / 256, n - 1);
    } else {
      TwoOctets(value);
    }
  }

  lemma TwoOctets(value: int)
    requires -32768 <= value < 32768
    ensures Pow256(0) == 1 && Pow256(1) == 256
    ensures Minimal(Octets(value, 2)) <==> !(-128 <= value < 128)
  {
    assert Octets(value, 2) == [(value / 256) % 256, value % 256];
  }

  /** The number of octets the code settles on. */
  function RequiredLen(value: long): (n: nat)
    ensures 1 <= n <= LONG_OCTETS
  {
    if value < 0 then LONG_OCTETS else Holding(value, 1)
  }

  /** The least number of octets, from i on, that hold a non-negative value. */
  function Holding(value: long, i: nat): (n: nat)
    requires 1 <= i <= LONG_OCTETS
    ensures i <= n <= LONG_OCTETS
    decreases LONG_OCTETS - i
  {
    if i == LONG_OCTETS || value < 128 * Pow256(i - 1) then i else Holding(value, i + 1)
  }

  lemma {:induction false} SarBounds(value: int, i: nat)
    ensures Sar(value, i) >= 1 <==> value >= Pow256(i)
    ensures Sar(value, i) >= 128 <==> value >= 128 * Pow256(i)
    ensures Sar(value, i) < 0 <==> value < 0
    decreases i
  {
    if i > 0 {
      SarBounds(value / 256, i - 1);
    }
  }

  lemma {:induction false} HoldingHolds(value: long, i: nat)
    requires 1 <= i <= LONG_OCTETS && value >= 0 && (i == 1 || value >= 128 * Pow256(i - 2))
    ensures var n := Holding(value, i);
            value < 128 * Pow256(n - 1) && (n > 1 ==> value >= 128 * Pow256(n - 2))
    decreases LONG_OCTETS - i
  {
    if i == LONG_OCTETS {
      Pow256Seven();
    } else if value >= 128 * Pow256(i - 1) {
      HoldingHolds(value, i + 1);
    }
  }

  lemma Pow256Seven()
    ensures 128 * Pow256(7) == TWO_63 && 128 * Pow256(6) == TWO_55
  {
    assert Pow256(2) == 0x1_0000;
    assert Pow256(4) == 0x1_0000_0000;
    assert Pow256(6) == 0x1_0000_0000_0000;
  }

  /** The contents octets the code writes for a value. */
  function Encoding(value: long): seq<byte> {
    Octets(value, RequiredLen(value))
  }

  /** They always stand for the value; a negative value takes eight of them, which is too many above -2^55. */
  lemma EncodingStandsForValue(value: long)
    ensures Signed(Encoding(value)) == value
    ensures Minimal(Encoding(value)) <==> value >= 0 || value < -TWO_55
  {
    hide Minimal, Signed;
    Pow256Seven();
    if value >= 0 {
      HoldingHolds(value, 1);
    }
    var n := RequiredLen(value);
    SignedOctets(value, n);
    if n > 1 {
      MinimalOctets(value, n);
    } else {
      OneOctet(value);
    }
  }

  lemma OneOctet(value: int)
    ensures Minimal(Octets(value, 1))
  {
  }

  /** 64-bit arithmetic of a long, as two's complement has it. */
  function Wrap(x: int): long {
    (x + TWO_63) % (2 * TWO_63) - TWO_63
  }

  lemma WrapSmall(x: long)
    ensures Wrap(x) == x
  {
  }

  lemma WrapStep(x: int, y: int)
    ensures Wrap(256 * Wrap(x) + y) == Wrap(256 * x + y)
  {
    var q := (x + TWO_63) / (2 * TWO_63);
    assert Wrap(x) == x - q * (2 * TWO_63);
    WrapShift(256 * x + y, -256 * q);
  }

  lemma WrapShift(x: int, k: int)
    ensures Wrap(x + k * (2 * TWO_63)) == Wrap(x)
  {
  }

  /** Reading the octets back gives the value, for every long. */
  lemma BackToLong(value: long)
    ensures Wrap(Value(Encoding(value))) == value
    ensures value >= 0 ==> Value(Encoding(value)) == value
  {
    hide Wrap, Value, Octets;
    WrapSmall(value);
    Pow256Seven();
    var n := RequiredLen(value);
    if value >= 0 {
      HoldingHolds(value, 1);
      assert Pow256(n) == 256 * Pow256(n - 1);
    } else {
      assert Pow256(8) == 2 * TWO_63;
      WrapShift(value, 1);
    }
    ValueOfOctets(value, n);
  }

  // ---- The code

  /** lpac/euicc/derutil.c:247-253 */
  method Bin2Long(buffer: array<byte>, bufferLen: nat) returns (result: long)
    requires bufferLen <= buffer.Length
    ensures result == Wrap(Value(buffer[..bufferLen]))
  {
    hide Wrap;
    result := 0;
    WrapSmall(0);
    for i := 0 to bufferLen
      invariant result == Wrap(Value(buffer[..i]))
    {
      WrapStep(Value(buffer[..i]), buffer[i]);
      PrefixStep(buffer[..], i);
      assert buffer[..][..i] == buffer[..i] && buffer[..][..i + 1] == buffer[..i + 1];
      result := Wrap(256 * result + buffer[i]);
    }
  }

  /** lpac/euicc/derutil.c:256-269 */
  method CountOctets(value: long) returns (requiredLen: nat)
    ensures requiredLen == RequiredLen(value)
  {
    requiredLen := 1;
    var i := 1;
    while i < LONG_OCTETS
      invariant 1 <= i <= LONG_OCTETS && requiredLen == i
      invariant value >= 0 ==> Holding(value, 1) == Holding(value, i)
    {
      hide Sar;
      SarBounds(value, i);
      if Sar(value, i) != 0 {
        requiredLen := requiredLen + 1;
      } else {
        if value > 0 {
          SarBounds(value, i - 1);
          if (Sar(value, i - 1) / 128) % 2 != 0 {
            requiredLen := requiredLen + 1;
          }
        }
        break;
      }
      i := i + 1;
    }
  }

  /** lpac/euicc/derutil.c:255-282 */
  method Long2Bin(buffer: array<byte>, bufferLen: nat, value: long) returns (r: int, length: nat)
    requires bufferLen <= buffer.Length
    modifies buffer
    ensures r == if |Encoding(value)| <= bufferLen then 0 else -1
    ensures r == 0 ==> length == |Encoding(value)| && buffer[..] == Splice(old(buffer[..]), 0, Encoding(value))
    ensures r < 0 ==> length == bufferLen && buffer[..] == old(buffer[..])
  {
    hide Octets, Sar;
    var requiredLen := CountOctets(value);
    if requiredLen > bufferLen {
      return -1, bufferLen;
    }
    ghost var was := buffer[..];
    for i := 0 to requiredLen
      invariant forall j :: 0 <= j < i ==> buffer[j] == Encoding(value)[j]
      invariant forall j :: i <= j < buffer.Length ==> buffer[j] == was[j]
    {
      OctetAt(value, requiredLen, requiredLen - i - 1);
      buffer[i] := Sar(value, requiredLen - i - 1) % 256;
    }
    Spliced(was, 0, Encoding(value), buffer[..]);
    return 0, requiredLen;
  }
}
