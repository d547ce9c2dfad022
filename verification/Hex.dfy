/**
 * lpac/euicc/hexutil.c: hexadecimal text and the swapped-nibble decimal text of
 * ICCIDs and IMEIs. Strings are character arrays ended by a NUL.
 */
module Hex {
  import opened Bytes

  // ---- What the text stands for

  function HexDigit(n: nat): (c: char)
    requires n < 16
    ensures Nibble(c) == Some(n) && Lower(c) == c
  {
    if n < 10 then '0' + n as char else 'a' + (n - 10) as char
  }

  /** The digits are 0 to 9 and a to f. */
  lemma HexDigitIs(n: nat)
    requires n < 16
    ensures HexDigit(n) == ("01234567" + "89abcdef")[n]
  {
    assert forall k :: 0 <= k < 8 ==> ("01234567" + "89abcdef")[k] == "01234567"[k];
  }

  /** Octets as text, and the swapped digits of an ICCID of odd length. */
  lemma HexExamples()
    ensures HexOf([0x1A, 0x0F]) == "1a0f"
    ensures IsHex("89123") && BcdBytes("89123", 4) == [0x98, 0x21, 0xF3, 0xFF]
  {
    var s := "89123";
    assert forall i :: 0 <= i < |s| ==> Nibble(s[i]).Some?;
    var w := Swapped(Evened(s));
    assert w == "9821f3" by { assert Evened(s) == "89123f"; }
    EvenedIsHex(s);
    assert BytesOf(w) == [0x98, 0x21, 0xF3];
  }

  /** The value of a hexadecimal digit of either case. */
  function Nibble(c: char): (n: Option<nat>)
    ensures n.Some? ==> n.value < 16
  {
    if '0' <= c <= '9' then Some((c - '0') as nat)
    else if 'a' <= c <= 'f' then Some((c - 'a') as nat + 10)
    else if 'A' <= c <= 'F' then Some((c - 'A') as nat + 10)
    else None
  }

  function Lower(c: char): char {
    if 'A' <= c <= 'Z' then c - 'A' + 'a' else c
  }

  function LowerCase(s: string): (r: string)
    ensures |r| == |s|
  {
    seq(|s|, i requires 0 <= i < |s| => Lower(s[i]))
  }

  function HexOf(b: seq<byte>): (s: string)
    ensures |s| == 2 * |b| && |s| % 2 == 0
  {
    seq(2 * |b|, i requires 0 <= i < 2 * |b| => HexDigit(if i % 2 == 0 then b[i / 2] / 16 else b[i / 2] % 16))
  }

  predicate IsHex(s: string) {
    forall i :: 0 <= i < |s| ==> Nibble(s[i]).Some?
  }

  function BytesOf(s: string): (b: seq<byte>)
    requires |s| % 2 == 0 && IsHex(s)
    ensures |b| == |s| / 2
  {
    seq(|s| / 2, i requires 0 <= i < |s| / 2 => PairOf(s[2 * i], s[2 * i + 1]))
  }

  function PairOf(h: char, l: char): byte
    requires Nibble(h).Some? && Nibble(l).Some?
  {
    16 * Nibble(h).value + Nibble(l).value
  }

  lemma HexAt(b: seq<byte>, k: nat)
    requires k < |b|
    ensures HexOf(b)[2 * k] == HexDigit(b[k] / 16) && HexOf(b)[2 * k + 1] == HexDigit(b[k] % 16)
  {
  }

  lemma BytesAt(s: string, k: nat)
    requires |s| % 2 == 0 && IsHex(s) && k < |s| / 2
    ensures Nibble(s[2 * k]).Some? && Nibble(s[2 * k + 1]).Some?
    ensures BytesOf(s)[k] == PairOf(s[2 * k], s[2 * k + 1])
  {
  }

  lemma HexIsHex(b: seq<byte>)
    ensures IsHex(HexOf(b))
  {
  }

  lemma HexRoundTrip(b: seq<byte>)
    ensures IsHex(HexOf(b)) && BytesOf(HexOf(b)) == b
  {
    hide HexOf, IsHex;
    HexIsHex(b);
    forall k | 0 <= k < |b|
      ensures BytesOf(HexOf(b))[k] == b[k]
    {
      HexAt(b, k);
    }
  }

  lemma TextRoundTrip(s: string)
    requires |s| % 2 == 0 && IsHex(s)
    ensures HexOf(BytesOf(s)) == LowerCase(s)
  {
    var b := BytesOf(s);
    forall i | 0 <= i < |s|
      ensures HexOf(b)[i] == Lower(s[i])
    {
      hide HexOf, BytesOf, Lower, IsHex, HexDigit, PairOf;
      var k := i / 2;
      assert i == 2 * k || i == 2 * k + 1;
      BytesAt(s, k);
      HexAt(b, k);
      PairSplits(s[2 * k], s[2 * k + 1]);
    }
  }

  lemma PairSplits(h: char, l: char)
    requires Nibble(h).Some? && Nibble(l).Some?
    ensures HexDigit(PairOf(h, l) / 16) == Lower(h) && HexDigit(PairOf(h, l) % 16) == Lower(l)
  {
    assert PairOf(h, l) / 16 == Nibble(h).value;
  }

  function Partner(i: nat): (j: nat)
    ensures if i % 2 == 0 then j == i + 1 else j + 1 == i
  {
    if i % 2 == 0 then i + 1 else i - 1
  }

  /** Every two characters exchanged. */
  function Swapped(s: string): (r: string)
    requires |s| % 2 == 0
    ensures |r| == |s|
  {
    seq(|s|, i requires 0 <= i < |s| => s[Partner(i)])
  }

  lemma SwapTwice(s: string)
    requires |s| % 2 == 0
    ensures Swapped(Swapped(s)) == s
  {
  }

  lemma SwapJoin(s: string, t: string)
    requires |s| % 2 == 0 && |t| % 2 == 0
    ensures Swapped(s + t) == Swapped(s) + Swapped(t)
  {
  }

  /** Trailing f characters dropped, but never the first character. */
  function Trimmed(s: string): string {
    if |s| > 1 && Last(s) == 'f' then Trimmed(Init(s)) else s
  }

  function Repeat<T>(x: T, n: nat): (r: seq<T>)
    ensures |r| == n && forall i :: 0 <= i < n ==> r[i] == x
  {
    seq(n, i => x)
  }

  /** The text filled up to even length. */
  function Evened(s: string): (r: string)
    ensures |r| == |s| + |s| % 2
  {
    s + Repeat('f', |s| % 2)
  }

  /** What gsmbcd2bin makes of a text, filled up with 0xFF. */
  function BcdBytes(s: string, paddingTo: nat): (b: seq<byte>)
    requires IsHex(s) && |s| <= 2 * paddingTo
    ensures |b| == paddingTo
  {
    EvenedIsHex(s);
    BytesOf(Swapped(Evened(s))) + Repeat<byte>(0xFF, paddingTo - (|s| + 1) / 2)
  }

  /** How gsmbcd2bin ends: with a length, or at the end of the buffer with octets left to fill. */
  datatype Bcd = Failed | Filled(length: nat) | Overrun(fill: nat)

  /** The number of octets to fill is counted in 32 bits. */
  function Gsmbcd(s: string, outputLen: nat, paddingTo: nat): Bcd
  {
    var bytes := (|s| + 1) / 2;
    if outputLen < paddingTo || outputLen < bytes || !IsHex(s) then Failed
    else
      var fill := U32(paddingTo - bytes);
      if bytes + fill > outputLen then Overrun(fill) else Filled(bytes)
  }

  /** It overruns exactly on hexadecimal text that the buffer holds and padding_to does not. */
  lemma OverrunsExactly(s: string, outputLen: nat, paddingTo: nat)
    requires outputLen < 0x1_0000_0000
    ensures var r := Gsmbcd(s, outputLen, paddingTo);
            && (r.Filled? <==> IsHex(s) && paddingTo <= outputLen && |s| <= 2 * paddingTo)
            && (r.Overrun? <==> IsHex(s) && paddingTo <= outputLen && 2 * paddingTo < |s| <= 2 * outputLen)
  {
    hide IsHex;
  }

  /**
   * The calls: a nickname's ICCID never overruns, a profile's identifier does beyond twenty digits, and an IMEI
   * always does unless it is turned down. es10c.c:396, es10c.c:197 and es10b.c:605.
   */
  lemma CallsOverrunExactly(s: string)
    ensures !Gsmbcd(s, 10, 10).Overrun?
    ensures Gsmbcd(s, 16, 10).Overrun? <==> IsHex(s) && 20 < |s| <= 32
    ensures Gsmbcd(s, 8, 0).Overrun? <==> IsHex(s) && 0 < |s| <= 16
    ensures Gsmbcd(s, 8, 0).Filled? <==> s == ""
  {
    hide IsHex;
    OverrunsExactly(s, 10, 10);
    OverrunsExactly(s, 16, 10);
    OverrunsExactly(s, 8, 0);
    NothingIsHex();
  }

  lemma NothingIsHex()
    ensures IsHex("")
  {
  }

  lemma EvenedIsHex(s: string)
    ensures IsHex(Swapped(Evened(s))) <==> IsHex(s)
  {
    var e, w := Evened(s), Swapped(Evened(s));
    assert Nibble('f') == Some(15);
    if IsHex(w) {
      forall i | 0 <= i < |s|
        ensures Nibble(s[i]).Some?
      {
        assert w[Partner(i)] == e[i];
      }
    }
  }

  function BcdText(b: seq<byte>): string {
    Trimmed(Swapped(HexOf(b)))
  }

  /**
   * Back and forth, a text returns in lower case exactly when trimming cannot eat into it:
   * it is a single digit or does not end in f. A decimal text always returns.
   */
  lemma BcdRoundTrip(s: string, paddingTo: nat)
    requires s != "" && IsHex(s) && |s| <= 2 * paddingTo
    ensures BcdText(BcdBytes(s, paddingTo)) == LowerCase(s) <==> |s| == 1 || Lower(Last(s)) != 'f'
    ensures (forall i :: 0 <= i < |s| ==> '0' <= s[i] <= '9') ==> BcdText(BcdBytes(s, paddingTo)) == s
  {
    hide HexOf, BytesOf, Trimmed, IsHex;
    var fill := Repeat('f', 2 * paddingTo - |s|);
    BcdUntrimmed(s, paddingTo);
    TrimFill(LowerCase(s), |fill|);
    TrimKeeps(LowerCase(s));
    if forall i :: 0 <= i < |s| ==> '0' <= s[i] <= '9' {
      assert LowerCase(s) == s;
    }
  }

  /** Before trimming, the text comes back with f characters after it. */
  lemma BcdUntrimmed(s: string, paddingTo: nat)
    requires IsHex(s) && |s| <= 2 * paddingTo
    ensures Swapped(HexOf(BcdBytes(s, paddingTo))) == LowerCase(s) + Repeat('f', 2 * paddingTo - |s|)
  {
    hide HexOf, BytesOf, Swapped, IsHex, Evened;
    EvenedIsHex(s);
    var e, pad := Evened(s), paddingTo - (|s| + 1) / 2;
    var b := BytesOf(Swapped(e));
    HexJoin(b, Repeat<byte>(0xFF, pad));
    HexOfFill(pad);
    TextRoundTrip(Swapped(e));
    LowerOfSwapped(e);
    SwapJoin(Swapped(LowerCase(e)), Repeat('f', 2 * pad));
    SwapTwice(LowerCase(e));
    SwapOfFill(2 * pad);
    LowerOfEvened(s);
    assert LowerCase(s) + Repeat('f', |s| % 2) + Repeat('f', 2 * pad)
        == LowerCase(s) + Repeat('f', 2 * paddingTo - |s|);
  }

  lemma HexJoin(a: seq<byte>, b: seq<byte>)
    ensures HexOf(a + b) == HexOf(a) + HexOf(b)
  {
  }

  lemma HexOfFill(n: nat)
    ensures HexOf(Repeat<byte>(0xFF, n)) == Repeat('f', 2 * n)
  {
  }

  lemma SwapOfFill(n: nat)
    requires n % 2 == 0
    ensures Swapped(Repeat('f', n)) == Repeat('f', n)
  {
  }

  lemma LowerOfSwapped(s: string)
    requires |s| % 2 == 0
    ensures LowerCase(Swapped(s)) == Swapped(LowerCase(s))
  {
  }

  lemma LowerOfEvened(s: string)
    ensures LowerCase(Evened(s)) == LowerCase(s) + Repeat('f', |s| % 2)
  {
  }

  lemma {:induction false} TrimFill(s: string, n: nat)
    requires s != ""
    ensures Trimmed(s + Repeat('f', n)) == Trimmed(s)
  {
    if n == 0 {
      assert s + Repeat('f', 0) == s;
    } else {
      TrimFill(s, n - 1);
      assert Init(s + Repeat('f', n)) == s + Repeat('f', n - 1);
    }
  }

  lemma {:induction false} TrimKeeps(s: string)
    requires s != ""
    ensures |Trimmed(s)| <= |s|
    ensures Trimmed(s) == s <==> |s| == 1 || Last(s) != 'f'
  {
    if |s| > 1 && Last(s) == 'f' {
      TrimKeeps(Init(s));
    }
  }

  // ---- The code

  /** lpac/euicc/hexutil.c:18-22. An odd length takes in the character after it. */
  method GsmbcdSwapChars(input: array<char>, inputLen: nat)
    requires inputLen + inputLen % 2 <= input.Length
    modifies input
    ensures var m := inputLen + inputLen % 2;
            input[..m] == Swapped(old(input[..m])) && input[m..] == old(input[m..])
  {
    hide Partner;
    ghost var was, m := input[..], inputLen + inputLen % 2;
    assert m % 2 == 0;
    var i := 0;
    while i < inputLen
      invariant i <= m && i % 2 == 0
      invariant forall j :: 0 <= j < i ==> Partner(j) < i && input[j] == was[Partner(j)]
      invariant forall j :: i <= j < input.Length ==> input[j] == was[j]
    {
      PartnersAt(i);
      input[i], input[i + 1] := input[i + 1], input[i];
      i := i + 2;
    }
    assert i == m;
    assert input[..m] == Swapped(was[..m]);
  }

  lemma PartnersAt(i: nat)
    requires i % 2 == 0
    ensures Partner(i) == i + 1 && Partner(i + 1) == i
  {
  }

  /** lpac/euicc/hexutil.c:24-38 */
  method Bin2Hex(output: array<char>, bin: array<byte>, binLen: nat) returns (r: int)
    requires binLen <= bin.Length
    modifies output
    ensures r == if output.Length < 2 * binLen + 1 then -1 else 2 * binLen
    ensures output[..] == Splice(old(output[..]), 0, if r < 0 then "" else HexOf(bin[..binLen]) + "\0")
  {
    if output.Length < 2 * binLen + 1 {
      assert output[..] == Splice(output[..], 0, "");
      return -1;
    }
    ghost var text, was := HexOf(bin[..binLen]), output[..];
    var n := 0;
    for i := 0 to binLen
      invariant n == 2 * i
      invariant forall j :: 0 <= j < n ==> output[j] == text[j]
      invariant forall j :: n <= j < output.Length ==> output[j] == was[j]
    {
      output[n] := HexDigit(bin[i] / 16);
      n := n + 1;
      output[n] := HexDigit(bin[i] % 16);
      n := n + 1;
    }
    output[n] := '\0';
    Spliced(was, 0, text + "\0", output[..]);
    return n;
  }

  /** lpac/euicc/hexutil.c:43-75, as built with the C library. */
  method Hex2Bin(output: array<byte>, outputLen: nat, input: array<char>, inputLen: nat) returns (r: int)
    requires outputLen <= output.Length && inputLen <= input.Length
    modifies output
    ensures r == if inputLen % 2 == 0 && inputLen / 2 <= outputLen && IsHex(input[..inputLen]) then inputLen / 2 else -1
    ensures r >= 0 ==> output[..] == Splice(old(output[..]), 0, BytesOf(input[..inputLen]))
    ensures forall j :: outputLen <= j < output.Length ==> output[j] == old(output[j])
  {
    if inputLen % 2 != 0 || outputLen < inputLen / 2 {
      return -1;
    }
    ghost var text, was := input[..inputLen], output[..];
    var bytes, i := 0, 0;
    while i < inputLen
      invariant i <= inputLen && i == 2 * bytes
      invariant forall j :: 0 <= j < i ==> Nibble(text[j]).Some?
      invariant forall j :: 0 <= j < bytes ==> output[j] == PairOf(text[2 * j], text[2 * j + 1])
      invariant forall j :: bytes <= j < output.Length ==> output[j] == was[j]
    {
      var h, l := Nibble(input[i]), Nibble(input[i + 1]);
      if !(h.Some? && l.Some?) {
        assert text[i] == input[i] && text[i + 1] == input[i + 1];
        return -1;
      }
      output[bytes] := 16 * h.value + l.value;
      bytes := bytes + 1;
      i := i + 2;
    }
    Spliced(was, 0, BytesOf(text), output[..]);
    return bytes;
  }

  lemma HalfOfEvened(n: nat)
    ensures (n + n % 2) % 2 == 0 && (n + n % 2) / 2 == (n + 1) / 2
  {
  }

  /** The text evened out and swapped: lpac/euicc/hexutil.c:82-89. */
  method SwappedCopy(input: array<char>, n: nat) returns (bin: array<char>)
    requires n <= input.Length
    ensures fresh(bin) && bin[..] == Swapped(Evened(input[..n]))
  {
    hide Swapped;
    bin := new char[n + n % 2](_ => '\0');
    forall i | 0 <= i < n {
      bin[i] := input[i];
    }
    forall i | n <= i < n + n % 2 {
      bin[i] := 'f';
    }
    assert bin[..n + n % 2] == Evened(input[..n]);
    GsmbcdSwapChars(bin, n + n % 2);
    assert bin[..] == bin[..n + n % 2];
  }

  /** lpac/euicc/hexutil.c:77-97 */
  method Gsmbcd2Bin(output: array<byte>, outputLen: nat, input: array<char>, n: nat, paddingTo: nat) returns (r: Bcd)
    requires n <= input.Length && outputLen <= output.Length && outputLen < 0x1_0000_0000
    modifies output
    ensures r == Gsmbcd(input[..n], outputLen, paddingTo)
    ensures r.Filled? ==>
              n <= 2 * paddingTo && output[..] == Splice(old(output[..]), 0, BcdBytes(input[..n], paddingTo))
  {
    hide IsHex, Swapped, BytesOf, Evened, Splice, Repeat;
    OverrunsExactly(input[..n], outputLen, paddingTo);
    if outputLen < paddingTo {
      return Failed;
    }
    ghost var text, was := input[..n], output[..];
    var bin := SwappedCopy(input, n);
    EvenedIsHex(text);
    HalfOfEvened(n);
    assert bin[..bin.Length] == bin[..];
    var bytes := Hex2Bin(output, outputLen, bin, bin.Length);
    assert input[..n] == text;
    if bytes == -1 {
      return Failed;
    }
    var fill := U32(paddingTo - bytes);
    if bytes + fill > outputLen {
      return Overrun(fill);
    }
    Fill(output, bytes, paddingTo);
    SpliceSplice(was, 0, BytesOf(Swapped(Evened(text))), Repeat<byte>(0xFF, paddingTo - bytes));
    return Filled(bytes);
  }

  /** memset with 0xFF. */
  method Fill(output: array<byte>, from: nat, to: nat)
    requires from <= to <= output.Length
    modifies output
    ensures output[..] == Splice(old(output[..]), from, Repeat<byte>(0xFF, to - from))
  {
    ghost var was := output[..];
    forall i | from <= i < to {
      output[i] := 0xFF;
    }
    Spliced(was, from, Repeat<byte>(0xFF, to - from), output[..]);
  }

  /**
   * lpac/euicc/hexutil.c:99-112. The result is the place of the last character of the text,
   * one less than its length.
   */
  method Bin2Gsmbcd(output: array<char>, bin: array<byte>, binLen: nat) returns (r: int)
    requires 0 < binLen <= bin.Length
    modifies output
    ensures output.Length < 2 * binLen + 1 ==> r == -1 && output[..] == old(output[..])
    ensures output.Length >= 2 * binLen + 1 ==>
              && 0 <= r < 2 * binLen && output[..r + 1] == BcdText(bin[..binLen])
              && output[r + 1] == '\0' && output[2 * binLen + 1..] == old(output[2 * binLen + 1..])
  {
    hide HexOf, Swapped, Trimmed;
    ghost var was := output[..];
    var n := Bin2Hex(output, bin, binLen);
    if n < 0 {
      return -1;
    }
    ghost var m := n;
    assert output[..m] == HexOf(bin[..binLen]) && output[m] == '\0';
    n := n - 1;
    GsmbcdSwapChars(output, n);
    assert output[m] == '\0' by { assert output[m] == output[m..][0]; }
    assert output[m + 1..] == was[m + 1..] by { assert output[m + 1..] == output[m..][1..]; }
    n := TrimF(output, n);
    return n;
  }

  /** lpac/euicc/hexutil.c:108-110 */
  method TrimF(output: array<char>, last: nat) returns (n: nat)
    requires last + 1 < output.Length && output[last + 1] == '\0'
    modifies output
    ensures n <= last && output[..n + 1] == Trimmed(old(output[..last + 1])) && output[n + 1] == '\0'
    ensures output[last + 1..] == old(output[last + 1..])
  {
    n := last;
    while n > 0 && output[n] == 'f'
      invariant n <= last
      invariant Trimmed(output[..n + 1]) == Trimmed(old(output[..last + 1])) && output[n + 1] == '\0'
      invariant output[last + 1..] == old(output[last + 1..])
    {
      assert Init(output[..n + 1]) == output[..n];
      output[n] := '\0';
      n := n - 1;
    }
  }
}
