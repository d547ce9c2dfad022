/**
 * lpac/euicc/base64.c, and the in-place trim of lpac/euicc/es9p.c that runs
 * before it. Strings are octets up to the first NUL.
 */
module Base64 {
  import opened Bytes

  /** basis_64 */
  function Basis(i: nat): byte
    requires i < 64
  {
    if i < 26 then 65 + i          // A to Z
    else if i < 52 then 97 + i - 26  // a to z
    else if i < 62 then 48 + i - 52  // 0 to 9
    else if i == 62 then 43          // +
    else 47                          // /
  }

  /** pr2six: 64 marks the octets outside the alphabet. */
  function Six(c: byte): (i: nat)
    ensures i <= 64
  {
    if 65 <= c <= 90 then c - 65
    else if 97 <= c <= 122 then c - 97 + 26
    else if 48 <= c <= 57 then c - 48 + 52
    else if c == 43 then 62
    else if c == 47 then 63
    else 64
  }

  const PAD: byte := 61

  lemma SixBasis(i: nat)
    requires i < 64
    ensures Six(Basis(i)) == i
  {
  }

  /** The four characters of a 24-bit group, most significant bits first (section 4 of RFC 4648). */
  function Group(v: nat): (g: seq<byte>)
    requires v < 0x100_0000
    ensures |g| == 4
  {
    [Basis(v / 0x4_0000), Basis(v / 0x1000 % 64), Basis(v / 64 % 64), Basis(v % 64)]
  }

  function Bits24(x: byte, y: byte, z: byte): (v: nat)
    ensures v < 0x100_0000
  {
    x as nat * 0x1_0000 + y as nat * 0x100 + z as nat
  }

  /** The encoding of b, padded as section 4 of RFC 4648 asks. */
  function Encoded(b: seq<byte>): seq<byte> {
    if b == [] then []
    else if |b| == 1 then Group(Bits24(b[0], 0, 0))[..2] + [PAD, PAD]
    else if |b| == 2 then Group(Bits24(b[0], b[1], 0))[..3] + [PAD]
    else Group(Bits24(b[0], b[1], b[2])) + Encoded(b[3..])
  }

  lemma {:induction false} EncodedLength(b: seq<byte>)
    ensures |Encoded(b)| == (|b| + 2) / 3 * 4
  {
    hide Group, Bits24;
    if |b| >= 3 {
      EncodedLength(b[3..]);
      assert (|b| + 2) / 3 == 1 + (|b[3..]| + 2) / 3;
    }
  }

  predicate InAlphabet(a: seq<byte>) {
    forall i :: 0 <= i < |a| ==> Six(a[i]) < 64
  }

  /** How many leading characters of s belong to the alphabet. */
  function Run(s: seq<byte>): (n: nat)
    ensures n <= |s|
  {
    if s == [] || Six(s[0]) == 64 then 0 else 1 + Run(s[1..])
  }

  function Alphabetic(s: seq<byte>): seq<byte> {
    s[..Run(s)]
  }

  lemma {:induction false} RunIs(s: seq<byte>, n: nat)
    requires n <= |s| && InAlphabet(s[..n]) && (n < |s| ==> Six(s[n]) == 64)
    ensures Run(s) == n
  {
    hide Six;
    if n > 0 {
      assert s[0] == s[..n][0];
      assert s[1..][..n - 1] == s[..n][1..];
      RunIs(s[1..], n - 1);
    }
  }

  lemma {:induction false} RunStops(s: seq<byte>)
    ensures InAlphabet(Alphabetic(s)) && (Run(s) < |s| ==> Six(s[Run(s)]) == 64)
  {
    hide Six;
    if s != [] && Six(s[0]) != 64 {
      RunStops(s[1..]);
      assert Alphabetic(s) == [s[0]] + Alphabetic(s[1..]);
    }
  }

  /** The octets a run of alphabet characters stands for; a single left-over character stands for none. */
  function Decoded(a: seq<byte>): (b: seq<byte>)
    requires InAlphabet(a)
  {
    if |a| <= 1 then []
    else
      var b0 := Six(a[0]) * 4 + Six(a[1]) / 16;
      if |a| == 2 then [b0]
      else
        var b1 := Six(a[1]) % 16 * 16 + Six(a[2]) / 4;
        if |a| == 3 then [b0, b1]
        else [b0, b1, Six(a[2]) % 4 * 64 + Six(a[3])] + Decoded(a[4..])
  }

  lemma {:induction false} DecodedLength(a: seq<byte>)
    requires InAlphabet(a)
    ensures |Decoded(a)| == |a| / 4 * 3 + (if |a| % 4 < 2 then 0 else |a| % 4 - 1)
  {
    if |a| >= 4 {
      DecodedLength(a[4..]);
    }
  }

  function Text(b: seq<byte>): seq<byte> {
    Alphabetic(Encoded(b))
  }

  lemma GroupSixes(v: nat)
    requires v < 0x100_0000
    ensures var g := Group(v);
            Six(g[0]) == v / 0x4_0000 && Six(g[1]) == v / 0x1000 % 64 && Six(g[2]) == v / 64 % 64 && Six(g[3]) == v % 64
  {
    hide Six, Basis;
    SixBasis(v / 0x4_0000);
    SixBasis(v / 0x1000 % 64);
    SixBasis(v / 64 % 64);
    SixBasis(v % 64);
  }

  lemma AlphabeticPrefix(a: seq<byte>, rest: seq<byte>)
    requires InAlphabet(a)
    ensures Alphabetic(a + rest) == a + Alphabetic(rest)
  {
    hide Six, Run;
    RunStops(rest);
    assert (a + rest)[..|a| + Run(rest)] == a + Alphabetic(rest);
    RunIs(a + rest, |a| + Run(rest));
  }

  lemma DecodedGroup(a: seq<byte>, rest: seq<byte>)
    requires |a| == 4 && InAlphabet(a) && InAlphabet(rest)
    ensures InAlphabet(a + rest)
    ensures Decoded(a + rest) == Decoded(a) + Decoded(rest)
  {
    hide Six;
    assert (a + rest)[4..] == rest && a[4..] == [];
  }

  lemma SixBits(x: byte, y: byte, z: byte)
    ensures var v := Bits24(x, y, z);
            && v / 0x4_0000 == x / 4 && v / 0x1000 % 64 == x % 4 * 16 + y / 16
            && v / 64 % 64 == y % 16 * 4 + z / 64 && v % 64 == z % 64
  {
    var v := Bits24(x, y, z);
    var a, b, c, d := x / 4, x % 4 * 16 + y / 16, y % 16 * 4 + z / 64, z % 64;
    assert v == a * 0x4_0000 + b * 0x1000 + c * 64 + d;
    assert v / 0x1000 == a * 64 + b;
    assert v / 64 == (a * 64 + b) * 64 + c;
  }

  lemma DecodedFour(a: seq<byte>, x: byte, y: byte, z: byte)
    requires |a| == 4 && InAlphabet(a)
    requires Six(a[0]) == x / 4 && Six(a[1]) == x % 4 * 16 + y / 16
    requires Six(a[2]) == y % 16 * 4 + z / 64 && Six(a[3]) == z % 64
    ensures Decoded(a) == [x, y, z]
  {
    hide Six;
    assert a[4..] == [];
  }

  lemma DecodedTwoThree(a: seq<byte>, x: byte, y: byte)
    requires 2 <= |a| <= 3 && InAlphabet(a)
    requires Six(a[0]) == x / 4 && Six(a[1]) == x % 4 * 16 + y / 16
    requires |a| == 3 ==> Six(a[2]) == y % 16 * 4
    ensures Decoded(a) == if |a| == 2 then [x] else [x, y]
  {
    hide Six;
  }

  lemma GroupDecodes(x: byte, y: byte, z: byte)
    ensures var g := Group(Bits24(x, y, z));
            && InAlphabet(g) && InAlphabet(g[..2]) && InAlphabet(g[..3])
            && Decoded(g) == [x, y, z]
            && Decoded(g[..2]) == [x] && (z == 0 ==> Decoded(g[..3]) == [x, y])
  {
    hide Six, Basis, Group, Bits24, Decoded;
    var g := Group(Bits24(x, y, z));
    GroupSixes(Bits24(x, y, z));
    SixBits(x, y, z);
    DecodedFour(g, x, y, z);
    DecodedTwoThree(g[..2], x, y);
    if z == 0 {
      DecodedTwoThree(g[..3], x, y);
    }
  }

  lemma PadsEnd()
    ensures Alphabetic([PAD]) == [] && Alphabetic([PAD, PAD]) == [] && Alphabetic([]) == []
  {
  }

  /** Decoding an encoding gives the octets back. */
  lemma {:induction false} DecodeEncode(b: seq<byte>)
    ensures InAlphabet(Alphabetic(Encoded(b)))
    ensures Decoded(Alphabetic(Encoded(b))) == b
  {
    hide Alphabetic, Decoded, Group, InAlphabet;
    PadsEnd();
    if |b| == 0 {
      assert Decoded([]) == [] by { NothingDecodes(); }
      assert InAlphabet([]) by { NothingDecodes(); }
    } else if |b| == 1 {
      var g := Group(Bits24(b[0], 0, 0));
      GroupDecodes(b[0], 0, 0);
      AlphabeticPrefix(g[..2], [PAD, PAD]);
      assert g[..2] + [] == g[..2];
    } else if |b| == 2 {
      var g := Group(Bits24(b[0], b[1], 0));
      GroupDecodes(b[0], b[1], 0);
      AlphabeticPrefix(g[..3], [PAD]);
      assert g[..3] + [] == g[..3];
    } else {
      var g := Group(Bits24(b[0], b[1], b[2]));
      GroupDecodes(b[0], b[1], b[2]);
      AlphabeticPrefix(g, Encoded(b[3..]));
      DecodeEncode(b[3..]);
      DecodedGroup(g, Alphabetic(Encoded(b[3..])));
      assert [b[0], b[1], b[2]] + b[3..] == b;
    }
  }

  lemma NothingDecodes()
    ensures InAlphabet([]) && Decoded([]) == []
  {
  }

  // ---- The alphabet and the examples of RFC 4648

  /** Table 1 of RFC 4648. */
  const ALPHABET: seq<char> := "ABCDEFGH" + "IJKLMNOP" + "QRSTUVWX" + "YZabcdef" + "ghijklmn" + "opqrstuv"
                               + "wxyz0123" + "456789+/"

  predicate InPlace(i: nat)
    requires i < 64
  {
    Basis(i) == ALPHABET[i] as byte
  }

  /** The i-th character is the i-th of the table. */
  lemma BasisIsTheAlphabet(i: nat)
    requires i < 64
    ensures |ALPHABET| == 64 && InPlace(i)
  {
    hide InPlace;
    Letters0();
    Letters16();
    Letters32();
    Letters48();
  }

  lemma Letters0()
    ensures forall i :: 0 <= i < 16 ==> InPlace(i)
  {
    assert InPlace(0) && InPlace(1) && InPlace(2) && InPlace(3);
    assert InPlace(4) && InPlace(5) && InPlace(6) && InPlace(7);
    assert InPlace(8) && InPlace(9) && InPlace(10) && InPlace(11);
    assert InPlace(12) && InPlace(13) && InPlace(14) && InPlace(15);
  }

  lemma Letters16()
    ensures forall i :: 16 <= i < 32 ==> InPlace(i)
  {
    assert InPlace(16) && InPlace(17) && InPlace(18) && InPlace(19);
    assert InPlace(20) && InPlace(21) && InPlace(22) && InPlace(23);
    assert InPlace(24) && InPlace(25) && InPlace(26) && InPlace(27);
    assert InPlace(28) && InPlace(29) && InPlace(30) && InPlace(31);
  }

  lemma Letters32()
    ensures forall i :: 32 <= i < 48 ==> InPlace(i)
  {
    assert InPlace(32) && InPlace(33) && InPlace(34) && InPlace(35);
    assert InPlace(36) && InPlace(37) && InPlace(38) && InPlace(39);
    assert InPlace(40) && InPlace(41) && InPlace(42) && InPlace(43);
    assert InPlace(44) && InPlace(45) && InPlace(46) && InPlace(47);
  }

  lemma Letters48()
    ensures forall i :: 48 <= i < 64 ==> InPlace(i)
  {
    assert InPlace(48) && InPlace(49) && InPlace(50) && InPlace(51);
    assert InPlace(52) && InPlace(53) && InPlace(54) && InPlace(55);
    assert InPlace(56) && InPlace(57) && InPlace(58) && InPlace(59);
    assert InPlace(60) && InPlace(61) && InPlace(62) && InPlace(63);
  }

  /** The examples of section 10 of RFC 4648, in octets: f, fo, foo and foobar. */
  lemma EncodingExamples()
    ensures Encoded([0x66]) == [90, 103, PAD, PAD]
    ensures Encoded([0x66, 0x6F]) == [90, 109, 56, PAD]
    ensures Encoded([0x66, 0x6F, 0x6F]) == [90, 109, 57, 118]
    ensures Encoded([0x66, 0x6F, 0x6F, 0x62, 0x61, 0x72]) == [90, 109, 57, 118, 89, 109, 70, 121]
  {
    Groups();
    hide Group, Bits24;
    var foo: seq<byte> := [0x66, 0x6F, 0x6F];
    var foobar: seq<byte> := foo + [0x62, 0x61, 0x72];
    assert foo[3..] == [] && foobar[3..] == [0x62, 0x61, 0x72] && foobar[3..][3..] == [];
  }

  lemma Groups()
    ensures Group(Bits24(0x66, 0, 0)) == [90, 103, 65, 65] && Group(Bits24(0x66, 0x6F, 0)) == [90, 109, 56, 65]
    ensures Group(Bits24(0x66, 0x6F, 0x6F)) == [90, 109, 57, 118]
    ensures Group(Bits24(0x62, 0x61, 0x72)) == [89, 109, 70, 121]
  {
    hide Group, Bits24;
    EncoderMasks(0x66, 0, 0);
    EncoderMasks(0x66, 0x6F, 0);
    EncoderMasks(0x66, 0x6F, 0x6F);
    EncoderMasks(0x62, 0x61, 0x72);
  }

  // ---- The loops of lpac/euicc/base64.c

  lemma {:induction false} EncodedCut(b: seq<byte>, i: nat)
    requires i <= |b| && i % 3 == 0
    ensures Encoded(b) == Encoded(b[..i]) + Encoded(b[i..])
  {
    hide Group, Bits24;
    if i == 0 {
      assert b[..0] == [] && b[0..] == b;
    } else {
      EncodedCut(b[3..], i - 3);
      assert b[..i][3..] == b[3..][..i - 3] && b[3..][i - 3..] == b[i..];
      assert b[..i][0] == b[0] && b[..i][1] == b[1] && b[..i][2] == b[2];
    }
  }

  /** The characters the encoder's shifts and masks pick: lpac/euicc/base64.c:80-83. */
  lemma EncoderMasks(x: byte, y: byte, z: byte)
    ensures Group(Bits24(x, y, z))
         == [Basis(x / 4 % 64), Basis(x % 4 * 16 + y / 16), Basis(y % 16 * 4 + z / 64), Basis(z % 64)]
  {
    hide Group, Basis, Bits24;
    SixBits(x, y, z);
    GroupFrom(Bits24(x, y, z), x / 4, x % 4 * 16 + y / 16, y % 16 * 4 + z / 64, z % 64);
  }

  lemma GroupFrom(v: nat, s0: nat, s1: nat, s2: nat, s3: nat)
    requires v < 0x100_0000 && s0 < 64 && s1 < 64 && s2 < 64 && s3 < 64
    requires v / 0x4_0000 == s0 && v / 0x1000 % 64 == s1 && v / 64 % 64 == s2 && v % 64 == s3
    ensures Group(v) == [Basis(s0 % 64), Basis(s1), Basis(s2), Basis(s3)]
  {
    hide Basis;
  }

  lemma EncodedThree(b: seq<byte>, i: nat)
    requires i + 3 <= |b| && i % 3 == 0
    ensures Encoded(b[..i + 3]) == Encoded(b[..i]) + Group(Bits24(b[i], b[i + 1], b[i + 2]))
  {
    hide Group, Bits24;
    var c := b[..i + 3];
    EncodedCut(c, i);
    assert c[..i] == b[..i] && c[i..][3..] == [];
    assert c[i..][0] == b[i] && c[i..][1] == b[i + 1] && c[i..][2] == b[i + 2];
  }

  lemma EncodedTail(t: seq<byte>)
    requires |t| <= 2
    ensures t == [] ==> Encoded(t) == []
    ensures |t| == 1 ==> Encoded(t) == Group(Bits24(t[0], 0, 0))[..2] + [PAD, PAD]
    ensures |t| == 2 ==> Encoded(t) == Group(Bits24(t[0], t[1], 0))[..3] + [PAD]
  {
  }

  /** lpac/euicc/base64.c:72 */
  function EncodeLen(len: nat): (n: nat)
    ensures forall b: seq<byte> :: |b| == len ==> n == |Encoded(b)| + 1
  {
    assert forall b: seq<byte> :: |b| == len ==> |Encoded(b)| == (len + 2) / 3 * 4 by {
      forall b: seq<byte> | |b| == len
        ensures |Encoded(b)| == (len + 2) / 3 * 4
      {
        EncodedLength(b);
      }
    }
    (len + 2) / 3 * 4 + 1
  }

  /** One turn of the encoder's loop: lpac/euicc/base64.c:80-83. */
  method EncodeThree(encoded: array<byte>, p: nat, x: byte, y: byte, z: byte)
    requires p + 4 <= encoded.Length
    modifies encoded
    ensures encoded[..] == Splice(old(encoded[..]), p, Group(Bits24(x, y, z)))
  {
    hide Group, Bits24, Basis;
    EncoderMasks(x, y, z);
    encoded[p] := Basis(x / 4 % 64);
    encoded[p + 1] := Basis(x % 4 * 16 + y / 16);
    encoded[p + 2] := Basis(y % 16 * 4 + z / 64);
    encoded[p + 3] := Basis(z % 64);
  }

  /** What the encoder does with one or two octets left over: lpac/euicc/base64.c:85-95. */
  method EncodeRest(encoded: array<byte>, p: nat, text: array<byte>, i: nat, len: nat)
    requires i < len <= i + 2 && len <= text.Length && p + 4 <= encoded.Length && encoded != text
    modifies encoded
    ensures encoded[..] == Splice(old(encoded[..]), p, Encoded(text[i..len]))
  {
    hide Encoded, Group, Bits24, Basis;
    ghost var t := text[i..len];
    EncodedTail(t);
    EncoderMasks(t[0], if |t| == 2 then t[1] else 0, 0);
    encoded[p] := Basis(text[i] / 4 % 64);
    if i == len - 1 {
      encoded[p + 1] := Basis(text[i] % 4 * 16);
      encoded[p + 2] := PAD;
    } else {
      encoded[p + 1] := Basis(text[i] % 4 * 16 + text[i + 1] / 16);
      encoded[p + 2] := Basis(text[i + 1] % 16 * 4);
    }
    encoded[p + 3] := PAD;
  }

  /** lpac/euicc/base64.c:74-99. Writes exactly EncodeLen(len) octets, NUL last. */
  method Encode(encoded: array<byte>, text: array<byte>, from: nat, len: nat) returns (n: nat)
    requires from + len <= text.Length && EncodeLen(len) <= encoded.Length && encoded != text
    modifies encoded
    ensures n == EncodeLen(len)
    ensures encoded[..] == Splice(old(encoded[..]), 0, Encoded(text[from..from + len]) + [0])
  {
    hide Encoded, Group, Bits24, Splice;
    ghost var b, was := text[from..from + len], encoded[..];
    EncodedNothing(b, was);
    var i, p := 0, 0;
    while i + 2 < len
      invariant i <= len && i % 3 == 0 && p == i / 3 * 4 == |Encoded(b[..i])|
      invariant encoded[..] == Splice(was, 0, Encoded(b[..i]))
    {
      EncodedThree(b, i);
      EncodeThree(encoded, p, text[from + i], text[from + i + 1], text[from + i + 2]);
      SpliceSplice(was, 0, Encoded(b[..i]), Group(Bits24(b[i], b[i + 1], b[i + 2])));
      i, p := i + 3, p + 4;
    }
    EncodedCut(b, i);
    EncodedTail(b[i..]);
    if i < len {
      assert b[i..] == text[from + i..from + len];
      EncodeRest(encoded, p, text, from + i, from + len);
      SpliceSplice(was, 0, Encoded(b[..i]), Encoded(b[i..]));
      p := p + 4;
    } else {
      assert Encoded(b[..i]) + Encoded(b[i..]) == Encoded(b[..i]);
    }
    assert encoded[..] == Splice(was, 0, Encoded(b));
    encoded[p] := 0;
    PutLast(was, Encoded(b), encoded[..]);
    n := p + 1;
  }

  lemma EncodedNothing(b: seq<byte>, was: seq<byte>)
    ensures Encoded(b[..0]) == [] && was == Splice(was, 0, Encoded(b[..0]))
  {
  }

  lemma PutLast(was: seq<byte>, x: seq<byte>, r: seq<byte>)
    requires |x| < |was| && r == Splice(was, 0, x)[|x| := 0]
    ensures r == Splice(was, 0, x + [0])
  {
  }

  lemma AlphabetSlice(a: seq<byte>, i: nat, j: nat)
    requires InAlphabet(a) && i <= j <= |a|
    ensures InAlphabet(a[i..j]) && InAlphabet(a[i..])
  {
  }

  lemma {:induction false} DecodedCut(a: seq<byte>, k: nat)
    requires InAlphabet(a) && 4 * k <= |a|
    ensures InAlphabet(a[..4 * k]) && InAlphabet(a[4 * k..])
    ensures Decoded(a) == Decoded(a[..4 * k]) + Decoded(a[4 * k..])
  {
    hide InAlphabet, Decoded;
    AlphabetSlice(a, 0, 4 * k);
    AlphabetSlice(a, 4 * k, |a|);
    if k == 0 {
      NothingDecodes();
      assert a[..0] == [] && a[0..] == a;
    } else {
      var first, rest := a[..4], a[4..];
      AlphabetSlice(a, 0, 4);
      AlphabetSlice(a, 4, |a|);
      DecodedCut(rest, k - 1);
      assert a == first + rest && a[..4 * k] == first + rest[..4 * k - 4] && rest[4 * k - 4..] == a[4 * k..];
      DecodedGroup(first, rest);
      DecodedGroup(first, rest[..4 * k - 4]);
    }
  }

  lemma InRun(s: seq<byte>, i: nat)
    ensures i < Run(s) ==> i < |s| && Six(s[i]) < 64
  {
    RunStops(s);
    if i < Run(s) {
      assert s[i] == Alphabetic(s)[i];
    }
  }

  /** The scan both decoding functions start with: lpac/euicc/base64.c:23-27, 39-42. */
  method CountRun(bufcoded: array<byte>) returns (nprbytes: nat)
    requires Run(bufcoded[..]) < bufcoded.Length
    ensures nprbytes == Run(bufcoded[..])
  {
    var bufin := 0;
    ghost var s := bufcoded[..];
    RunStops(s);
    InRun(s, 0);
    while Six(bufcoded[bufin]) <= 63
      invariant bufin <= Run(s) && (bufin < Run(s) ==> Six(s[bufin]) < 64)
      decreases Run(s) - bufin
    {
      bufin := bufin + 1;
      InRun(s, bufin);
    }
    nprbytes := bufin;
  }

  /** lpac/euicc/base64.c:18-31. Enough for what decoding writes, NUL included. */
  method DecodeLen(bufcoded: array<byte>) returns (n: nat)
    requires Run(bufcoded[..]) < bufcoded.Length
    ensures n == (Run(bufcoded[..]) + 3) / 4 * 3 + 1
    ensures InAlphabet(Alphabetic(bufcoded[..])) && |Decoded(Alphabetic(bufcoded[..]))| + 1 <= n
  {
    var nprbytes := CountRun(bufcoded);
    RunStops(bufcoded[..]);
    DecodedLength(Alphabetic(bufcoded[..]));
    n := (nprbytes + 3) / 4 * 3 + 1;
  }

  /** What up to four characters stand for, octet by octet. */
  lemma SmallDecoded(a: seq<byte>)
    requires |a| <= 4 && InAlphabet(a)
    ensures |Decoded(a)| == if |a| == 0 then 0 else |a| - 1
    ensures |a| > 1 ==> Decoded(a)[0] == Six(a[0]) * 4 + Six(a[1]) / 16
    ensures |a| > 2 ==> Decoded(a)[1] == Six(a[1]) * 16 % 256 + Six(a[2]) / 4
    ensures |a| > 3 ==> Decoded(a)[2] == Six(a[2]) * 64 % 256 + Six(a[3])
  {
    hide Six;
    if |a| == 4 {
      assert a[4..] == [];
    }
  }

  /** One turn of the decoder's loop: lpac/euicc/base64.c:49-51. */
  method DecodeFour(bufplain: array<byte>, p: nat, bufcoded: array<byte>, q: nat)
    requires p + 3 <= bufplain.Length && q + 4 <= bufcoded.Length && bufplain != bufcoded
    requires InAlphabet(bufcoded[q..q + 4]) && |Decoded(bufcoded[q..q + 4])| == 3
    modifies bufplain
    ensures bufplain[..] == Splice(old(bufplain[..]), p, Decoded(bufcoded[q..q + 4]))
  {
    hide Six, Decoded, Splice;
    ghost var a, was := bufcoded[q..q + 4], bufplain[..];
    SmallDecoded(a);
    assert forall i :: 0 <= i < 4 ==> a[i] == bufcoded[q + i] && Six(a[i]) < 64;
    var s0, s1, s2, s3 := Six(bufcoded[q]), Six(bufcoded[q + 1]), Six(bufcoded[q + 2]), Six(bufcoded[q + 3]);
    bufplain[p] := s0 * 4 + s1 / 16;
    bufplain[p + 1] := s1 * 16 % 256 + s2 / 4;
    bufplain[p + 2] := s2 * 64 % 256 + s3;
    Spliced(was, p, Decoded(a), bufplain[..]);
  }

  /** The one to four characters after the loop: lpac/euicc/base64.c:57-65. */
  method DecodeRest(bufplain: array<byte>, p: nat, bufcoded: array<byte>, q: nat, left: nat) returns (bufout: nat)
    requires left <= 4 && q + left <= bufcoded.Length && bufplain != bufcoded
    requires InAlphabet(bufcoded[q..q + left]) && p + |Decoded(bufcoded[q..q + left])| <= bufplain.Length
    modifies bufplain
    ensures bufout == p + |Decoded(bufcoded[q..q + left])|
    ensures bufplain[..] == Splice(old(bufplain[..]), p, Decoded(bufcoded[q..q + left]))
  {
    hide Six, Decoded, Splice;
    ghost var a, was := bufcoded[q..q + left], bufplain[..];
    SmallDecoded(a);
    assert forall i :: 0 <= i < left ==> a[i] == bufcoded[q + i] && Six(a[i]) < 64;
    bufout := p;
    if left > 1 {
      bufplain[bufout] := Six(bufcoded[q]) * 4 + Six(bufcoded[q + 1]) / 16;
      bufout := bufout + 1;
    }
    if left > 2 {
      bufplain[bufout] := Six(bufcoded[q + 1]) * 16 % 256 + Six(bufcoded[q + 2]) / 4;
      bufout := bufout + 1;
    }
    if left > 3 {
      bufplain[bufout] := Six(bufcoded[q + 2]) * 64 % 256 + Six(bufcoded[q + 3]);
      bufout := bufout + 1;
    }
    Spliced(was, p, Decoded(a), bufplain[..]);
  }

  /** lpac/euicc/base64.c:33-70. Writes exactly its result plus one octets, NUL last. */
  method Decode(bufplain: array<byte>, bufcoded: array<byte>) returns (n: nat)
    requires Run(bufcoded[..]) < bufcoded.Length && bufplain != bufcoded
    requires InAlphabet(Alphabetic(bufcoded[..])) ==> |Decoded(Alphabetic(bufcoded[..]))| < bufplain.Length
    modifies bufplain
    ensures InAlphabet(Alphabetic(bufcoded[..])) && n == |Decoded(Alphabetic(bufcoded[..]))|
    ensures bufplain[..] == Splice(old(bufplain[..]), 0, Decoded(Alphabetic(bufcoded[..])) + [0])
  {
    hide Six, Decoded, Splice, InAlphabet, Run;
    ghost var a, was := Alphabetic(bufcoded[..]), bufplain[..];
    RunStops(bufcoded[..]);
    assert a == bufcoded[..|a|];
    var nprbytes: int := CountRun(bufcoded);
    var nbytesdecoded: int := (nprbytes + 3) / 4 * 3;
    DecodedNothing(a, was);
    var bufin: nat, bufout: nat := 0, 0;
    ghost var k := 0;
    while nprbytes > 4
      invariant 0 <= nprbytes && bufin == 4 * k && bufin + nprbytes == |a| && (nprbytes == 0 ==> k == 0)
      invariant InAlphabet(a[..bufin]) && bufout == |Decoded(a[..bufin])| == 3 * k <= |Decoded(a)|
      invariant bufplain[..] == Splice(was, 0, Decoded(a[..bufin]))
    {
      assert a[bufin..bufin + 4] == bufcoded[bufin..bufin + 4];
      DecodedMore(a, k);
      DecodeFour(bufplain, bufout, bufcoded, bufin);
      SpliceSplice(was, 0, Decoded(a[..bufin]), Decoded(a[bufin..bufin + 4]));
      bufin, bufout, k := bufin + 4, bufout + 3, k + 1;
      nprbytes := nprbytes - 4;
    }
    DecodedCut(a, k);
    assert a[bufin..] == bufcoded[bufin..bufin + nprbytes];
    bufout := DecodeRest(bufplain, bufout, bufcoded, bufin, nprbytes);
    SpliceSplice(was, 0, Decoded(a[..bufin]), Decoded(a[bufin..]));
    bufplain[bufout] := 0;
    PutLast(was, Decoded(a), bufplain[..]);
    LengthLeft(a, k, nprbytes);
    nbytesdecoded := nbytesdecoded - (4 - nprbytes) % 4;
    n := nbytesdecoded;
  }

  lemma LengthLeft(a: seq<byte>, k: nat, left: int)
    requires 0 <= left <= 4 && (left == 0 ==> k == 0) && |a| == 4 * k + left && InAlphabet(a)
    ensures (|a| + 3) / 4 * 3 - (4 - left) % 4 == |Decoded(a)|
  {
    hide InAlphabet, Decoded;
    DecodedLength(a);
    if left == 4 {
      assert (|a| + 3) / 4 == k + 1 && |a| / 4 == k + 1;
    } else if left > 0 {
      assert (|a| + 3) / 4 == k + 1 && |a| / 4 == k;
    }
  }

  lemma DecodedNothing(a: seq<byte>, was: seq<byte>)
    requires InAlphabet(a)
    ensures InAlphabet(a[..0]) && Decoded(a[..0]) == [] && was == Splice(was, 0, Decoded(a[..0]))
  {
  }

  lemma DecodedMore(a: seq<byte>, k: nat)
    requires InAlphabet(a) && 4 * k + 4 <= |a|
    ensures var i := 4 * k;
            && InAlphabet(a[..i]) && InAlphabet(a[i..i + 4]) && InAlphabet(a[..i + 4])
            && |Decoded(a[i..i + 4])| == 3 && Decoded(a[..i + 4]) == Decoded(a[..i]) + Decoded(a[i..i + 4])
            && |Decoded(a[..i + 4])| <= |Decoded(a)|
  {
    hide InAlphabet, Decoded;
    var i := 4 * k;
    DecodedCut(a, k + 1);
    DecodedCut(a[..i + 4], k);
    assert a[..i + 4][..i] == a[..i] && a[..i + 4][i..] == a[i..i + 4];
    AlphabetSlice(a, i, i + 4);
    DecodedLength(a[i..i + 4]);
  }

  // ---- es9p_base64_trim

  predicate IsSpace(c: byte) {
    c == 10 || c == 13 || c == 32 || c == 9
  }

  /** s without its whitespace. */
  function Squeezed(s: seq<byte>): seq<byte> {
    if s == [] then [] else Squeezed(Init(s)) + if IsSpace(Last(s)) then [] else [Last(s)]
  }

  /** str holds the string text, NUL behind it. */
  predicate Holds(str: seq<byte>, text: seq<byte>) {
    |text| < |str| && str[..|text|] == text && str[|text|] == 0 && 0 !in text
  }

  method StrLen(str: array<byte>, from: nat, ghost text: seq<byte>) returns (n: nat)
    requires from <= str.Length && Holds(str[from..], text)
    ensures n == |text|
  {
    n := 0;
    assert str[from..][..|text|] == text;
    while str[from + n] != 0
      invariant n <= |text| && (n < |text| ==> str[from + n] == text[n] && text[n] != 0)
      decreases |text| - n
    {
      n := n + 1;
    }
  }

  /** memmove(p, p + 1, n) */
  method CloseGap(str: array<byte>, p: nat, n: nat)
    requires p + n < str.Length
    modifies str
    ensures str[..] == old(str[..])[..p] + old(str[..])[p + 1..p + n + 1] + old(str[..])[p + n..]
  {
    forall i | p <= i < p + n {
      str[i] := str[i + 1];
    }
  }

  /** The string after the octet at p is taken out. */
  lemma GapClosed(str: seq<byte>, text: seq<byte>, p: nat)
    requires Holds(str, text) && p < |text|
    ensures Holds(str[..p] + str[p + 1..|text| + 1] + str[|text|..], text[..p] + text[p + 1..])
  {
    var r := str[..p] + str[p + 1..|text| + 1] + str[|text|..];
    assert str[p + 1..|text| + 1] == text[p + 1..] + [0];
    assert r[..|text| - 1] == text[..p] + text[p + 1..];
  }

  /** memmove(p, p + 1, strlen(p)) takes the octet at p out of the string. */
  method RemoveAt(str: array<byte>, p: nat, ghost text: seq<byte>)
    requires Holds(str[..], text) && p < |text| < str.Length
    modifies str
    ensures Holds(str[..], text[..p] + text[p + 1..])
  {
    hide Holds;
    ghost var was := str[..];
    HoldsFrom(was, text, p);
    GapClosed(was, text, p);
    assert str[p..] == was[p..];
    var n := StrLen(str, p, text[p..]);
    CloseGap(str, p, n);
  }

  /** The string holds what is squeezed of the first done octets up to p, and after that the rest of the text. */
  predicate Trimming(str: seq<byte>, text: seq<byte>, done: nat, now: seq<byte>, p: nat) {
    && done <= |text| && Holds(str, now)
    && now == Squeezed(text[..done]) + text[done..] && p == |Squeezed(text[..done])|
  }

  lemma TrimStart(str: seq<byte>, text: seq<byte>)
    requires Holds(str, text)
    ensures Trimming(str, text, 0, text, 0)
  {
    hide Holds, Squeezed;
    SqueezedNothing(text);
  }

  lemma TrimAt(str: seq<byte>, text: seq<byte>, done: nat, now: seq<byte>, p: nat)
    requires Trimming(str, text, done, now, p)
    ensures p < |str| && (str[p] == 0 <==> done == |text|) && (done == |text| ==> now == Squeezed(text))
    ensures done < |text| ==> p < |now| < |str| && str[p] == now[p] && Holds(str, now)
  {
    hide Holds, Squeezed;
    HoldsAt(str, now, p);
    assert done == |text| ==> text[..done] == text;
  }

  /** An octet is passed over, or taken out. */
  lemma TrimStep(str: seq<byte>, text: seq<byte>, done: nat, now: seq<byte>, p: nat, after: seq<byte>)
    requires Trimming(str, text, done, now, p) && done < |text| && p < |now|
    requires if IsSpace(now[p]) then Holds(after, now[..p] + now[p + 1..]) else after == str
    ensures if IsSpace(now[p]) then Trimming(after, text, done + 1, now[..p] + now[p + 1..], p)
            else Trimming(after, text, done + 1, now, p + 1)
  {
    hide Holds, Squeezed;
    Squeeze(text, done, now, p);
  }

  /** lpac/euicc/es9p.c:17-27, where memmove closes each gap. */
  method Trim(str: array<byte>, ghost text: seq<byte>)
    requires Holds(str[..], text)
    modifies str
    ensures Holds(str[..], Squeezed(text))
  {
    hide Holds, Squeezed, Trimming;
    ghost var done, now := 0, text;
    TrimStart(str[..], text);
    TrimAt(str[..], text, done, now, 0);
    var p := 0;
    while str[p] != 0
      invariant done <= |text| && p < str.Length && Trimming(str[..], text, done, now, p)
      decreases |text| - done
    {
      ghost var was := str[..];
      TrimAt(was, text, done, now, p);
      if str[p] == 10 || str[p] == 13 || str[p] == 32 || str[p] == 9 {
        RemoveAt(str, p, now);
        TrimStep(was, text, done, now, p, str[..]);
        now := now[..p] + now[p + 1..];
      } else {
        TrimStep(was, text, done, now, p, str[..]);
        p := p + 1;
      }
      done := done + 1;
      TrimAt(str[..], text, done, now, p);
    }
    TrimAt(str[..], text, done, now, p);
    TrimEnds(str[..], text, done, now, p);
  }

  lemma TrimEnds(str: seq<byte>, text: seq<byte>, done: nat, now: seq<byte>, p: nat)
    requires Trimming(str, text, done, now, p) && done == |text|
    ensures Holds(str, Squeezed(text))
  {
    hide Holds, Squeezed;
    TrimAt(str, text, done, now, p);
  }

  /** One octet of the text moves from the unread part to the squeezed part, or out. */
  lemma Squeeze(text: seq<byte>, done: nat, now: seq<byte>, p: nat)
    requires done < |text| && now == Squeezed(text[..done]) + text[done..] && p == |Squeezed(text[..done])|
    ensures p < |now| && now[p] == text[done]
    ensures var after := if IsSpace(text[done]) then now[..p] + now[p + 1..] else now;
            && after == Squeezed(text[..done + 1]) + text[done + 1..]
            && |Squeezed(text[..done + 1])| == if IsSpace(text[done]) then p else p + 1
  {
    hide Squeezed;
    SqueezedStep(text, done);
    assert text[done..] == [text[done]] + text[done + 1..];
  }

  lemma SqueezedNothing(text: seq<byte>)
    ensures Squeezed(text[..0]) == [] && text == [] + text[0..]
  {
  }

  lemma SqueezedStep(text: seq<byte>, i: nat)
    ensures i < |text| ==>
              Squeezed(text[..i + 1]) == Squeezed(text[..i]) + if IsSpace(text[i]) then [] else [text[i]]
  {
    if i < |text| {
      PrefixStep(text, i);
    }
  }

  lemma HoldsAt(str: seq<byte>, text: seq<byte>, p: nat)
    requires Holds(str, text) && p <= |text|
    ensures |text| < |str| && (str[p] == 0 <==> p == |text|) && (p < |text| ==> str[p] == text[p])
  {
    assert p < |text| ==> str[p] == str[..|text|][p];
  }

  lemma HoldsFrom(str: seq<byte>, text: seq<byte>, p: nat)
    requires Holds(str, text) && p <= |text|
    ensures Holds(str[p..], text[p..])
  {
    assert str[p..][..|text| - p] == str[..|text|][p..];
  }

  /** A block holding an encoding as a string decodes to the octets that were encoded. */
  lemma HeldEncodingDecodes(str: seq<byte>, b: seq<byte>)
    requires Holds(str, Encoded(b))
    ensures Run(str) < |str| && InAlphabet(Alphabetic(str)) && Decoded(Alphabetic(str)) == b
  {
    hide Decoded, Encoded;
    var e := Encoded(b);
    DecodeEncode(b);
    RunStops(e);
    var r := Run(e);
    assert str[..r] == e[..r];
    assert r < |e| ==> str[r] == str[..|e|][r];
    RunIs(str, r);
  }

  lemma SqueezedSnoc(s: seq<byte>, c: byte)
    ensures Squeezed(s + [c]) == Squeezed(s) + if IsSpace(c) then [] else [c]
  {
    assert Init(s + [c]) == s && Last(s + [c]) == c;
  }

  lemma {:induction false} SqueezedAppend(s: seq<byte>, t: seq<byte>)
    ensures Squeezed(s + t) == Squeezed(s) + Squeezed(t)
    decreases |t|
  {
    hide Squeezed;
    if t == [] {
      SqueezedNothing(t);
      assert s + t == s && t[..0] == [];
    } else {
      var front, c := Init(t), Last(t);
      SqueezedAppend(s, front);
      assert s + t == (s + front) + [c];
      SqueezedSnoc(s + front, c);
      SqueezedSnoc(front, c);
    }
  }

  /** Trimming undoes the insertion of one whitespace octet at any place. */
  lemma InsertedSpaceVanishes(s: seq<byte>, i: nat, c: byte)
    requires i <= |s| && IsSpace(c)
    ensures Squeezed(s[..i] + [c] + s[i..]) == Squeezed(s)
  {
    hide Squeezed;
    SqueezedAppend(s[..i] + [c], s[i..]);
    SqueezedSnoc(s[..i], c);
    SqueezedAppend(s[..i], s[i..]);
    assert s[..i] + s[i..] == s;
  }

  /** An encoding has no whitespace of its own and no NUL, so trimming leaves it alone. */
  lemma {:induction false} EncodingIsSqueezed(b: seq<byte>)
    ensures Squeezed(Encoded(b)) == Encoded(b) && 0 !in Encoded(b)
    decreases |b|
  {
    hide Squeezed, Bits24;
    if |b| <= 2 {
      AllVisible(Encoded(b));
    } else {
      var g := Group(Bits24(b[0], b[1], b[2]));
      AllVisible(g);
      EncodingIsSqueezed(b[3..]);
      SqueezedAppend(g, Encoded(b[3..]));
    }
  }

  /** A text without such octets is left as it is. */
  lemma {:induction false} AllVisible(s: seq<byte>)
    requires forall i :: 0 <= i < |s| ==> s[i] != 0x0A && s[i] != 0x0D && s[i] != 0x20 && s[i] != 0x09
    ensures Squeezed(s) == s
  {
    if s != [] {
      AllVisible(Init(s));
    }
  }

  /** Line feeds, carriage returns, blanks and tabs. */
  predicate AllSpace(s: seq<byte>) {
    forall i :: 0 <= i < |s| ==> s[i] == 0x0A || s[i] == 0x0D || s[i] == 0x20 || s[i] == 0x09
  }

  predicate AllSpaces(gaps: seq<seq<byte>>) {
    forall i :: 0 <= i < |gaps| ==> AllSpace(gaps[i])
  }

  /** s with a gap before each octet and one at the end. */
  function Spread(s: seq<byte>, gaps: seq<seq<byte>>): seq<byte>
    requires |gaps| == |s| + 1
  {
    if s == [] then gaps[0] else gaps[0] + [s[0]] + Spread(s[1..], gaps[1..])
  }

  lemma {:induction false} SpaceVanishes(s: seq<byte>)
    requires AllSpace(s)
    ensures Squeezed(s) == []
  {
    if s != [] {
      SpaceVanishes(Init(s));
    }
  }

  /** Trimming does not see white space, wherever and however much of it stands between the octets. */
  lemma {:induction false} SpreadSqueezes(s: seq<byte>, gaps: seq<seq<byte>>)
    requires |gaps| == |s| + 1 && AllSpaces(gaps)
    ensures Squeezed(Spread(s, gaps)) == Squeezed(s)
  {
    hide Squeezed, AllSpace;
    SpaceVanishes(gaps[0]);
    if s == [] {
      SqueezedNothing(s);
      assert s[..0] == s;
    } else {
      SpreadSqueezes(s[1..], gaps[1..]);
      SqueezedAppend(gaps[0] + [s[0]], Spread(s[1..], gaps[1..]));
      SqueezedAppend(gaps[0], [s[0]]);
      SqueezedAppend([s[0]], s[1..]);
      assert [s[0]] + s[1..] == s;
    }
  }

  /**
   * White space scattered through an encoding changes nothing: a block that holds what the trim leaves
   * decodes to the octets that were encoded.
   */
  lemma TrimmedDecodes(str: seq<byte>, b: seq<byte>, gaps: seq<seq<byte>>)
    requires |gaps| == |Encoded(b)| + 1 && AllSpaces(gaps)
    requires Holds(str, Squeezed(Spread(Encoded(b), gaps)))
    ensures Run(str) < |str| && InAlphabet(Alphabetic(str)) && Decoded(Alphabetic(str)) == b
  {
    hide Squeezed, Encoded, Holds, AllSpaces, Run, Decoded, InAlphabet;
    SpreadSqueezes(Encoded(b), gaps);
    EncodingIsSqueezed(b);
    HeldEncodingDecodes(str, b);
  }
}
