/**
 * The object identifier decoder that pysim/osmo-smdpp.py, lines 72-100, puts in place of
 * the one in asn1tools, against the encoding of section 8.19 of X.690.
 */
module ObjectId {
  import opened Bytes

  // ---- The encoding

  /** All base-128 digits of n, each marked as not the last. */
  function Leading(n: nat): seq<byte> {
    if n == 0 then [] else Leading(n / 128) + [128 + n % 128]
  }

  /** A subidentifier: the least number of base-128 digits, the last one unmarked. */
  function Subidentifier(n: nat): (b: seq<byte>)
    ensures |b| > 0
  {
    Leading(n / 128) + [n % 128]
  }

  function Subidentifiers(arcs: seq<nat>): seq<byte> {
    if arcs == [] then [] else Subidentifier(arcs[0]) + Subidentifiers(arcs[1..])
  }

  /** At least two arcs, and the second below 40 under the roots 0 and 1. */
  predicate Valid(arcs: seq<nat>) {
    |arcs| >= 2 && arcs[0] <= 2 && (arcs[0] < 2 ==> arcs[1] < 40)
  }

  /** The first two arcs share a subidentifier. */
  function Encode(arcs: seq<nat>): seq<byte>
    requires Valid(arcs)
  {
    Subidentifiers([40 * arcs[0] + arcs[1]] + arcs[2..])
  }

  // ---- What the decoder computes

  datatype Read = Read(value: nat, offset: nat)

  /** The subidentifier that goes on at offset, with value read of it so far. None is an IndexError. */
  function ReadFrom(data: seq<byte>, offset: nat, value: nat): (r: Option<Read>)
    ensures r.Some? ==> offset < r.value.offset <= |data|
    decreases |data| - offset
  {
    if offset >= |data| then None
    else
      var v := 128 * value + data[offset] % 128;
      if data[offset] < 128 then Some(Read(v, offset + 1)) else ReadFrom(data, offset + 1, v)
  }

  datatype Arcs = Arcs(arcs: seq<nat>, offset: nat)

  /** The subidentifiers up to the end. */
  function ReadAll(data: seq<byte>, offset: nat, end: nat): (r: Option<Arcs>)
    ensures r.Some? ==> end <= r.value.offset && offset <= r.value.offset
    decreases end - offset
  {
    if offset >= end then Some(Arcs([], offset))
    else
      var first := ReadFrom(data, offset, 0);
      if first.None? then None
      else
        var rest := ReadAll(data, first.value.offset, end);
        if rest.None? then None else Some(Arcs([first.value.value] + rest.value.arcs, rest.value.offset))
  }

  /** The first subidentifier taken apart. */
  function Split(subid: nat): seq<nat> {
    if subid < 40 then [0, subid] else if subid < 80 then [1, subid - 40] else [2, subid - 80]
  }

  function Decode(data: seq<byte>, offset: nat, end: nat): Option<Arcs> {
    var first := ReadFrom(data, offset, 0);
    if first.None? then None
    else
      var rest := ReadAll(data, first.value.offset, end);
      if rest.None? then None
      else Some(Arcs(Split(first.value.value) + rest.value.arcs, rest.value.offset))
  }

  // ---- They undo each other

  /** Marked digits are gathered into the value. */
  lemma {:induction false} ReadLeading(data: seq<byte>, offset: nat, n: nat)
    requires offset + |Leading(n)| <= |data| && data[offset..offset + |Leading(n)|] == Leading(n)
    ensures ReadFrom(data, offset, 0) == ReadFrom(data, offset + |Leading(n)|, n)
  {
    if n > 0 {
      var front := Leading(n / 128);
      assert data[offset..offset + |front|] == data[offset..offset + |Leading(n)|][..|front|] == front;
      ReadLeading(data, offset, n / 128);
      assert data[offset + |front|] == data[offset..offset + |Leading(n)|][|front|] == 128 + n % 128;
    }
  }

  lemma ReadSubidentifierBack(data: seq<byte>, offset: nat, n: nat)
    requires var s := Subidentifier(n);
             offset + |s| <= |data| && data[offset..offset + |s|] == s
    ensures ReadFrom(data, offset, 0) == Some(Read(n, offset + |Subidentifier(n)|))
  {
    var s, front := Subidentifier(n), Leading(n / 128);
    assert data[offset..offset + |front|] == data[offset..offset + |s|][..|front|] == front;
    ReadLeading(data, offset, n / 128);
    assert data[offset + |front|] == data[offset..offset + |s|][|front|] == n % 128;
  }

  lemma {:induction false} ReadAllBack(data: seq<byte>, offset: nat, end: nat, arcs: seq<nat>)
    requires offset <= end <= |data| && data[offset..end] == Subidentifiers(arcs)
    ensures ReadAll(data, offset, end) == Some(Arcs(arcs, end))
    decreases |arcs|
  {
    hide Subidentifier, Subidentifiers, ReadFrom;
    NoSubidentifiers();
    if arcs != [] {
      FirstAndRest(data, offset, end, arcs);
      ReadSubidentifierBack(data, offset, arcs[0]);
      ReadAllBack(data, offset + |Subidentifier(arcs[0])|, end, arcs[1..]);
      assert [arcs[0]] + arcs[1..] == arcs;
    } else {
      assert |data[offset..end]| == 0;
    }
  }

  lemma NoSubidentifiers()
    ensures Subidentifiers([]) == []
  {
  }

  lemma FirstAndRest(data: seq<byte>, offset: nat, end: nat, arcs: seq<nat>)
    requires offset <= end <= |data| && arcs != [] && data[offset..end] == Subidentifiers(arcs)
    ensures var s := Subidentifier(arcs[0]);
            && offset + |s| <= end
            && data[offset..offset + |s|] == s && data[offset + |s|..end] == Subidentifiers(arcs[1..])
  {
    var s := Subidentifier(arcs[0]);
    assert data[offset..offset + |s|] == data[offset..end][..|s|];
    assert data[offset + |s|..end] == data[offset..end][|s|..];
  }

  /** Wherever the encoding of an identifier lies, the decoder gives back its arcs and ends where it ends. */
  lemma DecodeEncode(data: seq<byte>, offset: nat, arcs: seq<nat>)
    requires Valid(arcs) && offset + |Encode(arcs)| <= |data|
    requires data[offset..offset + |Encode(arcs)|] == Encode(arcs)
    ensures Decode(data, offset, offset + |Encode(arcs)|) == Some(Arcs(arcs, offset + |Encode(arcs)|))
  {
    hide Subidentifier, Subidentifiers, ReadFrom, ReadAll;
    var subids, end := [40 * arcs[0] + arcs[1]] + arcs[2..], offset + |Encode(arcs)|;
    FirstAndRest(data, offset, end, subids);
    ReadSubidentifierBack(data, offset, subids[0]);
    assert subids[1..] == arcs[2..];
    ReadAllBack(data, offset + |Subidentifier(subids[0])|, end, arcs[2..]);
    assert Split(subids[0]) == arcs[..2];
    assert arcs[..2] + arcs[2..] == arcs;
  }

  /** The encoding of 1.2.840.113549. */
  lemma EncodingExample()
    ensures Encode([1, 2, 840, 113549]) == [0x2A, 0x86, 0x48, 0x86, 0xF7, 0x0D]
  {
    var arcs: seq<nat> := [42, 840, 113549];
    assert [40 * 1 + 2] + [1, 2, 840, 113549][2..] == arcs;
    assert arcs[1..] == [840, 113549] && arcs[1..][1..] == [113549] && arcs[1..][1..][1..] == [];
    assert Subidentifier(42) == [0x2A];
    assert Subidentifier(840) == [0x86, 0x48] by { assert Leading(6) == Leading(0) + [0x86]; }
    assert Subidentifier(113549) == [0x86, 0xF7, 0x0D] by {
      assert Leading(6) == Leading(0) + [0x86];
      assert Leading(887) == Leading(6) + [0xF7];
    }
  }

  /** Encodings tell identifiers apart. */
  lemma EncodingIsInjective(a: seq<nat>, b: seq<nat>)
    requires Valid(a) && Valid(b) && Encode(a) == Encode(b)
    ensures a == b
  {
    assert Encode(a)[0..0 + |Encode(a)|] == Encode(a);
    DecodeEncode(Encode(a), 0, a);
    DecodeEncode(Encode(b), 0, b);
  }

  /** What the decoder returns is always a valid identifier. */
  lemma {:induction false} DecodedIsValid(data: seq<byte>, offset: nat, end: nat)
    ensures var r := Decode(data, offset, end);
            r.Some? ==> Valid(r.value.arcs)
  {
  }

  /** Section 8.19.2 of X.690: a subidentifier does not begin with the octet 0x80. */
  predicate StartsMinimal(data: seq<byte>, offset: nat) {
    offset < |data| && data[offset] != 128
  }

  /** What was read, written again, is what was there, when it does not begin with an empty digit. */
  lemma {:induction false} WriteBack(data: seq<byte>, offset: nat, from: nat, value: nat)
    requires offset <= from <= |data| && data[offset..from] == Leading(value)
    requires StartsMinimal(data, offset)
    ensures var r := ReadFrom(data, from, value);
            r.Some? ==> data[offset..r.value.offset] == Subidentifier(r.value.value)
    decreases |data| - from
  {
    hide Leading, Subidentifier;
    if from < |data| {
      OneMoreDigit(value, data[from]);
      assert data[offset..from + 1] == data[offset..from] + [data[from]];
      assert from == offset <==> |data[offset..from]| == 0;
      if data[from] >= 128 {
        WriteBack(data, offset, from + 1, 128 * value + data[from] % 128);
      }
    }
  }

  lemma OneMoreDigit(value: nat, d: byte)
    ensures Leading(value) == [] <==> value == 0
    ensures var v := 128 * value + d % 128;
            if d < 128 then Subidentifier(v) == Leading(value) + [d]
            else value > 0 || d != 128 ==> Leading(v) == Leading(value) + [d]
  {
    var v := 128 * value + d % 128;
    assert v / 128 == value && v % 128 == d % 128;
  }

  lemma WriteFirstBack(data: seq<byte>, offset: nat)
    requires StartsMinimal(data, offset)
    ensures var r := ReadFrom(data, offset, 0);
            r.Some? ==> data[offset..r.value.offset] == Subidentifier(r.value.value)
  {
    WriteBack(data, offset, offset, 0);
  }

  /** Every subidentifier of the range begins as it must. */
  predicate AllMinimal(data: seq<byte>, offset: nat, end: nat)
    decreases end - offset
  {
    offset < end ==>
      && StartsMinimal(data, offset)
      && (ReadFrom(data, offset, 0).Some? ==> AllMinimal(data, ReadFrom(data, offset, 0).value.offset, end))
  }

  lemma {:induction false} WriteAllBack(data: seq<byte>, offset: nat, end: nat)
    requires AllMinimal(data, offset, end)
    ensures var r := ReadAll(data, offset, end);
            r.Some? && r.value.offset == end <= |data| ==> data[offset..end] == Subidentifiers(r.value.arcs)
    decreases end - offset
  {
    var r := ReadAll(data, offset, end);
    if r.Some? && r.value.offset == end <= |data| && offset < end {
      var first := ReadFrom(data, offset, 0).value;
      WriteFirstBack(data, offset);
      WriteAllBack(data, first.offset, end);
      ReadAllAdvances(data, first.offset, end);
      assert data[offset..end] == data[offset..first.offset] + data[first.offset..end];
    }
  }

  lemma {:induction false} ReadAllAdvances(data: seq<byte>, offset: nat, end: nat)
    ensures var r := ReadAll(data, offset, end);
            r.Some? && r.value.offset == end ==> offset <= end
  {
  }

  /** The first digit of a number is not empty. */
  lemma {:induction false} FirstDigit(n: nat)
    requires n > 0
    ensures Leading(n) != [] && Leading(n)[0] != 128
  {
    if n >= 128 {
      FirstDigit(n / 128);
    }
  }

  lemma {:induction false} WrittenMinimal(data: seq<byte>, offset: nat, end: nat, arcs: seq<nat>)
    requires offset <= end <= |data| && data[offset..end] == Subidentifiers(arcs)
    ensures AllMinimal(data, offset, end)
    decreases |arcs|
  {
    hide Subidentifiers, ReadFrom;
    NoSubidentifiers();
    if arcs == [] {
      assert |data[offset..end]| == 0;
    } else {
      var s := Subidentifier(arcs[0]);
      FirstAndRest(data, offset, end, arcs);
      ReadSubidentifierBack(data, offset, arcs[0]);
      if arcs[0] >= 128 {
        FirstDigit(arcs[0] / 128);
      }
      assert data[offset] == data[offset..offset + |s|][0];
      WrittenMinimal(data, offset + |s|, end, arcs[1..]);
    }
  }

  /** Octets that decode to their end are the encoding of what they decode to exactly when minimal as X.690 asks. */
  lemma EncodeDecode(data: seq<byte>, offset: nat, end: nat)
    requires offset < end <= |data|
    ensures var r := Decode(data, offset, end);
            r.Some? && r.value.offset == end ==>
              (data[offset..end] == Encode(r.value.arcs) <==> AllMinimal(data, offset, end))
  {
    hide Subidentifier, ReadFrom, StartsMinimal, AllMinimal;
    var r := Decode(data, offset, end);
    if r.Some? && r.value.offset == end {
      var first := ReadFrom(data, offset, 0).value;
      var rest := ReadAll(data, first.offset, end).value.arcs;
      DecodedSubidentifiers(first.value, rest);
      if AllMinimal(data, offset, end) {
        WriteAllBack(data, offset, end);
        assert ReadAll(data, offset, end) == Some(Arcs([first.value] + rest, end));
      }
      if data[offset..end] == Encode(r.value.arcs) {
        WrittenMinimal(data, offset, end, [first.value] + rest);
      }
    }
  }

  lemma DecodedSubidentifiers(first: nat, rest: seq<nat>)
    ensures var arcs := Split(first) + rest;
            Valid(arcs) && Encode(arcs) == Subidentifiers([first] + rest)
  {
    var two := Split(first);
    assert (two + rest)[2..] == rest && 40 * two[0] + two[1] == first;
  }

  // ---- The code

  /** pysim/osmo-smdpp.py:74-82 */
  method ReadSubidentifier(data: seq<byte>, offset: nat) returns (r: Option<Read>)
    ensures r == ReadFrom(data, offset, 0)
  {
    var value: nat, at := 0, offset;
    while true
      invariant ReadFrom(data, at, value) == ReadFrom(data, offset, 0)
      decreases |data| - at
    {
      if at >= |data| {
        return None;
      }
      var b := data[at];
      value := 128 * value + b % 128;
      at := at + 1;
      if b < 128 {
        break;
      }
    }
    return Some(Read(value, at));
  }

  /** pysim/osmo-smdpp.py:72-98, up to the text of the arcs */
  method DecodeObjectIdentifier(data: seq<byte>, offset: nat, end: nat) returns (r: Option<Arcs>)
    ensures r == Decode(data, offset, end)
  {
    var first := ReadSubidentifier(data, offset);
    if first.None? {
      return None;
    }
    var subid, at := first.value.value, first.value.offset;
    var root, second := 0, subid;
    if subid >= 40 {
      if subid < 80 {
        root, second := 1, subid - 40;
      } else {
        root, second := 2, subid - 80;
      }
    }
    var arcs := [root, second];
    ghost var tail := ReadAll(data, at, end);
    while at < end
      invariant var rest := ReadAll(data, at, end);
                if tail.None? then rest.None?
                else rest.Some? && arcs + rest.value.arcs == Split(subid) + tail.value.arcs
                     && rest.value.offset == tail.value.offset
      decreases end - at
    {
      var next := ReadSubidentifier(data, at);
      if next.None? {
        return None;
      }
      arcs := arcs + [next.value.value];
      at := next.value.offset;
    }
    assert arcs + [] == arcs;
    return Some(Arcs(arcs, at));
  }
}
