/**
 * The reading half of lpac/euicc/derutil.c: one TLV at a pointer, the next
 * sibling, and the first sibling with a wanted tag.
 */
module DerParse {
  import opened Bytes
  import opened Der
  import opened DerUtil

  /** result describes the TLV with header h at offset o of buffer. */
  ghost predicate Describes(result: Node, buffer: array<byte>, o: nat, h: Header)
    reads result
  {
    && result.tag == h.tag && result.length == h.length
    && result.value == At(buffer, o + h.size)
    && result.selfPtr == At(buffer, o) && result.selfLength == h.size + h.length
    && !result.headless && result.child == null && result.next == null
  }

  lemma AccumulateOctet(v: nat, c: byte)
    ensures U32(U32(v) * 256) + c == U32(256 * v + c)
  {
    ShiftIn(v, c);
    ShiftIn(U32(v), 0);
    LowBits(v);
  }

  /** A shift by an octet keeps the low 24 bits. */
  lemma ShiftIn(v: nat, c: byte)
    ensures U32(256 * v + c) == 256 * (v % 0x100_0000) + c
  {
    assert 256 * v + c == v / 0x100_0000 * 0x1_0000_0000 + (256 * (v % 0x100_0000) + c);
  }

  lemma LowBits(v: nat)
    ensures U32(v) % 0x100_0000 == v % 0x100_0000
  {
    assert v == 0x100_0000 * (256 * (v / 0x1_0000_0000)) + U32(v);
  }

  lemma ValueStep(b: seq<byte>, i: nat)
    requires i < |b|
    ensures Value(b[..i + 1]) == 256 * Value(b[..i]) + b[i]
  {
    PrefixStep(b, i);
  }

  /** The length octets, from the first one on: lpac/euicc/derutil.c:36-52. */
  method UnpackLength(result: Node, buffer: array<byte>, o: nat, len: nat) returns (ok: bool, n: nat)
    requires 1 <= len && o + len <= buffer.Length
    modifies result`length
    ensures ok == ReadLength(buffer[o..o + len]).Some?
    ensures ok ==> ReadLength(buffer[o..o + len]) == Some((result.length, n))
  {
    hide Value, U32;
    ghost var b := buffer[o..o + len];
    result.length := buffer[o];
    n := 1;
    if result.length >= 0x80 {
      var lengthlen := result.length - 0x80;
      if len - n < lengthlen {
        return false, n;
      }
      ghost var octets := b[1..1 + lengthlen];
      result.length := 0;
      ValueOfNothing();
      while n < 1 + lengthlen
        invariant 1 <= n <= 1 + lengthlen
        invariant result.length == U32(Value(octets[..n - 1]))
      {
        ValueStep(octets, n - 1);
        AccumulateOctet(Value(octets[..n - 1]), octets[n - 1]);
        assert octets[n - 1] == b[n] == buffer[o + n];
        result.length := U32(result.length * 256) + buffer[o + n];
        n := n + 1;
      }
      assert octets[..n - 1] == octets;
    }
    ok := true;
  }

  /** The tag octets: lpac/euicc/derutil.c:15-28. */
  method UnpackTag(result: Node, buffer: array<byte>, o: nat, len: nat) returns (ok: bool, n: nat)
    requires o + len <= buffer.Length
    modifies result`tag
    ensures ok == ReadTag(buffer[o..o + len]).Some?
    ensures ok ==> ReadTag(buffer[o..o + len]) == Some((result.tag, n))
  {
    ghost var b := buffer[o..o + len];
    n := 0;
    if len - n < 1 {
      return false, n;
    }
    result.tag := buffer[o];
    n := 1;
    if result.tag % 32 == 0x1F {
      if len - n < 1 {
        return false, n;
      }
      result.tag := 256 * result.tag + buffer[o + n];
      n := 2;
    }
    ok := true;
  }

  /** lpac/euicc/derutil.c:6-64 */
  method UnpackFirst(result: Node, buffer: array<byte>, o: nat, len: nat) returns (ret: int)
    requires o + len <= buffer.Length
    modifies result
    ensures ret == if ReadHeader(buffer[o..o + len]).Some? then 0 else -1
    ensures ret == 0 ==> Describes(result, buffer, o, ReadHeader(buffer[o..o + len]).value)
    ensures ret == -1 ==> result.selfPtr == Null && result.value == Null
  {
    hide ReadTag, ReadLength;
    ghost var b := buffer[o..o + len];
    var cptr, rlen := o, len;
    result.tag, result.length, result.value, result.selfPtr, result.selfLength := 0, 0, Null, Null, 0;
    result.headless, result.relativeOffset, result.child, result.next := false, 0, null, null;
    var ok, n := UnpackTag(result, buffer, cptr, rlen);
    if !ok {
      return -1;
    }
    cptr, rlen := cptr + n, rlen - n;
    assert b[cptr - o..] == buffer[cptr..cptr + rlen];
    if rlen < 1 {
      NoLength(b[cptr - o..]);
      return -1;
    }
    ok, n := UnpackLength(result, buffer, cptr, rlen);
    if !ok {
      return -1;
    }
    cptr, rlen := cptr + n, rlen - n;
    if rlen < result.length {
      return -1;
    }
    result.value := At(buffer, cptr);
    result.selfPtr := At(buffer, o);
    result.selfLength := cptr - o + result.length;
    ret := 0;
  }

  lemma NoLength(b: seq<byte>)
    requires b == []
    ensures ReadLength(b) == None
  {
  }

  lemma ValueOfNothing()
    ensures U32(Value([])) == 0
  {
  }

  /** lpac/euicc/derutil.c:66-75. result and prev may be the same object. */
  method UnpackNext(result: Node, prev: Node, buffer: array<byte>, o: nat, len: nat) returns (ret: int)
    requires o + len <= buffer.Length
    requires prev.selfPtr.At? && o <= prev.selfPtr.off + prev.selfLength <= o + len
    modifies result
    ensures var from := old(prev.selfPtr.off + prev.selfLength);
            && ret == (if ReadHeader(buffer[from..o + len]).Some? then 0 else -1)
            && (ret == 0 ==> Describes(result, buffer, from, ReadHeader(buffer[from..o + len]).value))
    ensures ret == -1 ==> result.selfPtr == Null && result.value == Null
  {
    hide ReadHeader;
    var cptr := prev.selfPtr.off + prev.selfLength;
    var rlen := len - (cptr - o);
    ret := UnpackFirst(result, buffer, cptr, rlen);
  }

  /** Where the first sibling with one of the tags stands in b. */
  function Place(b: seq<byte>, tags: seq<nat>): (r: Option<nat>)
    ensures r.Some? ==> r.value <= |b|
    decreases |b|
  {
    if ReadHeader(b).None? then None
    else
      var h := ReadHeader(b).value;
      if h.tag in tags then Some(0)
      else
        var r := Place(b[h.size + h.length..], tags);
        if r.None? then None else Some(h.size + h.length + r.value)
  }

  lemma {:induction false} PlaceReads(b: seq<byte>, tags: seq<nat>)
    ensures var r := Place(b, tags);
            r.Some? ==> ReadHeader(b[r.value..]).Some? && ReadHeader(b[r.value..]).value.tag in tags
    decreases |b|
  {
    hide ReadHeader;
    var r := Place(b, tags);
    if r.Some? {
      var h := ReadHeader(b).value;
      if h.tag in tags {
        assert b[0..] == b;
      } else {
        var n := h.size + h.length;
        PlaceReads(b[n..], tags);
        assert b[n..][Place(b[n..], tags).value..] == b[r.value..];
      }
    }
  }

  /** The first sibling with one of the tags: where it stands in b, and its header. */
  function Find(b: seq<byte>, tags: seq<nat>): (r: Option<(nat, Header)>)
    ensures r.Some? ==> r.value.0 <= |b| && ReadHeader(b[r.value.0..]) == Some(r.value.1)
  {
    var r := Place(b, tags);
    if r.None? then None else (
      PlaceReads(b, tags);
      Some((r.value, ReadHeader(b[r.value..]).value))
    )
  }

  function Shift(r: Option<(nat, Header)>, n: nat): Option<(nat, Header)> {
    if r.None? then None else Some((r.value.0 + n, r.value.1))
  }

  /** Find looks at the first sibling and then at the rest. */
  lemma FindFirst(b: seq<byte>, tags: seq<nat>)
    ensures ReadHeader(b).None? ==> Find(b, tags).None?
    ensures ReadHeader(b).Some? ==>
              var h := ReadHeader(b).value;
              var n := h.size + h.length;
              Find(b, tags) == if h.tag in tags then Some((0, h)) else Shift(Find(b[n..], tags), n)
  {
    hide ReadHeader;
    if ReadHeader(b).Some? {
      var h := ReadHeader(b).value;
      var n := h.size + h.length;
      if h.tag in tags {
        assert b[0..] == b;
      } else if Place(b[n..], tags).Some? {
        assert b[n..][Place(b[n..], tags).value..] == b[Place(b, tags).value..];
      }
    }
  }

  /**
   * Find gives the first sibling a walk visits that has a wanted tag: it comes
   * right after the siblings before it, and none of those has such a tag.
   */
  lemma {:induction false} FindIsFirst(b: seq<byte>, tags: seq<nat>) returns (i: nat)
    ensures i <= |Walk(b)| && forall j :: 0 <= j < i ==> Walk(b)[j].tag !in tags
    ensures Find(b, tags).None? <==> i == |Walk(b)|
    ensures Find(b, tags).Some? ==>
              && Walk(b)[i].tag in tags
              && Find(b, tags).value.0 == |Wholes(Walk(b)[..i])|
              && Walk(b)[i] == FirstTv(b[Find(b, tags).value.0..])
    decreases |b|
  {
    hide ReadHeader, Find;
    FindFirst(b, tags);
    i := 0;
    if ReadHeader(b).Some? {
      var n := |FirstTv(b).whole|;
      if FirstTv(b).tag in tags {
        assert b[0..] == b;
      } else {
        var k := FindIsFirst(b[n..], tags);
        i := k + 1;
        assert Walk(b) == [FirstTv(b)] + Walk(b[n..]);
        if Find(b, tags).Some? {
          assert Walk(b)[..i][1..] == Walk(b[n..])[..k];
          var m := Find(b[n..], tags).value.0;
          assert b[n..][m..] == b[n + m..];
        }
      }
    }
  }

  /** lpac/euicc/derutil.c:83-87 */
  method IsWanted(tag: nat, tags: seq<nat>) returns (found: bool)
    ensures found == (tag in tags)
  {
    var i := 0;
    while i < |tags|
      invariant 0 <= i <= |tags| && tag !in tags[..i]
    {
      if tag == tags[i] {
        return true;
      }
      i := i + 1;
    }
    return false;
  }

  /** lpac/euicc/derutil.c:77-91 */
  method UnpackFindAliasTags(result: Node, tags: seq<nat>, buffer: array<byte>, o: nat, len: nat) returns (ret: int)
    requires o + len <= buffer.Length
    modifies result
    ensures var r := Find(buffer[o..o + len], tags);
            && ret == (if r.Some? then 0 else -1)
            && (ret == 0 ==> Describes(result, buffer, o + r.value.0, r.value.1))
  {
    hide ReadHeader, Find;
    ghost var b, c := buffer[o..o + len], 0;
    assert b[0..] == b && Shift(Find(b, tags), 0) == Find(b, tags);
    hide Shift;
    result.selfPtr := At(buffer, o);
    result.selfLength := 0;
    ret := 0;
    while true
      invariant c <= len && result.selfPtr.At? && result.selfPtr.off + result.selfLength == o + c
      invariant ret == 0
      invariant Find(b, tags) == Shift(Find(b[c..], tags), c)
      decreases len - c
    {
      assert buffer[o + c..o + len] == b[c..];
      ret := UnpackNext(result, result, buffer, o, len);
      if ret != 0 {
        break;
      }
      FindStep(b, c, tags);
      var wanted := IsWanted(result.tag, tags);
      if wanted {
        return 0;
      }
      c := c + result.selfLength;
    }
    FindStep(b, c, tags);
    ret := -1;
  }

  lemma FindStep(b: seq<byte>, c: nat, tags: seq<nat>)
    requires c <= |b|
    ensures ReadHeader(b[c..]).None? ==> Shift(Find(b[c..], tags), c).None?
    ensures ReadHeader(b[c..]).Some? ==>
              var h := ReadHeader(b[c..]).value;
              var n := h.size + h.length;
              && c + n <= |b|
              && Shift(Find(b[c..], tags), c)
                 == if h.tag in tags then Some((c, h)) else Shift(Find(b[c + n..], tags), c + n)
  {
    hide ReadHeader, Find;
    FindFirst(b[c..], tags);
    if ReadHeader(b[c..]).Some? {
      var h := ReadHeader(b[c..]).value;
      assert b[c..][h.size + h.length..] == b[c + h.size + h.length..];
    }
  }

  /** lpac/euicc/derutil.c:93-96 */
  method UnpackFindTag(result: Node, tag: nat, buffer: array<byte>, o: nat, len: nat) returns (ret: int)
    requires o + len <= buffer.Length
    modifies result
    ensures var r := Find(buffer[o..o + len], [tag]);
            && ret == (if r.Some? then 0 else -1)
            && (ret == 0 ==> Describes(result, buffer, o + r.value.0, r.value.1))
  {
    ret := UnpackFindAliasTags(result, [tag], buffer, o, len);
  }
}
