/**
 * The TLV encoding that lpac/euicc/derutil.c writes and reads (ITU-T X.690,
 * sections 8.1.2, 8.1.3 and 10.1), on values: the recursive encoding of a forest, the
 * reading of one header, the walk over siblings, and the proof that reading
 * undoes writing.
 */
module Der {
  import opened Bytes

  /**
   * A TLV forest element. Raw is a headless node: bytes copied in without tag
   * and length. N is what a caller attaches to each element.
   */
  datatype Tlv<N> =
    | Leaf(n: N, tag: nat, content: seq<byte>)
    | Inner(n: N, tag: nat, kids: seq<Tlv<N>>)
    | Raw(n: N, content: seq<byte>)

  predicate TagFits(tag: nat) {
    tag < 0x1_0000
  }

  function TagOctets(tag: nat): (b: seq<byte>)
    requires TagFits(tag)
    ensures |b| == if tag / 256 != 0 then 2 else 1
  {
    (if tag / 256 != 0 then [tag / 256] else []) + [tag % 256]
  }

  function LengthOctets(n: nat): (b: seq<byte>)
    requires n < TWO_32
    ensures |b| == if n < 0x80 then 1 else 1 + |BigEndian(n)|
    ensures |b| <= 5
  {
    if n < 0x80 then [n] else (
      BigEndianBounds(n, 4);
      assert Pow256(4) == 256 * Pow256(3) == 256 * (256 * Pow256(2)) == TWO_32;
      [0x80 + |BigEndian(n)|] + BigEndian(n)
    )
  }

  /** Tags and lengths on the borders of their forms: sections 8.1.2 and 8.1.3 of X.690. */
  lemma HeaderExamples()
    ensures TagOctets(0x5A) == [0x5A] && TagOctets(0xBF37) == [0xBF, 0x37]
    ensures LengthOctets(0) == [0] && LengthOctets(0x7F) == [0x7F]
    ensures LengthOctets(0x80) == [0x81, 0x80] && LengthOctets(0xFF) == [0x81, 0xFF]
    ensures LengthOctets(0x100) == [0x82, 0x01, 0x00] && LengthOctets(0x1_0000) == [0x83, 0x01, 0x00, 0x00]
  {
    assert BigEndian(0x80) == [0x80] && BigEndian(0xFF) == [0xFF] && BigEndian(1) == [1];
    assert BigEndian(0x100) == BigEndian(1) + [0];
    assert BigEndian(0x1_0000) == BigEndian(0x100) + [0];
  }

  /** Every tag fits two octets and every content is shorter than 2^32. */
  predicate Fits<N>(t: Tlv<N>)
    decreases t, 1
  {
    (t.Raw? || TagFits(t.tag)) && (t.Inner? ==> FitsAll(t.kids)) && |Content(t)| < TWO_32
  }

  predicate FitsAll<N>(f: seq<Tlv<N>>)
    decreases f, 0
  {
    forall i :: 0 <= i < |f| ==> Fits(f[i])
  }

  function Content<N>(t: Tlv<N>): seq<byte>
    requires t.Inner? ==> FitsAll(t.kids)
    decreases t, 0
  {
    if t.Inner? then EncAll(t.kids) else t.content
  }

  function Head<N>(t: Tlv<N>): (h: seq<byte>)
    requires Fits(t)
    ensures t.Raw? ==> h == []
    decreases t, 2
  {
    if t.Raw? then [] else TagOctets(t.tag) + LengthOctets(|Content(t)|)
  }

  function Enc<N>(t: Tlv<N>): (b: seq<byte>)
    requires Fits(t)
    ensures |b| == |Head(t)| + |Content(t)|
    decreases t, 3
  {
    Head(t) + Content(t)
  }

  function EncAll<N>(f: seq<Tlv<N>>): seq<byte>
    requires FitsAll(f)
    decreases f, 4
  {
    if f == [] then [] else EncAll(Init(f)) + Enc(Last(f))
  }

  lemma EncAllStep<N>(f: seq<Tlv<N>>, i: nat)
    requires FitsAll(f) && i < |f|
    ensures EncAll(f[..i + 1]) == EncAll(f[..i]) + Enc(f[i])
  {
    PrefixStep(f, i);
  }

  lemma {:induction false} EncAllPrefix<N>(f: seq<Tlv<N>>, i: nat)
    requires FitsAll(f) && i <= |f|
    ensures EncAll(f[..i]) <= EncAll(f)
    decreases |f| - i
  {
    if i < |f| {
      EncAllStep(f, i);
      EncAllPrefix(f, i + 1);
    } else {
      assert f[..i] == f;
    }
  }

  /** What the octets before a value say: the tag, how many octets they take, and the value's length. */
  datatype Header = Header(tag: nat, size: nat, length: nat)

  function ReadTag(b: seq<byte>): (r: Option<(nat, nat)>)
    ensures r.Some? ==> 1 <= r.value.1 <= |b| && r.value.1 <= 2
  {
    if |b| < 1 then None
    else if b[0] % 32 != 0x1F then
      Some((b[0] as nat, 1))
    else if |b| < 2 then None
    else
      Some((256 * (b[0] as nat) + b[1], 2))
  }

  function ReadLength(b: seq<byte>): (r: Option<(nat, nat)>)
    ensures r.Some? ==> 1 <= r.value.1 <= |b|
  {
    if |b| < 1 then None
    else if b[0] < 0x80 then Some((b[0], 1))
    else if |b| - 1 < b[0] - 0x80 then None
    else Some((U32(Value(b[1..1 + (b[0] - 0x80)])), 1 + (b[0] - 0x80)))
  }

  /** One TLV at the front of b, when b holds all of it. */
  function ReadHeader(b: seq<byte>): (r: Option<Header>)
    ensures r.Some? ==> 2 <= r.value.size && r.value.size + r.value.length <= |b|
  {
    match ReadTag(b)
    case None => None
    case Some((tag, n)) =>
      match ReadLength(b[n..])
      case None => None
      case Some((length, m)) =>
        if |b| - n - m < length then None else Some(Header(tag, n + m, length))
  }

  /** One TLV found by a walk: its tag, all its octets, and its value octets. */
  datatype Tv = Tv(tag: nat, whole: seq<byte>, value: seq<byte>)

  function FirstTv(b: seq<byte>): (t: Tv)
    requires ReadHeader(b).Some?
    ensures t.whole <= b && 2 + |t.value| <= |t.whole|
  {
    var h := ReadHeader(b).value;
    Tv(h.tag, b[..h.size + h.length], b[h.size..h.size + h.length])
  }

  /** The siblings a loop over unpack_next visits. */
  function Walk(b: seq<byte>): seq<Tv>
    decreases |b|
  {
    if ReadHeader(b).None? then []
    else [FirstTv(b)] + Walk(b[|FirstTv(b).whole|..])
  }

  /** The octets such a loop leaves unread. */
  function Unread(b: seq<byte>): (rest: seq<byte>)
    decreases |b|
  {
    if ReadHeader(b).None? then b
    else Unread(b[|FirstTv(b).whole|..])
  }

  function Wholes(ts: seq<Tv>): seq<byte> {
    if ts == [] then [] else ts[0].whole + Wholes(ts[1..])
  }

  /** Nothing is lost or repeated by a walk: what it visits and what it leaves tile the input. */
  lemma {:induction false} WalkTiles(b: seq<byte>)
    ensures Wholes(Walk(b)) + Unread(b) == b
    decreases |b|
  {
    hide ReadHeader, FirstTv;
    if ReadHeader(b).Some? {
      var n := |FirstTv(b).whole|;
      WalkTiles(b[n..]);
      assert Walk(b)[1..] == Walk(b[n..]);
      assert Wholes(Walk(b)) + Unread(b) == b[..n] + (Wholes(Walk(b[n..])) + Unread(b[n..]));
    }
  }

  lemma ReadLengthLocal(a: seq<byte>, b: seq<byte>)
    requires ReadLength(a).Some?
    ensures ReadLength(a + b) == ReadLength(a)
  {
    if a[0] >= 0x80 {
      assert (a + b)[1..1 + (a[0] - 0x80)] == a[1..1 + (a[0] - 0x80)];
    }
  }

  /** More input behind a complete TLV does not change how it reads. */
  lemma ReadHeaderLocal(a: seq<byte>, b: seq<byte>)
    requires ReadHeader(a).Some?
    ensures ReadHeader(a + b) == ReadHeader(a) && FirstTv(a + b) == FirstTv(a)
  {
    var (tag, n) := ReadTag(a).value;
    assert (a + b)[n..] == a[n..] + b;
    ReadLengthLocal(a[n..], b);
    var h := ReadHeader(a).value;
    assert (a + b)[..h.size + h.length] == a[..h.size + h.length];
    assert (a + b)[h.size..h.size + h.length] == a[h.size..h.size + h.length];
  }

  lemma StepLocal(a: seq<byte>, b: seq<byte>)
    requires ReadHeader(a).Some?
    ensures ReadHeader(a + b).Some? && FirstTv(a + b) == FirstTv(a)
    ensures var n := |FirstTv(a).whole|; n <= |a| && (a + b)[n..] == a[n..] + b
  {
    hide ReadHeader;
    ReadHeaderLocal(a, b);
  }

  lemma {:induction false} WalkAppend(a: seq<byte>, b: seq<byte>)
    requires Unread(a) == []
    ensures Walk(a + b) == Walk(a) + Walk(b)
    ensures Unread(a + b) == Unread(b)
    decreases |a|
  {
    hide ReadHeader, FirstTv;
    if a == [] {
      assert a + b == b;
    } else {
      StepLocal(a, b);
      WalkAppend(a[|FirstTv(a).whole|..], b);
    }
  }

  /** The tags the reader gives back: one octet, or two with the first octet's low five bits set. */
  predicate Readable(tag: nat) {
    TagFits(tag) && if tag < 256 then tag % 32 != 0x1F else tag / 256 % 32 == 0x1F
  }

  lemma ReadTagOctets(tag: nat, rest: seq<byte>)
    requires Readable(tag)
    ensures ReadTag(TagOctets(tag) + rest) == Some((tag, |TagOctets(tag)|))
  {
  }

  lemma ReadLengthOctets(n: nat, rest: seq<byte>)
    requires n < TWO_32
    ensures ReadLength(LengthOctets(n) + rest) == Some((n, |LengthOctets(n)|))
  {
    hide BigEndian, Value;
    if n >= 0x80 {
      ValueOfBigEndian(n);
      var k := |BigEndian(n)|;
      assert |LengthOctets(n)| == 1 + k <= 5;
      var b := LengthOctets(n) + rest;
      assert b[0] == 0x80 + k;
      assert b[1..1 + k] == BigEndian(n);
    }
  }

  /** In the long form any number of length octets is read, but only the low 32 bits are kept. */
  lemma LongLengths(octets: seq<byte>, rest: seq<byte>)
    requires |octets| < 0x80
    ensures ReadLength([0x80 + |octets|] + octets + rest) == Some((Value(octets) % 0x1_0000_0000, 1 + |octets|))
    ensures forall n :: 0 <= n < |octets| ==> ReadLength([0x80 + |octets|] + octets[..n]).None?
  {
    hide Value;
    var b := [0x80 + |octets|] + octets + rest;
    assert b[1..1 + |octets|] == octets;
  }

  predicate ReadableAll<N>(f: seq<Tlv<N>>)
    decreases f, 0
  {
    forall i :: 0 <= i < |f| ==> ReadableTlv(f[i])
  }

  /** What a walk can give back: readable tags, and raw bytes that are themselves whole TLVs. */
  predicate ReadableTlv<N>(t: Tlv<N>)
    decreases t, 1
  {
    match t
    case Leaf(_, tag, _) => Readable(tag)
    case Inner(_, tag, kids) => Readable(tag) && ReadableAll(kids)
    case Raw(_, content) => Unread(content) == []
  }

  /** Tag and length octets read back, whatever follows, when the value is all there. */
  lemma ReadHeaderOctets(tag: nat, n: nat, rest: seq<byte>)
    requires Readable(tag) && n < TWO_32 && n <= |rest|
    ensures var head := TagOctets(tag) + LengthOctets(n);
            ReadHeader(head + rest) == Some(Header(tag, |head|, n))
  {
    hide ReadTag, ReadLength;
    var b := TagOctets(tag) + LengthOctets(n) + rest;
    assert b == TagOctets(tag) + (LengthOctets(n) + rest);
    ReadTagOctets(tag, LengthOctets(n) + rest);
    assert b[|TagOctets(tag)|..] == LengthOctets(n) + rest;
    ReadLengthOctets(n, rest);
  }

  /** Reading one encoded element gives its tag and content back, whatever follows it. */
  lemma ReadEncoded<N>(t: Tlv<N>, rest: seq<byte>)
    requires Fits(t) && ReadableTlv(t) && !t.Raw?
    ensures ReadHeader(Enc(t) + rest) == Some(Header(t.tag, |Head(t)|, |Content(t)|))
    ensures FirstTv(Enc(t) + rest) == Tv(t.tag, Enc(t), Content(t))
  {
    hide ReadHeader, TagOctets, LengthOctets;
    var c := Content(t);
    var b := Enc(t) + rest;
    assert b == Head(t) + (c + rest);
    ReadHeaderOctets(t.tag, |c|, c + rest);
    assert b[..|Enc(t)|] == Enc(t);
    assert b[|Head(t)|..|Enc(t)|] == c;
  }

  /** The siblings a walk over the encoding of f must visit. */
  function Siblings<N>(f: seq<Tlv<N>>): seq<Tv>
    requires FitsAll(f)
  {
    if f == [] then [] else
      var t := Last(f);
      Siblings(Init(f)) + if t.Raw? then Walk(t.content) else [Tv(t.tag, Enc(t), Content(t))]
  }

  /** Walking the encoding of a forest visits exactly its elements, in order, and reads all of it. */
  lemma {:induction false} WalkEncoded<N>(f: seq<Tlv<N>>)
    requires FitsAll(f) && ReadableAll(f)
    ensures Walk(EncAll(f)) == Siblings(f)
    ensures Unread(EncAll(f)) == []
  {
    if f != [] {
      var t := Last(f);
      WalkEncoded(Init(f));
      WalkAppend(EncAll(Init(f)), Enc(t));
      if t.Raw? {
        assert Enc(t) == t.content;
      } else {
        ReadEncoded(t, []);
        assert Enc(t) + [] == Enc(t);
        assert Enc(t)[|Enc(t)|..] == [];
        assert Walk(Enc(t)) == [FirstTv(Enc(t))] + Walk([]);
      }
    }
  }

  /**
   * Reading a whole tree: deep says which tags hold further TLVs. Fails on
   * octets no walk reads.
   */
  function Decode(deep: nat -> bool, b: seq<byte>): Option<seq<Tlv<()>>>
    decreases |b|, 0
  {
    if b == [] then Some([])
    else if ReadHeader(b).None? then None
    else
      var first := DecodeTv(deep, FirstTv(b));
      var rest := Decode(deep, b[|FirstTv(b).whole|..]);
      if first.None? || rest.None? then None else Some([first.value] + rest.value)
  }

  function DecodeTv(deep: nat -> bool, t: Tv): Option<Tlv<()>>
    decreases |t.value|, 1
  {
    if !deep(t.tag) then Some(Leaf((), t.tag, t.value))
    else
      var kids := Decode(deep, t.value);
      if kids.None? then None else Some(Inner((), t.tag, kids.value))
  }

  lemma DecodeStep(deep: nat -> bool, b: seq<byte>)
    requires ReadHeader(b).Some?
    ensures var first, rest := DecodeTv(deep, FirstTv(b)), Decode(deep, b[|FirstTv(b).whole|..]);
            Decode(deep, b) == if first.None? || rest.None? then None else Some([first.value] + rest.value)
  {
    hide DecodeTv;
  }

  lemma {:induction false} DecodeAppend(deep: nat -> bool, a: seq<byte>, b: seq<byte>)
    requires Decode(deep, a).Some? && Decode(deep, b).Some?
    ensures Decode(deep, a + b) == Some(Decode(deep, a).value + Decode(deep, b).value)
    decreases |a|
  {
    hide ReadHeader, FirstTv, DecodeTv;
    if a == [] {
      assert a + b == b;
      assert [] + Decode(deep, b).value == Decode(deep, b).value;
    } else {
      StepLocal(a, b);
      var rest := a[|FirstTv(a).whole|..];
      DecodeStep(deep, a);
      DecodeStep(deep, a + b);
      DecodeAppend(deep, rest, b);
      ConsAppend(DecodeTv(deep, FirstTv(a)).value, Decode(deep, rest).value, Decode(deep, b).value);
    }
  }

  lemma ConsAppend<T>(x: T, s: seq<T>, t: seq<T>)
    ensures [x] + (s + t) == [x] + s + t
  {
  }

  /** f without what callers attached to its elements. */
  function Erase<N>(t: Tlv<N>): Tlv<()>
    decreases t, 0
  {
    match t
    case Leaf(_, tag, content) => Leaf((), tag, content)
    case Inner(_, tag, kids) => Inner((), tag, EraseAll(kids))
    case Raw(_, content) => Raw((), content)
  }

  function EraseAll<N>(f: seq<Tlv<N>>): (g: seq<Tlv<()>>)
    ensures |g| == |f|
    decreases f, 1
  {
    if f == [] then [] else EraseAll(Init(f)) + [Erase(Last(f))]
  }

  /** Every tag is readable, no element is headless, and deep tells inner elements from leaves. */
  predicate Typed<N>(deep: nat -> bool, t: Tlv<N>)
    decreases t, 1
  {
    !t.Raw? && Readable(t.tag) && deep(t.tag) == t.Inner? && (t.Inner? ==> TypedAll(deep, t.kids))
  }

  predicate TypedAll<N>(deep: nat -> bool, f: seq<Tlv<N>>)
    decreases f, 0
  {
    forall i :: 0 <= i < |f| ==> Typed(deep, f[i])
  }

  lemma {:induction false} TypedIsReadable<N>(deep: nat -> bool, f: seq<Tlv<N>>)
    requires TypedAll(deep, f)
    ensures ReadableAll(f)
    decreases f
  {
    forall i | 0 <= i < |f|
      ensures ReadableTlv(f[i])
    {
      assert Typed(deep, f[i]);
      if f[i].Inner? {
        TypedIsReadable(deep, f[i].kids);
      }
    }
  }

  /** Decoding the encoding of a forest gives the whole tree back: tags, nesting, contents and order. */
  lemma {:induction false} DecodeEncoded<N>(deep: nat -> bool, f: seq<Tlv<N>>)
    requires FitsAll(f) && TypedAll(deep, f)
    ensures Decode(deep, EncAll(f)) == Some(EraseAll(f))
    decreases f
  {
    hide ReadHeader, Head, TagOctets, LengthOctets;
    if f != [] {
      var t := Last(f);
      DecodeEncoded(deep, Init(f));
      assert Typed(deep, t);
      TypedIsReadable(deep, f);
      ReadEncoded(t, []);
      assert Enc(t) + [] == Enc(t);
      assert Enc(t)[|Enc(t)|..] == [];
      if t.Inner? {
        DecodeEncoded(deep, t.kids);
      }
      assert DecodeTv(deep, FirstTv(Enc(t))) == Some(Erase(t));
      assert Decode(deep, Enc(t)) == Some([Erase(t)]) by {
        assert Decode(deep, []) == Some([]);
        assert [Erase(t)] + [] == [Erase(t)];
      }
      DecodeAppend(deep, EncAll(Init(f)), Enc(t));
    }
  }

  /** No two different typed forests have the same encoding. */
  lemma EncodingIsInjective<M, N>(deep: nat -> bool, f: seq<Tlv<M>>, g: seq<Tlv<N>>)
    requires FitsAll(f) && TypedAll(deep, f) && FitsAll(g) && TypedAll(deep, g)
    requires EncAll(f) == EncAll(g)
    ensures EraseAll(f) == EraseAll(g)
  {
    DecodeEncoded(deep, f);
    DecodeEncoded(deep, g);
  }
}
