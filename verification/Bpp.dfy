/**
 * Sending a Bound Profile Package to the eUICC in slices, lpac/euicc/es10b.c
 * lines 165 to 399, over the ES10x transport (section 2.5.5 of SGP.22).
 */
module Bpp {
  import opened Bytes
  import opened Der
  import opened DerUtil
  import opened DerParse
  import opened Transport
  import TransportFacts

  const TAG_PACKAGE: nat := 0xBF36
  const TAG_CHANNEL: nat := 0xBF23
  const TAG_CONFIGURE: nat := 0xA0
  const TAG_METADATA: nat := 0xA1
  const TAG_KEYS: nat := 0xA2
  const TAG_ELEMENTS: nat := 0xA3

  /** The octets of a found TLV, its header, and its value. */
  function WholeOf(b: seq<byte>, r: (nat, Header)): seq<byte>
    requires r.0 <= |b| && ReadHeader(b[r.0..]) == Some(r.1)
  {
    b[r.0..r.0 + r.1.size + r.1.length]
  }

  function HeadOf(b: seq<byte>, r: (nat, Header)): seq<byte>
    requires r.0 <= |b| && ReadHeader(b[r.0..]) == Some(r.1)
  {
    b[r.0..r.0 + r.1.size]
  }

  function ValueOf(b: seq<byte>, r: (nat, Header)): seq<byte>
    requires r.0 <= |b| && ReadHeader(b[r.0..]) == Some(r.1)
  {
    b[r.0 + r.1.size..r.0 + r.1.size + r.1.length]
  }

  /** The children of a TLV, each with its header. */
  function Kids(ts: seq<Tv>): seq<seq<byte>> {
    if ts == [] then [] else [ts[0].whole] + Kids(ts[1..])
  }

  /** Which slices are sent when every send succeeds, and whether every mandatory part is found. */
  datatype Plan = Plan(slices: seq<seq<byte>>, complete: bool)

  function Before(slices: seq<seq<byte>>, p: Plan): Plan {
    Plan(slices + p.slices, p.complete)
  }

  function PlanElements(v: seq<byte>): Plan {
    var r := Find(v, [TAG_ELEMENTS]);
    if r.None? then Plan([], false)
    else Plan([HeadOf(v, r.value)] + Kids(Walk(ValueOf(v, r.value))), true)
  }

  function PlanKeys(v: seq<byte>): Plan {
    var r := Find(v, [TAG_KEYS]);
    if r.None? then PlanElements(v) else Before([WholeOf(v, r.value)], PlanElements(v))
  }

  function PlanMetadata(v: seq<byte>): Plan {
    var r := Find(v, [TAG_METADATA]);
    if r.None? then Plan([], false)
    else Before([HeadOf(v, r.value)] + Kids(Walk(ValueOf(v, r.value))), PlanKeys(v))
  }

  function PlanConfigure(v: seq<byte>): Plan {
    var r := Find(v, [TAG_CONFIGURE]);
    if r.None? then Plan([], false) else Before([WholeOf(v, r.value)], PlanMetadata(v))
  }

  function PlanOf(b: seq<byte>): Plan {
    var p := Find(b, [TAG_PACKAGE]);
    if p.None? then Plan([], false)
    else
      var v := ValueOf(b, p.value);
      var r := Find(v, [TAG_CHANNEL]);
      if r.None? then Plan([], false)
      else Before([b[p.value.0..p.value.0 + p.value.1.size + r.value.0 + r.value.1.size + r.value.1.length]],
                  PlanConfigure(v))
  }

  function Join(slices: seq<seq<byte>>): seq<byte> {
    if slices == [] then [] else slices[0] + Join(slices[1..])
  }

  lemma {:induction false} JoinAppend(a: seq<seq<byte>>, b: seq<seq<byte>>)
    ensures Join(a + b) == Join(a) + Join(b)
  {
    if a == [] {
      assert a + b == b;
    } else {
      JoinAppend(a[1..], b);
      assert (a + b)[1..] == a[1..] + b;
      assert a[0] + (Join(a[1..]) + Join(b)) == Join(a) + Join(b);
    }
  }

  lemma {:induction false} JoinKids(ts: seq<Tv>)
    ensures Join(Kids(ts)) == Wholes(ts)
  {
    if ts != [] {
      JoinKids(ts[1..]);
      assert Kids(ts)[1..] == Kids(ts[1..]);
    }
  }

  /**
   * The value of a package: in order, the secure channel request, the ISD-P
   * configuration, the metadata, perhaps the session keys, and the profile
   * elements; metadata and elements hold whole TLVs only.
   */
  predicate ValueLaidOut(v: seq<byte>) {
    var ts := Walk(v);
    && Unread(v) == [] && 4 <= |ts| <= 5
    && ts[0].tag == TAG_CHANNEL && ts[1].tag == TAG_CONFIGURE && ts[2].tag == TAG_METADATA
    && (|ts| == 5 ==> ts[3].tag == TAG_KEYS) && Last(ts).tag == TAG_ELEMENTS
    && Unread(ts[2].value) == [] && Unread(Last(ts).value) == []
  }

  /** p is one whole package TLV. */
  ghost predicate IsPackage(p: seq<byte>) {
    && ReadHeader(p).Some? && FirstTv(p).tag == TAG_PACKAGE && FirstTv(p).whole == p
    && ValueLaidOut(FirstTv(p).value)
  }

  /** The sibling Find gives is the first with the tag, so it is the i-th of the walk when no earlier one has it. */
  lemma FindAt(v: seq<byte>, tag: nat, i: nat)
    requires i < |Walk(v)| && Walk(v)[i].tag == tag
    requires forall j :: 0 <= j < i ==> Walk(v)[j].tag != tag
    ensures var r := Find(v, [tag]);
            && r.Some?
            && WholeOf(v, r.value) == Walk(v)[i].whole && ValueOf(v, r.value) == Walk(v)[i].value
            && HeadOf(v, r.value) + ValueOf(v, r.value) == WholeOf(v, r.value)
            && r.value.0 == |Wholes(Walk(v)[..i])|
            && WholeOf(v, r.value) == v[r.value.0..r.value.0 + |Walk(v)[i].whole|]
  {
    hide Find, ReadHeader, Walk, FirstTv, WholeOf, ValueOf, HeadOf, Wholes;
    var k := FindIsFirst(v, [tag]);
    assert k == i;
    FoundParts(v, Find(v, [tag]).value);
  }

  lemma FoundParts(v: seq<byte>, r: (nat, Header))
    requires r.0 <= |v| && ReadHeader(v[r.0..]) == Some(r.1)
    ensures var t := FirstTv(v[r.0..]);
            && WholeOf(v, r) == t.whole && ValueOf(v, r) == t.value && HeadOf(v, r) + ValueOf(v, r) == WholeOf(v, r)
            && WholeOf(v, r) == v[r.0..r.0 + |t.whole|]
  {
    hide ReadHeader;
    var (o, h) := r;
    assert v[o..][..h.size + h.length] == v[o..o + h.size + h.length];
    assert v[o..][h.size..h.size + h.length] == v[o + h.size..o + h.size + h.length];
  }

  lemma FindNone(v: seq<byte>, tag: nat)
    requires forall j :: 0 <= j < |Walk(v)| ==> Walk(v)[j].tag != tag
    ensures Find(v, [tag]).None?
  {
    hide Find, ReadHeader;
    var k := FindIsFirst(v, [tag]);
  }

  /** A TLV's header followed by its children, when the children fill its value. */
  lemma HeadAndKids(v: seq<byte>, r: (nat, Header))
    requires r.0 <= |v| && ReadHeader(v[r.0..]) == Some(r.1)
    requires Unread(ValueOf(v, r)) == []
    ensures Join([HeadOf(v, r)] + Kids(Walk(ValueOf(v, r)))) == WholeOf(v, r)
  {
    hide ReadHeader, Walk, Unread;
    var kids := Kids(Walk(ValueOf(v, r)));
    JoinKids(Walk(ValueOf(v, r)));
    WalkTiles(ValueOf(v, r));
    assert Wholes(Walk(ValueOf(v, r))) == ValueOf(v, r);
    assert ([HeadOf(v, r)] + kids)[1..] == kids;
    assert HeadOf(v, r) + ValueOf(v, r) == WholeOf(v, r);
  }

  lemma JoinOne(s: seq<byte>)
    ensures Join([s]) == s
  {
    assert s + Join([s][1..]) == s;
  }

  lemma JoinBefore(slices: seq<seq<byte>>, p: Plan)
    ensures Join(Before(slices, p).slices) == Join(slices) + Join(p.slices)
  {
    JoinAppend(slices, p.slices);
  }

  lemma ElementsConserved(v: seq<byte>)
    requires ValueLaidOut(v)
    ensures PlanElements(v).complete && Join(PlanElements(v).slices) == Last(Walk(v)).whole
  {
    hide Walk, Unread, ReadHeader, Find;
    FindAt(v, TAG_ELEMENTS, |Walk(v)| - 1);
    HeadAndKids(v, Find(v, [TAG_ELEMENTS]).value);
  }

  lemma WholesStep(ts: seq<Tv>, i: nat)
    requires i < |ts|
    ensures Wholes(ts[i..]) == ts[i].whole + Wholes(ts[i + 1..])
  {
    assert ts[i..][1..] == ts[i + 1..];
  }

  lemma WholesOfOne(ts: seq<Tv>)
    requires |ts| == 1
    ensures Wholes(ts) == ts[0].whole
  {
    assert ts[1..] == [] && ts[0].whole + [] == ts[0].whole;
  }

  lemma KeysConserved(v: seq<byte>)
    requires ValueLaidOut(v)
    ensures PlanKeys(v).complete && Join(PlanKeys(v).slices) == Wholes(Walk(v)[3..])
  {
    hide Walk, Unread, ReadHeader, Find, PlanElements, Wholes;
    var ts := Walk(v);
    ElementsConserved(v);
    if |ts| == 5 {
      FindAt(v, TAG_KEYS, 3);
      JoinOne(ts[3].whole);
      JoinBefore([ts[3].whole], PlanElements(v));
      WholesStep(ts, 3);
      WholesOfOne(ts[4..]);
    } else {
      FindNone(v, TAG_KEYS);
      WholesOfOne(ts[3..]);
    }
  }

  lemma MetadataConserved(v: seq<byte>)
    requires ValueLaidOut(v)
    ensures PlanMetadata(v).complete && Join(PlanMetadata(v).slices) == Walk(v)[2].whole + Join(PlanKeys(v).slices)
  {
    hide Walk, Unread, ReadHeader, Find, PlanKeys;
    KeysConserved(v);
    FindAt(v, TAG_METADATA, 2);
    var r := Find(v, [TAG_METADATA]).value;
    HeadAndKids(v, r);
    JoinBefore([HeadOf(v, r)] + Kids(Walk(ValueOf(v, r))), PlanKeys(v));
  }

  lemma ConfigureConserved(v: seq<byte>)
    requires ValueLaidOut(v)
    ensures PlanConfigure(v).complete
    ensures Walk(v)[0].whole + Join(PlanConfigure(v).slices) == v
  {
    hide Walk, Unread, ReadHeader, Find, PlanKeys, PlanMetadata, Wholes, Join;
    var ts := Walk(v);
    KeysConserved(v);
    MetadataConserved(v);
    FindAt(v, TAG_CONFIGURE, 1);
    JoinOne(ts[1].whole);
    JoinBefore([ts[1].whole], PlanMetadata(v));
    WalkTiles(v);
    assert Wholes(ts) + [] == Wholes(ts) && ts[0..] == ts;
    WholesStep(ts, 0);
    WholesStep(ts, 1);
    WholesStep(ts, 2);
  }

  /** The first slice reaches from the start of the package to the end of its first part. */
  lemma FirstSlice(b: seq<byte>, r: (nat, Header), v: seq<byte>)
    requires r.0 <= |b| && ReadHeader(b[r.0..]) == Some(r.1) && v == ValueOf(b, r) && ValueLaidOut(v)
    ensures Find(v, [TAG_CHANNEL]).Some? && Walk(v) != []
    ensures var c := Find(v, [TAG_CHANNEL]).value;
            b[r.0..r.0 + r.1.size + c.0 + c.1.size + c.1.length] == HeadOf(b, r) + Walk(v)[0].whole
  {
    hide Walk, Unread, ReadHeader, Find;
    FindAt(v, TAG_CHANNEL, 0);
    assert Walk(v)[..0] == [];
    assert Find(v, [TAG_CHANNEL]).value.0 == 0;
  }

  /**
   * Conservation. The slices planned for a laid-out package join to exactly the
   * octets of the package: nothing is lost and nothing is sent twice.
   */
  lemma PackageConserved(b: seq<byte>)
    requires Find(b, [TAG_PACKAGE]).Some? && IsPackage(WholeOf(b, Find(b, [TAG_PACKAGE]).value))
    ensures PlanOf(b).complete
    ensures Join(PlanOf(b).slices) == WholeOf(b, Find(b, [TAG_PACKAGE]).value)
  {
    hide Walk, Unread, ReadHeader, Find, PlanConfigure, ValueLaidOut, Join, FirstTv;
    var r := Find(b, [TAG_PACKAGE]).value;
    var v := ValueOf(b, r);
    PackageValue(b, r);
    ConfigureConserved(v);
    FirstSlice(b, r, v);
    var first := HeadOf(b, r) + Walk(v)[0].whole;
    JoinOne(first);
    JoinBefore([first], PlanConfigure(v));
    var rest := Join(PlanConfigure(v).slices);
    assert first + rest == HeadOf(b, r) + (Walk(v)[0].whole + rest);
    assert HeadOf(b, r) + v == WholeOf(b, r);
  }

  lemma PackageValue(b: seq<byte>, r: (nat, Header))
    requires r.0 <= |b| && ReadHeader(b[r.0..]) == Some(r.1)
    requires ReadHeader(WholeOf(b, r)).Some?
    ensures FirstTv(WholeOf(b, r)).whole == WholeOf(b, r) ==> FirstTv(WholeOf(b, r)).value == ValueOf(b, r)
  {
    hide ReadHeader;
    var p := WholeOf(b, r);
    var rest := b[r.0 + r.1.size + r.1.length..];
    assert p + rest == b[r.0..];
    ReadHeaderLocal(p, rest);
    var h := ReadHeader(p).value;
    assert p[h.size..h.size + h.length] == ValueOf(b, r);
  }
}
