/**
 * What the loader of lpac/euicc/es10b.c does with octets that are encodings: which slices it cuts
 * from an encoded package, and which encoded answers let it go on.
 */
module BppFacts {
  import opened Bytes
  import opened Der
  import opened DerUtil
  import opened DerParse
  import opened Transport
  import opened Bpp
  import opened BppLoad
  import TransportFacts

  // ---- Searching an encoded forest

  /** Of the elements of f, the i-th is the first with the tag. */
  predicate IsFirst(f: Forest, tag: nat, i: nat) {
    && i < |f| && !f[i].Raw? && f[i].tag == tag
    && forall j :: 0 <= j < i ==> !f[j].Raw? && f[j].tag != tag
  }

  predicate Lacks(f: Forest, tag: nat) {
    forall j :: 0 <= j < |f| ==> !f[j].Raw? && f[j].tag != tag
  }

  predicate Plain(f: Forest) {
    forall j :: 0 <= j < |f| ==> !f[j].Raw?
  }

  lemma {:induction false} SiblingsAre(f: Forest)
    requires FitsAll(f) && Plain(f)
    ensures |Siblings(f)| == |f|
    ensures forall i :: 0 <= i < |f| ==> Siblings(f)[i] == Tv(f[i].tag, Enc(f[i]), Content(f[i]))
  {
    hide Enc, Content, Fits;
    if f != [] {
      SiblingsAre(Init(f));
    }
  }

  lemma {:induction false} SiblingsPrefix(f: Forest, i: nat)
    requires FitsAll(f) && Plain(f) && i <= |f|
    ensures |Siblings(f)| == |f| && Siblings(f[..i]) == Siblings(f)[..i]
  {
    hide Enc, Content, Fits, Siblings;
    SiblingsAre(f);
    SiblingsAre(f[..i]);
  }

  /** Finding a tag in an encoding gives the element's place, header and content. */
  lemma FoundEncoded(f: Forest, tag: nat, i: nat)
    requires FitsAll(f) && ReadableAll(f) && Plain(f) && IsFirst(f, tag, i)
    ensures var r := Find(EncAll(f), [tag]);
            && r.Some? && r.value.0 == |EncAll(f[..i])|
            && WholeOf(EncAll(f), r.value) == Enc(f[i])
            && HeadOf(EncAll(f), r.value) == Head(f[i]) && ValueOf(EncAll(f), r.value) == Content(f[i])
  {
    hide Find, ReadHeader, EncAll, Head, Content, Fits, Walk, Siblings, WholeOf, HeadOf, ValueOf, ReadableTlv;
    var b := EncAll(f);
    WalkEncoded(f);
    SiblingsAre(f);
    FindAt(b, tag, i);
    assert Fits(f[i]);
    KidsFit(f[i]);
    var r := Find(b, [tag]).value;
    SameCut(HeadOf(b, r), Head(f[i]), Content(f[i]));
    WalkEncoded(f[..i]);
    WalkTiles(EncAll(f[..i]));
    SiblingsPrefix(f, i);
  }

  lemma KidsFit(t: Tree)
    requires Fits(t)
    ensures t.Inner? ==> FitsAll(t.kids)
    ensures Enc(t) == Head(t) + Content(t)
  {
  }

  lemma SameCut(a: seq<byte>, b: seq<byte>, c: seq<byte>)
    requires a + c == b + c
    ensures a == b
  {
    assert |a| == |b|;
    assert a == (a + c)[..|a|] == (b + c)[..|b|] == b;
  }

  lemma NotEncoded(f: Forest, tag: nat)
    requires FitsAll(f) && ReadableAll(f) && Lacks(f, tag)
    ensures Find(EncAll(f), [tag]).None?
  {
    hide Find, ReadHeader, EncAll, Fits, Walk, Siblings, ReadableTlv;
    WalkEncoded(f);
    SiblingsAre(f);
    FindNone(EncAll(f), tag);
  }

  // ---- Which slices a package is cut into

  /** A Bound Profile Package: section 2.5.4 of SGP.22. */
  function PackageOf(channel: Tree, configure: Tree, metadata: Forest, keys: Option<Tree>, elements: Forest): Tree {
    Inner((), 0xBF36, PartsOf(channel, configure, metadata, keys, elements))
  }

  function PartsOf(channel: Tree, configure: Tree, metadata: Forest, keys: Option<Tree>, elements: Forest): Forest {
    [channel, configure, Inner((), 0xA1, metadata)] + (if keys.Some? then [keys.value] else [])
    + [Inner((), 0xA3, elements)]
  }

  predicate IsTagged(t: Tree, tag: nat) {
    !t.Raw? && t.tag == tag
  }

  function Encodings(f: Forest): (s: seq<seq<byte>>)
    requires FitsAll(f)
    ensures |s| == |f|
  {
    seq(|f|, i requires 0 <= i < |f| => Enc(f[i]))
  }

  lemma {:induction false} KidsAre(ts: seq<Tv>)
    ensures |Kids(ts)| == |ts| && forall i :: 0 <= i < |ts| ==> Kids(ts)[i] == ts[i].whole
  {
    if ts != [] {
      KidsAre(ts[1..]);
    }
  }

  lemma KidsEncoded(f: Forest)
    requires FitsAll(f) && ReadableAll(f) && Plain(f)
    ensures Kids(Walk(EncAll(f))) == Encodings(f)
  {
    hide EncAll, Enc, Content, Fits, Walk, Siblings, ReadableTlv, Kids;
    WalkEncoded(f);
    SiblingsAre(f);
    KidsAre(Siblings(f));
  }

  /**
   * Of an encoded package, the first slice is its header with the whole of its first part; then come the
   * second part whole, the header of the metadata and each of its elements, the session keys whole if there
   * are any, and the header of the profile elements and each of those.
   */
  lemma PlanEncoded(channel: Tree, configure: Tree, metadata: Forest, keys: Option<Tree>, elements: Forest)
    requires var p := PackageOf(channel, configure, metadata, keys, elements);
             Fits(p) && ReadableTlv(p) && Plain(metadata) && Plain(elements)
    requires IsTagged(channel, 0xBF23) && IsTagged(configure, 0xA0) && (keys.Some? ==> IsTagged(keys.value, 0xA2))
    ensures FitsAll(metadata) && FitsAll(elements) && Fits(channel) && Fits(configure)
    ensures keys.Some? ==> Fits(keys.value)
    ensures Fits(Inner((), 0xA1, metadata)) && Fits(Inner((), 0xA3, elements))
    ensures var p := PackageOf(channel, configure, metadata, keys, elements);
            && FitsAll([p])
            && PlanOf(EncAll([p]))
               == Plan([Head(p) + Enc(channel), Enc(configure), Head(Inner((), 0xA1, metadata))] + Encodings(metadata)
                       + (if keys.Some? then [Enc(keys.value)] else [])
                       + [Head(Inner((), 0xA3, elements))] + Encodings(elements), true)
  {
    var p, parts := PackageOf(channel, configure, metadata, keys, elements),
                    PartsOf(channel, configure, metadata, keys, elements);
    hide EncAll, Enc, Head, Content, Fits, FitsAll, ReadableAll, ReadableTlv, Encodings, PlanConfigure, PlanOf, Plain,
         IsFirst, Lacks;
    PartsFit(channel, configure, metadata, keys, elements);
    PlanOfBody(channel, configure, metadata, keys, elements);
    PlanOfPackage(p, channel, parts);
    var k := if keys.Some? then [Enc(keys.value)] else [];
    var m, e := [Head(Inner((), 0xA1, metadata))], [Head(Inner((), 0xA3, elements))];
    var first, second := [Head(p) + Enc(channel)], [Enc(configure)];
    Flat3(first, second, m + Encodings(metadata), k + (e + Encodings(elements)));
    Flat5(first + second, m, Encodings(metadata), k, e, Encodings(elements));
    assert first + second + m == [Head(p) + Enc(channel), Enc(configure), Head(Inner((), 0xA1, metadata))];
  }

  lemma Flat3<T>(a: seq<T>, b: seq<T>, c: seq<T>, d: seq<T>)
    ensures a + (b + (c + d)) == a + b + c + d
  {
  }

  lemma Flat5<T>(ab: seq<T>, c: seq<T>, cs: seq<T>, k: seq<T>, e: seq<T>, es: seq<T>)
    ensures ab + (c + cs) + (k + (e + es)) == ab + c + cs + k + e + es
  {
  }

  lemma PartsFit(channel: Tree, configure: Tree, metadata: Forest, keys: Option<Tree>, elements: Forest)
    requires var p := PackageOf(channel, configure, metadata, keys, elements); Fits(p) && ReadableTlv(p)
    requires IsTagged(channel, 0xBF23) && IsTagged(configure, 0xA0) && (keys.Some? ==> IsTagged(keys.value, 0xA2))
    ensures var parts := PartsOf(channel, configure, metadata, keys, elements);
            var m, e := Inner((), 0xA1, metadata), Inner((), 0xA3, elements);
            && FitsAll(parts) && ReadableAll(parts) && Plain(parts)
            && Fits(channel) && Fits(configure) && (keys.Some? ==> Fits(keys.value)) && Fits(m) && Fits(e)
            && FitsAll(metadata) && FitsAll(elements) && ReadableAll(metadata) && ReadableAll(elements)
            && Content(m) == EncAll(metadata) && Content(e) == EncAll(elements)
            && IsFirst(parts, 0xBF23, 0) && IsFirst(parts, 0xA0, 1) && IsFirst(parts, 0xA1, 2)
            && IsFirst(parts, 0xA3, |parts| - 1)
            && if keys.Some? then IsFirst(parts, 0xA2, 3) else Lacks(parts, 0xA2)
  {
    hide Head, Enc, EncAll, Readable;
    var parts := PartsOf(channel, configure, metadata, keys, elements);
    var m, e := Inner((), 0xA1, metadata), Inner((), 0xA3, elements);
    assert parts[0] == channel && parts[1] == configure && parts[2] == m && parts[|parts| - 1] == e;
    assert keys.Some? ==> parts[3] == keys.value;
    assert forall i :: 0 <= i < |parts| ==> Fits(parts[i]) && ReadableTlv(parts[i]);
  }

  /** What is planned behind the first slice. */
  lemma PlanOfBody(channel: Tree, configure: Tree, metadata: Forest, keys: Option<Tree>, elements: Forest)
    requires var p := PackageOf(channel, configure, metadata, keys, elements);
             Fits(p) && ReadableTlv(p) && Plain(metadata) && Plain(elements)
    requires IsTagged(channel, 0xBF23) && IsTagged(configure, 0xA0) && (keys.Some? ==> IsTagged(keys.value, 0xA2))
    ensures var parts := PartsOf(channel, configure, metadata, keys, elements);
            var m, e := Inner((), 0xA1, metadata), Inner((), 0xA3, elements);
            && FitsAll(parts) && FitsAll(metadata) && FitsAll(elements)
            && Fits(m) && Fits(e) && Fits(configure) && (keys.Some? ==> Fits(keys.value))
            && PlanConfigure(EncAll(parts))
               == Plan([Enc(configure)]
                       + (([Head(m)] + Encodings(metadata))
                          + ((if keys.Some? then [Enc(keys.value)] else []) + ([Head(e)] + Encodings(elements)))), true)
  {
    hide Find, ReadHeader, EncAll, Enc, Head, Content, Fits, FitsAll, ReadableAll, ReadableTlv, Walk, Kids, WholeOf,
         HeadOf, ValueOf, Encodings, Plain, IsFirst, Lacks;
    PartsFit(channel, configure, metadata, keys, elements);
    var parts := PartsOf(channel, configure, metadata, keys, elements);
    var rest := [Head(Inner((), 0xA3, elements))] + Encodings(elements);
    FoundEncoded(parts, 0xA0, 1);
    FoundEncoded(parts, 0xA1, 2);
    FoundEncoded(parts, 0xA3, |parts| - 1);
    KidsEncoded(metadata);
    KidsEncoded(elements);
    assert PlanElements(EncAll(parts)) == Plan(rest, true);
    if keys.Some? {
      FoundEncoded(parts, 0xA2, 3);
    } else {
      NotEncoded(parts, 0xA2);
      assert [] + rest == rest;
    }
  }

  lemma Alone(p: Tree)
    requires Fits(p) && ReadableTlv(p) && p.Inner? && p.tag == 0xBF36
    ensures FitsAll([p]) && ReadableAll([p]) && Plain([p]) && IsFirst([p], 0xBF36, 0)
    ensures [p][..0] == [] && |EncAll([p][..0])| == 0 && EncAll([p]) == Enc(p) && Content(p) == EncAll(p.kids)
  {
    hide Head, Enc, Readable;
    assert Init([p]) == [];
  }

  lemma PlanOfPackage(p: Tree, channel: Tree, parts: Forest)
    requires Fits(p) && ReadableTlv(p) && p == Inner((), 0xBF36, parts) && parts != [] && parts[0] == channel
    requires FitsAll(parts) && ReadableAll(parts) && Plain(parts) && IsFirst(parts, 0xBF23, 0) && Fits(channel)
    ensures FitsAll([p])
    ensures PlanOf(EncAll([p])) == Before([Head(p) + Enc(channel)], PlanConfigure(EncAll(parts)))
  {
    hide Find, ReadHeader, Head, Enc, EncAll, Content, Fits, FitsAll, ReadableAll, ReadableTlv, WholeOf, HeadOf, Plain,
         IsFirst, PlanConfigure;
    Alone(p);
    FoundEncoded([p], 0xBF36, 0);
    FoundEncoded(parts, 0xBF23, 0);
    KidsFit(p);
    NothingBefore(parts);
    var b, v := EncAll([p]), EncAll(parts);
    var r, c := Find(b, [0xBF36]).value, Find(v, [0xBF23]).value;
    Lengths(b, r);
    Lengths(v, c);
    CutAcross(b, Head(p), v, c.1.size + c.1.length);
  }

  lemma CutAcross(b: seq<byte>, head: seq<byte>, v: seq<byte>, n: nat)
    requires b == head + v && n <= |v|
    ensures b[0..|head| + n] == head + v[0..n]
  {
  }

  lemma NothingBefore(f: Forest)
    requires FitsAll(f)
    ensures |EncAll(f[..0])| == 0
  {
  }

  lemma Lengths(b: seq<byte>, r: (nat, Header))
    requires r.0 <= |b| && ReadHeader(b[r.0..]) == Some(r.1)
    ensures |HeadOf(b, r)| == r.1.size && |WholeOf(b, r)| == r.1.size + r.1.length
    ensures WholeOf(b, r) == b[r.0..r.0 + r.1.size + r.1.length]
  {
    hide ReadHeader;
  }

  // ---- Which answers are successes

  /** The tags whose contents are looked into: section 5.7.6 of SGP.22. */
  function AnswerDeep(tag: nat): bool {
    tag == 0xBF37 || tag == 0xBF27 || tag == 0xA2
  }

  /** An answer read as a tree. */
  predicate IsAnswer(f: Forest) {
    FitsAll(f) && TypedAll(AnswerDeep, f)
  }

  /** The contents of the first element with the tag. */
  function Inside(f: Forest, tag: nat): (kids: Option<Forest>)
    decreases f
  {
    if f == [] then None
    else if f[0].Inner? && f[0].tag == tag then Some(f[0].kids)
    else Inside(f[1..], tag)
  }

  predicate Has(f: Forest, tag: nat) {
    exists i :: 0 <= i < |f| && !f[i].Raw? && f[i].tag == tag
  }

  /**
   * The answer is empty, or a profile installation result whose data names its notification and
   * whose final result is, first of all, a success.
   */
  predicate SaysSuccess(f: Forest) {
    f == [] ||
    var result := Inside(f, 0xBF37);
    result.Some? &&
    var data := Inside(result.value, 0xBF27);
    data.Some? && Has(data.value, 0xBF2F) &&
    var final := Inside(data.value, 0xA2);
    final.Some? && final.value != [] && !final.value[0].Raw? && final.value[0].tag == 0xA0
  }

  lemma AnswerParts(f: Forest)
    requires IsAnswer(f)
    ensures ReadableAll(f) && Plain(f)
    ensures forall i :: 0 <= i < |f| && AnswerDeep(f[i].tag) ==> f[i].Inner? && IsAnswer(f[i].kids)
  {
    hide Readable;
    TypedIsReadable(AnswerDeep, f);
    forall i | 0 <= i < |f|
      ensures !f[i].Raw? && (AnswerDeep(f[i].tag) ==> f[i].Inner? && IsAnswer(f[i].kids))
    {
      assert Typed(AnswerDeep, f[i]) && Fits(f[i]);
    }
  }

  /** What Inside gives is the content of the first element with the tag, and that is what the search finds. */
  lemma InsideIsFirst(f: Forest, tag: nat) returns (i: nat)
    requires IsAnswer(f) && AnswerDeep(tag)
    ensures Inside(f, tag).None? ==> Lacks(f, tag)
    ensures Inside(f, tag).Some? ==> IsFirst(f, tag, i) && f[i].Inner? && Inside(f, tag).value == f[i].kids
                                     && IsAnswer(f[i].kids)
    decreases |f|
  {
    AnswerParts(f);
    hide IsAnswer, AnswerDeep;
    i := 0;
    if f != [] && !(f[0].Inner? && f[0].tag == tag) {
      Later(f);
      i := InsideIsFirst(f[1..], tag);
      i := i + 1;
    }
  }

  lemma Later(f: Forest)
    requires IsAnswer(f) && f != []
    ensures IsAnswer(f[1..])
  {
  }

  lemma InsideIsFound(f: Forest, tag: nat)
    requires IsAnswer(f) && AnswerDeep(tag)
    ensures Find(EncAll(f), [tag]).Some? <==> Inside(f, tag).Some?
    ensures Inside(f, tag).Some? ==>
              && IsAnswer(Inside(f, tag).value)
              && ValueOf(EncAll(f), Find(EncAll(f), [tag]).value) == EncAll(Inside(f, tag).value)
  {
    hide Find, EncAll, IsAnswer, AnswerDeep, ReadableAll, Enc, Head, WholeOf, HeadOf, ValueOf, Inside;
    AnswerFits(f);
    AnswerParts(f);
    var i := InsideIsFirst(f, tag);
    if Inside(f, tag).Some? {
      FoundEncoded(f, tag, i);
      AnswerFits(f[i].kids);
    } else {
      NotEncoded(f, tag);
    }
  }

  lemma AnswerFits(f: Forest)
    requires IsAnswer(f)
    ensures FitsAll(f)
  {
  }

  lemma HasIsFound(f: Forest, tag: nat)
    requires IsAnswer(f)
    ensures FitsAll(f) && (Find(EncAll(f), [tag]).Some? <==> Has(f, tag))
  {
    hide Find, EncAll, IsAnswer, ReadableAll, Enc, Head, WholeOf, HeadOf, ValueOf;
    AnswerFits(f);
    AnswerParts(f);
    if Has(f, tag) {
      var k :| 0 <= k < |f| && !f[k].Raw? && f[k].tag == tag;
      var i := Earliest(f, tag, k);
      FoundEncoded(f, tag, i);
    } else {
      NotEncoded(f, tag);
    }
  }

  lemma {:induction false} Earliest(f: Forest, tag: nat, k: nat) returns (i: nat)
    requires Plain(f) && k < |f| && f[k].tag == tag
    ensures IsFirst(f, tag, i)
    decreases k
  {
    if j :| 0 <= j < k && f[j].tag == tag {
      i := Earliest(f, tag, j);
    } else {
      i := k;
    }
  }

  /** The first header of an encoding is that of its first element. */
  lemma FirstHeader(f: Forest)
    requires IsAnswer(f)
    ensures FitsAll(f) && (f == [] <==> ReadHeader(EncAll(f)).None?) && (f == [] <==> EncAll(f) == [])
    ensures f != [] ==> !f[0].Raw? && ReadHeader(EncAll(f)).Some? && ReadHeader(EncAll(f)).value.tag == f[0].tag
  {
    hide ReadHeader, EncAll, Enc, Head, Content, Fits, FirstTv;
    AnswerParts(f);
    WalkEncoded(f);
    SiblingsAre(f);
    if f == [] {
      NothingEncoded(f);
    } else {
      assert Walk(EncAll(f))[0] == FirstTv(EncAll(f));
      FirstTag(EncAll(f));
    }
  }

  lemma NothingEncoded(f: Forest)
    requires FitsAll(f) && f == []
    ensures EncAll(f) == [] && ReadHeader([]).None?
  {
  }

  lemma FirstTag(b: seq<byte>)
    requires ReadHeader(b).Some?
    ensures FirstTv(b).tag == ReadHeader(b).value.tag
  {
  }

  /** Whatever else an answer holds, it lets the load go on exactly when it says success. */
  lemma AnswerOkExactly(f: Forest)
    requires IsAnswer(f)
    ensures FitsAll(f) && (AnswerOk(EncAll(f)) <==> SaysSuccess(f))
  {
    hide Find, EncAll, IsAnswer, Inside, Has, ReadHeader, WholeOf, HeadOf, ValueOf;
    FirstHeader(f);
    InsideIsFound(f, 0xBF37);
    var result := Inside(f, 0xBF37);
    if result.Some? {
      AnswerFits(result.value);
      InsideIsFound(result.value, 0xBF27);
      var data := Inside(result.value, 0xBF27);
      if data.Some? {
        AnswerFits(data.value);
        HasIsFound(data.value, 0xBF2F);
        InsideIsFound(data.value, 0xA2);
        var final := Inside(data.value, 0xA2);
        if final.Some? {
          AnswerFits(final.value);
          FirstHeader(final.value);
        }
      }
    }
  }

  /** A final result. */
  function Report(notification: seq<byte>, tag: nat, content: seq<byte>): Forest {
    [Inner((), 0xBF37, [Inner((), 0xBF27, [Leaf((), 0xBF2F, notification),
                                           Inner((), 0xA2, [Leaf((), tag, content)])])])]
  }

  /** A report lets the load go on exactly when its final result has the tag of a success, whatever its contents. */
  lemma ReportDecides(notification: seq<byte>, tag: nat, content: seq<byte>)
    requires IsAnswer(Report(notification, tag, content))
    ensures AnswerOk(EncAll(Report(notification, tag, content))) <==> tag == 0xA0
  {
    hide AnswerOk, EncAll, FitsAll, TypedAll;
    AnswerOkExactly(Report(notification, tag, content));
    var data := Report(notification, tag, content)[0].kids[0].kids;
    assert data[0].tag == 0xBF2F && data[1..] == [data[1]];
    assert Inside(data[1..], 0xA2) == Some(data[1].kids);
  }

  // ---- What a load comes to

  /** What the script has left when the first i slices have been sent. */
  function LeftAfter(channel: nat, mss: nat, slices: seq<seq<byte>>, script: Script, i: nat): Script
    requires 1 <= mss <= BODY && i <= |slices|
  {
    SendAll(channel, mss, slices[..i], script).rest
  }

  function Constantly(answer: seq<byte>): (F: seq<byte> -> seq<byte>)
    ensures forall req :: F(req) == answer
  {
    (req: seq<byte>) => answer
  }

  /** A card that follows the protocol answers the i-th slice with these octets, if it is sent. */
  ghost predicate AnswersSlice(channel: nat, mss: nat, slices: seq<seq<byte>>, script: Script, i: nat,
                               answer: seq<byte>)
    requires 1 <= mss <= BODY && i < |slices|
  {
    var left := LeftAfter(channel, mss, slices, script, i);
    SendAll(channel, mss, slices[..i], script).ok ==>
      && slices[i] != []
      && TransportFacts.Honest(Constantly(answer), TransportFacts.Card(channel, [], [], 0),
                               CommandRun(channel, mss, 0, slices[i], left).sent, left)
      && |left| >= TransportFacts.Segments(mss, slices[i]) + |answer|
  }

  /** When the card follows the protocol, all slices go through exactly when all its answers say success. */
  lemma {:induction false} SlicesSucceedExactly(channel: nat, mss: nat, slices: seq<seq<byte>>, answers: seq<Forest>,
                                                script: Script, n: nat)
    requires 1 <= mss <= BODY && |answers| == |slices| && n <= |slices|
    requires forall i :: 0 <= i < |slices| ==>
               IsAnswer(answers[i]) && AnswersSlice(channel, mss, slices, script, i, EncAll(answers[i]))
    ensures SendAll(channel, mss, slices[..n], script).ok <==> forall i :: 0 <= i < n ==> SaysSuccess(answers[i])
  {
    hide SendAll, AnswersSlice, AnswerOk, SaysSuccess, IsAnswer, EncAll;
    if n == 0 {
      assert slices[..0] == [];
      NothingSends(channel, mss, script);
    } else {
      SlicesSucceedExactly(channel, mss, slices, answers, script, n - 1);
      AnswerOkExactly(answers[n - 1]);
      SliceJudged(channel, mss, slices, script, n - 1, EncAll(answers[n - 1]));
    }
  }

  lemma NothingSends(channel: nat, mss: nat, script: Script)
    requires 1 <= mss <= BODY
    ensures SendAll(channel, mss, [], script).ok
  {
  }

  lemma SliceJudged(channel: nat, mss: nat, slices: seq<seq<byte>>, script: Script, i: nat, answer: seq<byte>)
    requires 1 <= mss <= BODY && i < |slices| && AnswersSlice(channel, mss, slices, script, i, answer)
    ensures SendAll(channel, mss, slices[..i + 1], script).ok
       <==> SendAll(channel, mss, slices[..i], script).ok && AnswerOk(answer)
  {
    hide CommandRun, AnswerOk, Constantly, TransportFacts.Honest, TransportFacts.Segments;
    PrefixStep(slices, i);
    var front := SendAll(channel, mss, slices[..i], script);
    if front.ok {
      TransportFacts.Transparent(Constantly(answer), channel, mss, slices[i], front.rest);
    }
  }

  /** So a load of a whole plan returns 0 exactly when every part was found and every answer says success. */
  lemma LoadSucceedsExactly(ctx: Ctx, ret: int, plan: Plan, answers: seq<Forest>, script: Script, sent: seq<seq<byte>>)
    requires ctx.Valid() && Loaded(ctx, ret, plan, script, sent) && |answers| == |plan.slices|
    requires forall i :: 0 <= i < |plan.slices| ==>
               && IsAnswer(answers[i])
               && AnswersSlice(ctx.logicChannel, ctx.mss, plan.slices, script, i, EncAll(answers[i]))
    ensures ret == 0 <==> plan.complete && forall i :: 0 <= i < |answers| ==> SaysSuccess(answers[i])
  {
    hide SendAll, SaysSuccess, IsAnswer, AnswersSlice;
    SlicesSucceedExactly(ctx.logicChannel, ctx.mss, plan.slices, answers, script, |plan.slices|);
    assert plan.slices[..|plan.slices|] == plan.slices;
  }
}
