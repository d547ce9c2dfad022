/**
 * lpac/euicc/derutil.c over its own data: node objects linked by child and
 * next, three passes that fill them in place, and an output buffer.
 */
module DerUtil {
  import opened Bytes
  import opened Der

  /** A C pointer into a block of octets. */
  datatype Ptr = Null | At(mem: array<byte>, off: nat)

  class Node {
    var tag: nat
    var length: nat
    var value: Ptr
    var selfPtr: Ptr
    var selfLength: nat
    var headless: bool
    var relativeOffset: nat
    var child: Node?
    var next: Node?

    constructor ()
      ensures tag == 0 && length == 0 && value == Null && selfPtr == Null && selfLength == 0
      ensures !headless && relativeOffset == 0 && child == null && next == null
    {
      tag, length, value, selfPtr, selfLength := 0, 0, Null, Null, 0;
      headless, relativeOffset, child, next := false, 0, null, null;
    }
  }

  type Tree = Tlv<()>
  type Forest = seq<Tree>

  /**
   * An element of a forest as the passes meet it: the element, how far from
   * the start of the encoding its octets begin, and whether a sibling follows.
   */
  datatype Entry = Entry(t: Tree, at: nat, more: bool)

  function Count(t: Tree): (n: nat)
    ensures n >= 1
    decreases t, 0
  {
    1 + if t.Inner? then CountAll(t.kids) else 0
  }

  function CountAll(f: Forest): nat
    decreases f, 1
  {
    if f == [] then 0 else CountAll(Init(f)) + Count(Last(f))
  }

  /** The elements of t, itself first, in the order of their octets. */
  function Flat(t: Tree, at: nat, more: bool): (es: seq<Entry>)
    requires Fits(t)
    ensures |es| == Count(t) && es[0] == Entry(t, at, more)
    decreases t, 0
  {
    [Entry(t, at, more)] + if t.Inner? then Row(t.kids, at + |Head(t)|, false) else []
  }

  function Row(f: Forest, at: nat, more: bool): (es: seq<Entry>)
    requires FitsAll(f)
    ensures |es| == CountAll(f)
    decreases f, 1
  {
    if f == [] then []
    else Row(Init(f), at, true) + Flat(Last(f), at + |EncAll(Init(f))|, more)
  }

  lemma CountStep(f: Forest, i: nat)
    requires i < |f|
    ensures CountAll(f[..i + 1]) == CountAll(f[..i]) + Count(f[i])
  {
    hide Count;
    PrefixStep(f, i);
  }

  lemma RowStep(f: Forest, at: nat, more: bool)
    requires FitsAll(f) && f != []
    ensures Row(f, at, more) == Row(Init(f), at, true) + Flat(Last(f), at + |EncAll(Init(f))|, more)
    ensures CountAll(f) == CountAll(Init(f)) + Count(Last(f))
  {
    hide Flat, EncAll, Count;
  }

  /** Where f[i] and what is below it stand in the row of f. */
  lemma {:induction false} RowAt(f: Forest, at: nat, more: bool, i: nat)
    requires FitsAll(f) && i < |f|
    ensures CountAll(f[..i + 1]) == CountAll(f[..i]) + Count(f[i]) <= CountAll(f)
    ensures Row(f, at, more)[CountAll(f[..i])..CountAll(f[..i + 1])]
         == Flat(f[i], at + |EncAll(f[..i])|, i + 1 < |f| || more)
    decreases |f|
  {
    hide Row, Flat, Fits, EncAll, Count, CountAll;
    CountStep(f, i);
    RowStep(f, at, more);
    var front := Init(f);
    if i + 1 == |f| {
      assert f[..i + 1] == f && f[..i] == front;
    } else {
      assert front[..i] == f[..i] && front[..i + 1] == f[..i + 1];
      RowAt(front, at, true, i);
    }
  }

  lemma EmptyPrefix(f: Forest)
    ensures CountAll(f[..0]) == 0 && EncAll(f[..0]) == []
  {
  }

  /** plan has the row of f at position p. */
  ghost predicate RowIn(plan: seq<Entry>, p: nat, f: Forest, at: nat, more: bool)
    requires FitsAll(f)
  {
    p + CountAll(f) <= |plan| && plan[p..p + CountAll(f)] == Row(f, at, more)
  }

  ghost predicate FlatIn(plan: seq<Entry>, p: nat, t: Tree, at: nat, more: bool)
    requires Fits(t)
  {
    p + Count(t) <= |plan| && plan[p..p + Count(t)] == Flat(t, at, more)
  }

  lemma RowFits(plan: seq<Entry>, p: nat, f: Forest, at: nat, more: bool)
    requires FitsAll(f) && RowIn(plan, p, f, at, more)
    ensures p + CountAll(f) <= |plan|
  {
  }

  lemma FlatInRow(plan: seq<Entry>, p: nat, f: Forest, at: nat, more: bool, i: nat)
    requires FitsAll(f) && i < |f| && RowIn(plan, p, f, at, more)
    ensures CountAll(f[..i + 1]) == CountAll(f[..i]) + Count(f[i]) <= CountAll(f)
    ensures FlatIn(plan, p + CountAll(f[..i]), f[i], at + |EncAll(f[..i])|, i + 1 < |f| || more)
    ensures plan[p + CountAll(f[..i])] == Entry(f[i], at + |EncAll(f[..i])|, i + 1 < |f| || more)
  {
    hide Row, Flat, Fits, EncAll, Count, CountAll;
    RowAt(f, at, more, i);
    var a, b := CountAll(f[..i]), CountAll(f[..i + 1]);
    assert plan[p + a..p + b] == plan[p..p + CountAll(f)][a..b];
    assert plan[p + a] == plan[p + a..p + b][0];
  }

  lemma KidsOf(t: Tree, at: nat, more: bool)
    requires Fits(t)
    ensures t.Inner? && t.kids != [] <==> Count(t) >= 2
    ensures t.Inner? ==> FitsAll(t.kids) && Count(t) == 1 + CountAll(t.kids)
    ensures t.Inner? ==> Flat(t, at, more)[1..] == Row(t.kids, at + |Head(t)|, false)
  {
    hide Row, Head, EncAll;
  }

  lemma RowInFlat(plan: seq<Entry>, p: nat, t: Tree, at: nat, more: bool)
    requires Fits(t) && FlatIn(plan, p, t, at, more)
    ensures plan[p] == Entry(t, at, more)
    ensures t.Inner? ==> FitsAll(t.kids) && Count(t) == 1 + CountAll(t.kids)
    ensures t.Inner? ==> RowIn(plan, p + 1, t.kids, at + |Head(t)|, false)
    ensures t.Inner? && t.kids != [] <==> Count(t) >= 2
    ensures p + Count(t) <= |plan|
  {
    hide Row, Flat, Head, EncAll, Count, CountAll, Fits;
    KidsOf(t, at, more);
    assert plan[p] == plan[p..p + Count(t)][0];
    assert plan[p + 1..p + Count(t)] == plan[p..p + Count(t)][1..];
  }

  lemma {:induction false} CountPrefix(f: Forest, i: nat)
    requires i <= |f|
    ensures i < |f| ==> CountAll(f[..i]) < CountAll(f)
    ensures i == |f| ==> CountAll(f[..i]) == CountAll(f)
    decreases |f| - i
  {
    if i < |f| {
      CountStep(f, i);
      CountPrefix(f, i + 1);
    } else {
      assert f[..i] == f;
    }
  }

  function NodeAt(ns: seq<Node>, i: nat): Node? {
    if i < |ns| then ns[i] else null
  }

  lemma AtNode(ns: seq<Node>, i: nat)
    ensures i < |ns| ==> NodeAt(ns, i) == ns[i]
  {
  }

  /**
   * A forest over node objects: the k-th object carries the k-th entry, and
   * position tells the objects apart.
   */
  datatype Layout = Layout(nodes: seq<Node>, entries: seq<Entry>, position: map<Node, nat>)

  ghost predicate Laid(l: Layout) {
    && |l.nodes| == |l.entries|
    && forall k :: 0 <= k < |l.nodes| ==> l.nodes[k] in l.position && l.position[l.nodes[k]] == k
  }

  predicate Childless(t: Tree) {
    t.Inner? ==> t.kids == []
  }

  /** n, the k-th object, carries the element e and names its first child and next sibling. */
  ghost predicate Linked(n: Node, ns: seq<Node>, e: Entry, k: nat)
    reads n`tag, n`headless, n`child, n`next
  {
    && n.headless == e.t.Raw?
    && (!e.t.Raw? ==> n.tag == e.t.tag)
    && n.child == (if Childless(e.t) then null else NodeAt(ns, k + 1))
    && n.next == (if e.more then NodeAt(ns, k + Count(e.t)) else null)
  }

  lemma LinkedFields(n: Node, ns: seq<Node>, e: Entry, k: nat)
    requires Linked(n, ns, e, k)
    ensures n.next == if e.more then NodeAt(ns, k + Count(e.t)) else null
    ensures n.child == if Childless(e.t) then null else NodeAt(ns, k + 1)
    ensures n.headless == e.t.Raw? && (!e.t.Raw? ==> n.tag == e.t.tag)
  {
  }

  /** The i-th node of a row: what is below it, where its encoding ends, and the node after it. */
  lemma NextInRow(n: Node, l: Layout, p: nat, f: Forest, at: nat, i: nat)
    requires Laid(l) && FitsAll(f) && i < |f| && RowIn(l.entries, p, f, at, false)
    requires p + CountAll(f[..i]) < |l.nodes|
    requires var q := p + CountAll(f[..i]);
             n == l.nodes[q] && Linked(n, l.nodes, l.entries[q], q)
    ensures var q, r := p + CountAll(f[..i]), p + CountAll(f[..i + 1]);
            && r == q + Count(f[i]) <= p + CountAll(f) <= |l.nodes| && (i + 1 < |f| ==> r < p + CountAll(f))
            && l.entries[q] == Entry(f[i], at + |EncAll(f[..i])|, i + 1 < |f|)
            && FlatIn(l.entries, q, f[i], at + |EncAll(f[..i])|, i + 1 < |f|)
            && n.next == if i + 1 < |f| then l.nodes[r] else null
    ensures EncAll(f[..i + 1]) == EncAll(f[..i]) + Enc(f[i]) && |EncAll(f[..i + 1])| <= |EncAll(f)|
  {
    hide Enc, EncAll, Count, CountAll, Row, Flat, RowIn, FlatIn, Linked, NodeAt;
    var q := p + CountAll(f[..i]);
    EncAllStep(f, i);
    EncAllPrefix(f, i + 1);
    RowFits(l.entries, p, f, at, false);
    FlatInRow(l.entries, p, f, at, false, i);
    CountPrefix(f, i + 1);
    AtNode(l.nodes, q + Count(f[i]));
    LinkedFields(n, l.nodes, l.entries[q], q);
  }

  /** Before packing: nodes without a child carry their content's length. */
  ghost predicate LeafLength(n: Node, t: Tree)
    reads n`length
  {
    Childless(t) ==> Fits(t) && n.length == |Content(t)|
  }

  /** After the size pass: length and self.length are what the encoding takes. */
  ghost predicate Sized(n: Node, t: Tree)
    reads n`length, n`selfLength
  {
    Fits(t) && n.length == |Content(t)| && n.selfLength == |Enc(t)|
  }

  /** The loop both header steps use to count length octets: lpac/euicc/derutil.c:115-120, 186-191. */
  method OctetsOf(length: nat) returns (lengthlen: nat)
    requires length != 0
    ensures lengthlen == |BigEndian(length)|
  {
    var rest := length;
    lengthlen := 0;
    while rest != 0
      invariant lengthlen + (if rest == 0 then 0 else |BigEndian(rest)|) == |BigEndian(length)|
    {
      rest := rest / 256;
      lengthlen := lengthlen + 1;
    }
  }

  /** lpac/euicc/derutil.c:98-125 */
  method SizeofSingleNode(node: Node, ghost t: Tree)
    requires Fits(t) && |Enc(t)| < TWO_32
    requires node.headless == t.Raw? && (!t.Raw? ==> node.tag == t.tag) && node.length == |Content(t)|
    modifies node`selfLength
    ensures Sized(node, t)
  {
    hide Content, EncAll;
    node.selfLength := 0;
    if node.headless {
      node.selfLength := node.length;
      return;
    }
    if node.tag / 256 != 0 {
      node.selfLength := node.selfLength + 2;
    } else {
      node.selfLength := node.selfLength + 1;
    }
    if node.length < 0x80 {
      node.selfLength := node.selfLength + 1;
    } else {
      var lengthlen := OctetsOf(node.length);
      node.selfLength := node.selfLength + 1 + lengthlen;
    }
    node.selfLength := U32(node.selfLength + node.length);
  }

  lemma InnerContent(t: Tree)
    requires Fits(t) && !Childless(t)
    ensures FitsAll(t.kids) && Content(t) == EncAll(t.kids) && |EncAll(t.kids)| < TWO_32
  {
  }

  /** The size pass over one node and what is below it: lpac/euicc/derutil.c:133-140. */
  method SizeNode(n: Node, offset: nat, ghost l: Layout, ghost p: nat, ghost t: Tree, ghost at: nat, ghost more: bool)
    requires Laid(l)
    requires Fits(t) && |Enc(t)| < TWO_32 && FlatIn(l.entries, p, t, at, more) && n == l.nodes[p]
    requires forall k :: p <= k < p + Count(t) ==>
               Linked(l.nodes[k], l.nodes, l.entries[k], k) && LeafLength(l.nodes[k], l.entries[k].t)
    modifies l.position.Keys`length, l.position.Keys`selfLength, l.position.Keys`relativeOffset
    ensures forall k :: p <= k < p + Count(t) ==> Sized(l.nodes[k], l.entries[k].t)
    ensures forall k :: 0 <= k < |l.nodes| && !(p <= k < p + Count(t)) ==>
              l.nodes[k].length == old(l.nodes[k].length) && l.nodes[k].selfLength == old(l.nodes[k].selfLength)
    decreases t, 0
  {
    hide Enc, Head, Content, EncAll, Fits, Count, CountAll, Row, Flat, RowIn, FlatIn, Linked, NodeAt;
    RowInFlat(l.entries, p, t, at, more);
    LinkedFields(n, l.nodes, l.entries[p], p);
    AtNode(l.nodes, p + 1);
    assert LeafLength(n, t);
    n.relativeOffset := offset;
    if n.child != null {
      InnerContent(t);
      n.length := 0;
      var _ := SizePass(n.child, n, offset, l, p + 1, t.kids, at + |Head(t)|);
    }
    assert forall k :: p < k < p + Count(t) ==> Sized(l.nodes[k], l.entries[k].t);
    SizeofSingleNode(n, t);
    assert forall k :: p < k < p + Count(t) ==> l.nodes[k] != n;
  }

  /** lpac/euicc/derutil.c:127-152 */
  method SizePass(node: Node?, parent: Node?, relativeOffset: nat, ghost l: Layout, ghost p: nat,
                  ghost f: Forest, ghost at: nat) returns (fullSize: nat)
    requires Laid(l)
    requires FitsAll(f) && |EncAll(f)| < TWO_32 && RowIn(l.entries, p, f, at, false)
    requires node == if f == [] then null else NodeAt(l.nodes, p)
    requires forall k :: p <= k < p + CountAll(f) ==>
               Linked(l.nodes[k], l.nodes, l.entries[k], k) && LeafLength(l.nodes[k], l.entries[k].t)
    requires parent != null ==> 0 < p <= |l.nodes| && parent == l.nodes[p - 1] && parent.length == 0
    modifies l.position.Keys`length, l.position.Keys`selfLength, l.position.Keys`relativeOffset
    ensures fullSize == |EncAll(f)|
    ensures parent != null ==> parent.length == |EncAll(f)|
    ensures forall k :: p <= k < p + CountAll(f) ==> Sized(l.nodes[k], l.entries[k].t)
    ensures forall k :: 0 <= k < |l.nodes| && !(p <= k < p + CountAll(f)) ==>
              && (l.nodes[k] != parent ==> l.nodes[k].length == old(l.nodes[k].length))
              && l.nodes[k].selfLength == old(l.nodes[k].selfLength)
    decreases f, 1
  {
    hide Enc, Head, Content, EncAll, Fits, Count, CountAll, Row, Flat, RowIn, FlatIn, Linked, Childless, NodeAt;
    EmptyPrefix(f);
    CountPrefix(f, 0);
    RowFits(l.entries, p, f, at, false);
    AtNode(l.nodes, p);
    fullSize := 0;
    var n: Node?, offset: nat := node, relativeOffset;
    ghost var i, q := 0, p;
    while n != null
      invariant 0 <= i <= |f| && q == p + CountAll(f[..i]) <= p + CountAll(f)
      invariant if i == |f| then n == null else q < p + CountAll(f) && n == l.nodes[q]
      invariant fullSize == |EncAll(f[..i])|
      invariant parent != null ==> parent.length == |EncAll(f[..i])|
      invariant forall k :: p <= k < q ==> Sized(l.nodes[k], l.entries[k].t)
      invariant forall k :: q <= k < p + CountAll(f) ==> LeafLength(l.nodes[k], l.entries[k].t)
      invariant forall k :: 0 <= k < |l.nodes| && !(p <= k < p + CountAll(f)) ==>
                  && (l.nodes[k] != parent ==> l.nodes[k].length == old(l.nodes[k].length))
                  && l.nodes[k].selfLength == old(l.nodes[k].selfLength)
      decreases |f| - i
    {
      NextInRow(n, l, p, f, at, i);
      SizeNode(n, offset, l, q, f[i], at + |EncAll(f[..i])|, i + 1 < |f|);
      if parent != null {
        parent.length := U32(parent.length + n.selfLength);
      }
      offset := U32(offset + n.selfLength);
      fullSize := U32(fullSize + n.selfLength);
      n := n.next;
      i, q := i + 1, q + Count(f[i]);
    }
    assert f[..i] == f;
  }

  /** The pointer pass over one node and what is below it: lpac/euicc/derutil.c:156-160. */
  method PtrNode(n: Node, buffer: array<byte>, wptr: nat, ghost l: Layout, ghost p: nat,
                 ghost t: Tree, ghost at: nat, ghost more: bool, ghost base: nat)
    requires Laid(l)
    requires Fits(t) && FlatIn(l.entries, p, t, at, more) && n == l.nodes[p] && wptr == base + at
    requires forall k :: p <= k < p + Count(t) ==>
               Linked(l.nodes[k], l.nodes, l.entries[k], k) && Sized(l.nodes[k], l.entries[k].t)
    modifies l.position.Keys`selfPtr
    ensures forall k :: p <= k < p + Count(t) ==> l.nodes[k].selfPtr == At(buffer, base + l.entries[k].at)
    ensures forall k :: 0 <= k < |l.nodes| && !(p <= k < p + Count(t)) ==> l.nodes[k].selfPtr == old(l.nodes[k].selfPtr)
    decreases t, 0
  {
    hide Head, Content, EncAll, Fits, Count, CountAll, Row, Flat, RowIn, FlatIn, Linked, NodeAt;
    RowInFlat(l.entries, p, t, at, more);
    LinkedFields(n, l.nodes, l.entries[p], p);
    AtNode(l.nodes, p + 1);
    assert Sized(n, t);
    n.selfPtr := At(buffer, wptr);
    if n.child != null {
      PtrPass(n.child, buffer, wptr + n.selfLength - n.length, l, p + 1, t.kids, at + |Head(t)|, base);
    }
  }

  /** lpac/euicc/derutil.c:154-165 */
  method PtrPass(node: Node?, buffer: array<byte>, start: nat, ghost l: Layout, ghost p: nat,
                 ghost f: Forest, ghost at: nat, ghost base: nat)
    requires Laid(l)
    requires FitsAll(f) && RowIn(l.entries, p, f, at, false) && start == base + at
    requires node == if f == [] then null else NodeAt(l.nodes, p)
    requires forall k :: p <= k < p + CountAll(f) ==>
               Linked(l.nodes[k], l.nodes, l.entries[k], k) && Sized(l.nodes[k], l.entries[k].t)
    modifies l.position.Keys`selfPtr
    ensures forall k :: p <= k < p + CountAll(f) ==> l.nodes[k].selfPtr == At(buffer, base + l.entries[k].at)
    ensures forall k :: 0 <= k < |l.nodes| && !(p <= k < p + CountAll(f)) ==>
              l.nodes[k].selfPtr == old(l.nodes[k].selfPtr)
    decreases f, 1
  {
    hide Enc, Head, Content, EncAll, Fits, Count, CountAll, Row, Flat, RowIn, FlatIn, Linked, Childless, NodeAt;
    EmptyPrefix(f);
    CountPrefix(f, 0);
    RowFits(l.entries, p, f, at, false);
    AtNode(l.nodes, p);
    var n: Node?, wptr: nat := node, start;
    ghost var i, q := 0, p;
    while n != null
      invariant 0 <= i <= |f| && q == p + CountAll(f[..i]) <= p + CountAll(f)
      invariant if i == |f| then n == null else q < p + CountAll(f) && n == l.nodes[q]
      invariant wptr == start + |EncAll(f[..i])|
      invariant forall k :: p <= k < q ==> l.nodes[k].selfPtr == At(buffer, base + l.entries[k].at)
      invariant forall k :: 0 <= k < |l.nodes| && !(p <= k < p + CountAll(f)) ==>
              l.nodes[k].selfPtr == old(l.nodes[k].selfPtr)
      decreases |f| - i
    {
      NextInRow(n, l, p, f, at, i);
      PtrNode(n, buffer, wptr, l, q, f[i], at + |EncAll(f[..i])|, i + 1 < |f|, base);
      wptr := wptr + n.selfLength;
      n := n.next;
      i, q := i + 1, q + Count(f[i]);
    }
    assert f[..i] == f;
  }

  /**
   * Where the octets of a node without a child come from: a block other than
   * the output buffer, or nowhere when there are none.
   */
  ghost predicate Sourced(src: Ptr, t: Tree, buffer: array<byte>)
    reads if src.At? then {src.mem} else {}
  {
    Fits(t) && Childless(t) ==>
      if src.Null? then !t.Raw? && Content(t) == []
      else src.mem != buffer && src.off + |Content(t)| <= src.mem.Length
           && src.mem[src.off..src.off + |Content(t)|] == Content(t)
  }

  /** Where value points after packing: to the source if there was one, else into the buffer. */
  function FinalValue(src: Ptr, t: Tree, buffer: array<byte>, o: nat): Ptr
    requires Fits(t)
  {
    if Childless(t) && src.At? then src else At(buffer, o + |Head(t)|)
  }

  /** What the copy step of one node writes: all of a node without a child, the header of any other. */
  function Written(t: Tree): seq<byte>
    requires Fits(t)
  {
    if Childless(t) then Enc(t) else Head(t)
  }

  lemma HeadOctets(t: Tree)
    requires Fits(t) && !t.Raw?
    ensures TagFits(t.tag)
    ensures var h, c := |TagOctets(t.tag)|, |Content(t)|;
            && (h == 2 ==> Head(t)[0] == t.tag / 256) && Head(t)[h - 1] == t.tag % 256
            && if c < 0x80 then |Head(t)| == h + 1 && Head(t)[h] == c
               else var k := |BigEndian(c)|;
                    && k <= 4 && |Head(t)| == h + 1 + k && Head(t)[h] == 0x80 + k
                    && forall i :: 0 <= i < k ==> Head(t)[h + 1 + i] == BigEndian(c)[i]
  {
    hide Content, BigEndian;
  }

  /** The header part of the copy step: lpac/euicc/derutil.c:175-198. */
  method CopyHead(node: Node, buffer: array<byte>, o: nat, ghost t: Tree) returns (w: nat)
    requires Fits(t) && !t.Raw? && node.tag == t.tag && node.length == |Content(t)|
    requires o + |Head(t)| <= buffer.Length
    modifies buffer
    ensures w == o + |Head(t)|
    ensures buffer[..] == Splice(old(buffer[..]), o, Head(t))
  {
    hide Content, EncAll, BigEndian, Splice, Fits, Head, LengthOctets;
    HeadOctets(t);
    w := o;
    ghost var was, head := buffer[..], Head(t);
    if node.tag / 256 != 0 {
      buffer[w] := node.tag / 256;
      w := w + 1;
    }
    buffer[w] := node.tag % 256;
    w := w + 1;
    if node.length < 0x80 {
      buffer[w] := node.length;
      w := w + 1;
    } else {
      var lengthlen := OctetsOf(node.length);
      buffer[w] := 0x80 + lengthlen;
      w := w + 1;
      var i: int := lengthlen - 1;
      while i >= 0
        invariant -1 <= i < lengthlen && w + i + 1 == o + |head|
        invariant forall j :: 0 <= j < |was| && !(o <= j < w) ==> buffer[j] == was[j]
        invariant forall j :: o <= j < w ==> buffer[j] == head[j - o]
      {
        BigEndianDigit(node.length, i);
        buffer[w] := Shr8(node.length, i) % 256;
        w := w + 1;
        i := i - 1;
      }
    }
    Spliced(was, o, head, buffer[..]);
  }

  lemma RawEncoding(t: Tree)
    requires Fits(t) && t.Raw?
    ensures Enc(t) == Content(t)
  {
  }

  lemma BareHead(t: Tree)
    requires Fits(t) && Content(t) == []
    ensures Enc(t) == Head(t)
  {
  }

  lemma SpliceNothing(s: seq<byte>, o: nat)
    requires o <= |s|
    ensures Splice(s, o, []) == s
  {
  }

  /** lpac/euicc/derutil.c:167-205 */
  method CopySingleNode(node: Node, buffer: array<byte>, ghost o: nat, ghost t: Tree, ghost src: Ptr)
    requires Fits(t) && o + |Enc(t)| <= buffer.Length
    requires node.headless == t.Raw? && (!t.Raw? ==> node.tag == t.tag) && node.length == |Content(t)|
    requires (node.child == null) == Childless(t)
    requires node.selfPtr == At(buffer, o) && node.value == src && Sourced(src, t, buffer)
    modifies buffer, node`value
    ensures buffer[..] == Splice(old(buffer[..]), o, Written(t))
    ensures node.value == FinalValue(src, t, buffer, o)
  {
    hide Content, EncAll, Head, Fits, Splice;
    if node.headless {
      RawEncoding(t);
      Memcpy(buffer, node.selfPtr.off, node.value.mem, node.value.off, node.length);
      return;
    }
    var w := CopyHead(node, buffer, node.selfPtr.off, t);
    if node.value.At? && node.child == null {
      ghost var headed := buffer[..];
      Memcpy(buffer, w, node.value.mem, node.value.off, node.length);
      SpliceSplice(old(buffer[..]), o, Head(t), Content(t));
    } else {
      node.value := At(buffer, w);
      if Childless(t) {
        BareHead(t);
      }
    }
  }

  /** The state the copy pass needs of a node, besides where its value is. */
  ghost predicate Placed(n: Node, e: Entry, buffer: array<byte>, base: nat)
    reads n`length, n`selfLength, n`selfPtr
  {
    Sized(n, e.t) && n.selfPtr == At(buffer, base + e.at)
  }

  ghost predicate Copied(n: Node, e: Entry, src: Ptr, buffer: array<byte>, base: nat)
    reads n`value
  {
    Fits(e.t) && n.value == FinalValue(src, e.t, buffer, base + e.at)
  }

  /** The copy pass over one node and what is below it: lpac/euicc/derutil.c:209-213. */
  method CopyNode(n: Node, buffer: array<byte>, ghost l: Layout, ghost p: nat, ghost t: Tree, ghost at: nat,
                  ghost more: bool, ghost base: nat, ghost srcs: seq<Ptr>)
    requires Laid(l) && |srcs| == |l.nodes|
    requires Fits(t) && FlatIn(l.entries, p, t, at, more) && n == l.nodes[p] && base + at + |Enc(t)| <= buffer.Length
    requires forall k :: p <= k < p + Count(t) ==>
               && Linked(l.nodes[k], l.nodes, l.entries[k], k) && Placed(l.nodes[k], l.entries[k], buffer, base)
               && l.nodes[k].value == srcs[k] && Sourced(srcs[k], l.entries[k].t, buffer)
    modifies buffer, l.position.Keys`value
    ensures buffer[..] == Splice(old(buffer[..]), base + at, Enc(t))
    ensures forall k :: p <= k < p + Count(t) ==> Copied(l.nodes[k], l.entries[k], srcs[k], buffer, base)
    ensures forall k :: 0 <= k < |l.nodes| && !(p <= k < p + Count(t)) ==> l.nodes[k].value == old(l.nodes[k].value)
    decreases t, 0
  {
    hide Head, Content, EncAll, Fits, Count, CountAll, Row, Flat, RowIn, FlatIn, Linked, NodeAt, Splice, FinalValue;
    RowInFlat(l.entries, p, t, at, more);
    LinkedFields(n, l.nodes, l.entries[p], p);
    AtNode(l.nodes, p + 1);
    assert Placed(n, l.entries[p], buffer, base) && Sourced(srcs[p], t, buffer);
    CopySingleNode(n, buffer, base + at, t, srcs[p]);
    if n.child != null {
      InnerContent(t);
      CopyPass(n.child, buffer, l, p + 1, t.kids, at + |Head(t)|, base, srcs);
      SpliceSplice(old(buffer[..]), base + at, Head(t), EncAll(t.kids));
    }
  }

  /** lpac/euicc/derutil.c:207-217 */
  method CopyPass(node: Node?, buffer: array<byte>, ghost l: Layout, ghost p: nat, ghost f: Forest, ghost at: nat,
                  ghost base: nat, ghost srcs: seq<Ptr>)
    requires Laid(l) && |srcs| == |l.nodes|
    requires FitsAll(f) && RowIn(l.entries, p, f, at, false) && base + at + |EncAll(f)| <= buffer.Length
    requires node == if f == [] then null else NodeAt(l.nodes, p)
    requires forall k :: p <= k < p + CountAll(f) ==>
               && Linked(l.nodes[k], l.nodes, l.entries[k], k) && Placed(l.nodes[k], l.entries[k], buffer, base)
               && l.nodes[k].value == srcs[k] && Sourced(srcs[k], l.entries[k].t, buffer)
    modifies buffer, l.position.Keys`value
    ensures buffer[..] == Splice(old(buffer[..]), base + at, EncAll(f))
    ensures forall k :: p <= k < p + CountAll(f) ==> Copied(l.nodes[k], l.entries[k], srcs[k], buffer, base)
    ensures forall k :: 0 <= k < |l.nodes| && !(p <= k < p + CountAll(f)) ==> l.nodes[k].value == old(l.nodes[k].value)
    decreases f, 1
  {
    hide Enc, Head, Content, EncAll, Fits, Count, CountAll, Row, Flat, RowIn, FlatIn, Linked, Childless, NodeAt,
         Splice, FinalValue, Placed, Copied;
    EmptyPrefix(f);
    CountPrefix(f, 0);
    RowFits(l.entries, p, f, at, false);
    AtNode(l.nodes, p);
    var n: Node? := node;
    ghost var i, q := 0, p;
    SpliceNothing(buffer[..], base + at);
    while n != null
      invariant 0 <= i <= |f| && q == p + CountAll(f[..i]) <= p + CountAll(f)
      invariant if i == |f| then n == null else q < p + CountAll(f) && n == l.nodes[q]
      invariant |EncAll(f[..i])| <= |EncAll(f)|
      invariant buffer[..] == Splice(old(buffer[..]), base + at, EncAll(f[..i]))
      invariant forall k :: p <= k < q ==> Copied(l.nodes[k], l.entries[k], srcs[k], buffer, base)
      invariant forall k :: q <= k < p + CountAll(f) ==>
                  l.nodes[k].value == srcs[k] && Sourced(srcs[k], l.entries[k].t, buffer)
      invariant forall k :: 0 <= k < |l.nodes| && !(p <= k < p + CountAll(f)) ==>
                  l.nodes[k].value == old(l.nodes[k].value)
      decreases |f| - i
    {
      NextInRow(n, l, p, f, at, i);
      CopyNode(n, buffer, l, q, f[i], at + |EncAll(f[..i])|, i + 1 < |f|, base, srcs);
      SpliceSplice(old(buffer[..]), base + at, EncAll(f[..i]), Enc(f[i]));
      n := n.next;
      i, q := i + 1, q + Count(f[i]);
    }
    assert f[..i] == f;
  }

  /** Where each node's value points. */
  ghost function ValuesOf(ns: seq<Node>): seq<Ptr>
    reads ns
  {
    seq(|ns|, k requires 0 <= k < |ns| reads ns => ns[k].value)
  }

  /** A forest laid over node objects, ready to pack into buffer. */
  ghost predicate Packable(l: Layout, f: Forest, node: Node?, buffer: array<byte>)
    reads l.nodes, set k | 0 <= k < |l.nodes| && l.nodes[k].value.At? :: l.nodes[k].value.mem
  {
    && Laid(l) && FitsAll(f) && |EncAll(f)| < TWO_32 && l.entries == Row(f, 0, false)
    && node == NodeAt(l.nodes, 0)
    && forall k :: 0 <= k < |l.nodes| ==>
         && Linked(l.nodes[k], l.nodes, l.entries[k], k)
         && LeafLength(l.nodes[k], l.entries[k].t)
         && Sourced(l.nodes[k].value, l.entries[k].t, buffer)
  }

  /** What packing leaves in the k-th node: sizes, its place in the buffer, and where its value is. */
  ghost predicate Packed(l: Layout, k: nat, src: Ptr, buffer: array<byte>, start: nat)
    requires k < |l.nodes| == |l.entries|
    reads l.nodes[k]
  {
    var n, e := l.nodes[k], l.entries[k];
    && Sized(n, e.t)
    && n.selfPtr == At(buffer, start + e.at)
    && n.value == FinalValue(src, e.t, buffer, start + e.at)
  }

  /** lpac/euicc/derutil.c:219-222 */
  method PackFinish(node: Node?, buffer: array<byte>, start: nat, ghost l: Layout, ghost f: Forest)
    requires Packable(l, f, node, buffer) && start + |EncAll(f)| <= buffer.Length
    requires forall k :: 0 <= k < |l.nodes| ==> Sized(l.nodes[k], l.entries[k].t)
    modifies buffer, l.position.Keys`selfPtr, l.position.Keys`value
    ensures buffer[..] == Splice(old(buffer[..]), start, EncAll(f))
    ensures forall k :: 0 <= k < |l.nodes| ==> Packed(l, k, old(l.nodes[k].value), buffer, start)
  {
    hide Enc, Content, EncAll, Fits, Linked, Splice, FinalValue, Row, Sourced;
    ghost var srcs := ValuesOf(l.nodes);
    assert l.entries[0..0 + CountAll(f)] == l.entries;
    NoNodes(f);
    PtrPass(node, buffer, start, l, 0, f, 0, start);
    CopyPass(node, buffer, l, 0, f, 0, start, srcs);
  }

  lemma NoNodes(f: Forest)
    ensures CountAll(f) == 0 <==> f == []
  {
  }

  /**
   * lpac/euicc/derutil.c:224-233. The three passes write exactly the recursive
   * encoding of the forest, or nothing when it does not fit.
   */
  method Pack(buffer: array<byte>, start: nat, bufferLen: nat, node: Node?, ghost l: Layout, ghost f: Forest)
    returns (ret: int, newLen: nat)
    requires Packable(l, f, node, buffer) && start + bufferLen <= buffer.Length
    modifies buffer, l.position.Keys
    ensures bufferLen < |EncAll(f)| ==> ret == -1 && newLen == bufferLen && buffer[..] == old(buffer[..])
    ensures |EncAll(f)| <= bufferLen ==>
              && ret == 0 && newLen == |EncAll(f)|
              && buffer[..] == Splice(old(buffer[..]), start, EncAll(f))
              && forall k :: 0 <= k < |l.nodes| ==> Packed(l, k, old(l.nodes[k].value), buffer, start)
  {
    hide Enc, Content, EncAll, Fits, Linked, Splice, FinalValue, Row, Sourced;
    assert l.entries[0..0 + CountAll(f)] == l.entries;
    NoNodes(f);
    var requiredSize := SizePass(node, null, 0, l, 0, f, 0);
    if bufferLen < requiredSize {
      return -1, bufferLen;
    }
    PackFinish(node, buffer, start, l, f);
    return 0, requiredSize;
  }

  /** The n items of s from o on. */
  function Part<T>(s: seq<T>, o: nat, n: nat): seq<T>
    requires o + n <= |s|
  {
    s[o..o + n]
  }

  lemma PartOfLeft<T>(a: seq<T>, b: seq<T>, o: nat, n: nat)
    requires o + n <= |a|
    ensures Part(a + b, o, n) == Part(a, o, n)
  {
  }

  lemma PartOfRight<T>(a: seq<T>, b: seq<T>, o: nat, n: nat)
    requires o + n <= |b|
    ensures Part(a + b, |a| + o, n) == Part(b, o, n)
  {
  }

  lemma FlatStep(t: Tree, at: nat, more: bool, k: nat)
    requires Fits(t) && 0 < k < Count(t)
    ensures t.Inner? && FitsAll(t.kids) && k - 1 < CountAll(t.kids) && Enc(t) == Head(t) + EncAll(t.kids)
    ensures Flat(t, at, more)[k] == Row(t.kids, at + |Head(t)|, false)[k - 1]
  {
    hide Row, Head, EncAll;
  }

  /** e's octets stand in b, which starts at, where e says. */
  ghost predicate Inside(e: Entry, b: seq<byte>, at: nat) {
    && Fits(e.t) && at <= e.at && e.at + |Enc(e.t)| <= at + |b|
    && Part(b, e.at - at, |Enc(e.t)|) == Enc(e.t)
  }

  lemma InsideSum(e: Entry, a: seq<byte>, b: seq<byte>, at: nat)
    ensures Inside(e, a, at) ==> Inside(e, a + b, at)
    ensures Inside(e, b, at + |a|) ==> Inside(e, a + b, at)
  {
    hide Enc, Fits, Part;
    if Inside(e, a, at) {
      PartOfLeft(a, b, e.at - at, |Enc(e.t)|);
    }
    if Inside(e, b, at + |a|) {
      PartOfRight(a, b, e.at - at - |a|, |Enc(e.t)|);
    }
  }

  lemma {:induction false} FlatOctets(t: Tree, at: nat, more: bool, k: nat)
    requires Fits(t) && k < Count(t)
    ensures Inside(Flat(t, at, more)[k], Enc(t), at)
    decreases t, 0
  {
    hide Head, EncAll, Row, Flat, Enc, Inside, Fits;
    if k > 0 {
      FlatStep(t, at, more, k);
      RowOctets(t.kids, at + |Head(t)|, false, k - 1);
      InsideSum(Flat(t, at, more)[k], Head(t), EncAll(t.kids), at);
    } else {
      WholeInside(t, at, more);
    }
  }

  lemma PartAll<T>(s: seq<T>)
    ensures Part(s, 0, |s|) == s
  {
  }

  lemma WholeInside(t: Tree, at: nat, more: bool)
    requires Fits(t)
    ensures Inside(Entry(t, at, more), Enc(t), at)
  {
    hide Enc, Fits, Head, Content, Part;
    PartAll(Enc(t));
  }

  /** Every node's own range of the encoding holds exactly that node's encoding. */
  lemma {:induction false} RowOctets(f: Forest, at: nat, more: bool, k: nat)
    requires FitsAll(f) && k < CountAll(f)
    ensures Inside(Row(f, at, more)[k], EncAll(f), at)
    decreases f, 1
  {
    hide Enc, Flat, Row, Count, Fits, Inside;
    var front := Init(f);
    RowStep(f, at, more);
    InsideSum(Row(f, at, more)[k], EncAll(front), Enc(Last(f)), at);
    if k < CountAll(front) {
      RowOctets(front, at, true, k);
    } else {
      FlatOctets(Last(f), at + |EncAll(front)|, more, k - CountAll(front));
    }
  }
}
