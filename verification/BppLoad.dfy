/**
 * The loader loop of lpac/euicc/es10b.c, lines 165 to 399: the slices of a Bound
 * Profile Package go out one ES10x command each, and the first bad answer stops
 * the load.
 */
module BppLoad {
  import opened Bytes
  import opened Der
  import opened DerUtil
  import opened DerParse
  import opened Transport
  import opened Bpp
  import Base64
  import TransportFacts

  /** The installation result data names its notification and a final result that is a success. */
  predicate ResultOk(d: seq<byte>) {
    && Find(d, [0xBF2F]).Some? && Find(d, [0xA2]).Some?
    && var first := ReadHeader(ValueOf(d, Find(d, [0xA2]).value));
       first.Some? && first.value.tag == 0xA0
  }

  /**
   * Whether an answer lets the load go on: no octets, or a profile installation
   * result that reports success. lpac/euicc/es10b.c:181-278
   */
  predicate AnswerOk(resp: seq<byte>) {
    resp == [] || (
      && Find(resp, [0xBF37]).Some?
      && var v := ValueOf(resp, Find(resp, [0xBF37]).value);
         Find(v, [0xBF27]).Some? && ResultOk(ValueOf(v, Find(v, [0xBF27]).value)))
  }

  /** What sending slices in order leaves: whether all went well, what was sent, what is left of the script. */
  datatype Sends = Sends(ok: bool, sent: seq<seq<byte>>, rest: Script)

  function SendOne(channel: nat, mss: nat, slice: seq<byte>, script: Script): Sends
    requires 1 <= mss <= BODY
  {
    var r := CommandRun(channel, mss, 0, slice, script);
    Sends(r.ok && AnswerOk(r.data), r.sent, r.rest)
  }

  function SendAll(channel: nat, mss: nat, slices: seq<seq<byte>>, script: Script): Sends
    requires 1 <= mss <= BODY
  {
    if slices == [] then Sends(true, [], script)
    else
      var front := SendAll(channel, mss, Init(slices), script);
      if !front.ok then front
      else
        var s := SendOne(channel, mss, Last(slices), front.rest);
        Sends(s.ok, front.sent + s.sent, s.rest)
  }

  /** A load that has failed stays as it is whatever slices would have come next. */
  lemma {:induction false} FailureSticks(channel: nat, mss: nat, done: seq<seq<byte>>, slices: seq<seq<byte>>,
                                         script: Script)
    requires 1 <= mss <= BODY && done <= slices && !SendAll(channel, mss, done, script).ok
    ensures SendAll(channel, mss, slices, script) == SendAll(channel, mss, done, script)
    decreases |slices|
  {
    hide SendOne;
    if |done| < |slices| {
      assert done <= Init(slices);
      FailureSticks(channel, mss, done, Init(slices), script);
    } else {
      assert done == slices;
    }
  }

  /**
   * The card receives the slices joined, all of them when the load succeeds and
   * an initial part when it does not.
   */
  lemma {:induction false} SlicesArrive(channel: nat, mss: nat, slices: seq<seq<byte>>, script: Script)
    requires 1 <= mss <= BODY
    ensures var s := SendAll(channel, mss, slices, script);
            && TransportFacts.Data(TransportFacts.Stores(s.sent)) <= Join(slices)
            && (s.ok ==> TransportFacts.Data(TransportFacts.Stores(s.sent)) == Join(slices))
  {
    hide CommandRun, AnswerOk, Join, TransportFacts.Stores, TransportFacts.Data, TransportFacts.Blocks;
    if slices == [] {
      NothingArrives();
    } else {
      var front := SendAll(channel, mss, Init(slices), script);
      SlicesArrive(channel, mss, Init(slices), script);
      JoinAppend(Init(slices), [Last(slices)]);
      JoinOne(Last(slices));
      if front.ok {
        var r := CommandRun(channel, mss, 0, Last(slices), front.rest);
        TransportFacts.Segmented(channel, mss, 0, Last(slices), front.rest);
        OnlyInitialPart(r.sent, channel, mss, Last(slices));
        TransportFacts.StoresAppend(front.sent, r.sent);
        DataAppend(TransportFacts.Stores(front.sent), TransportFacts.Stores(r.sent));
      }
    }
  }

  lemma NothingArrives()
    ensures TransportFacts.Data(TransportFacts.Stores([])) == [] && Join([]) == []
  {
  }

  lemma OnlyInitialPart(sent: seq<seq<byte>>, channel: nat, mss: nat, req: seq<byte>)
    requires TransportFacts.Blocks(TransportFacts.Stores(sent), channel, mss, 0, req)
    ensures TransportFacts.Data(TransportFacts.Stores(sent)) <= req
  {
  }

  lemma {:induction false} DataAppend(a: seq<seq<byte>>, b: seq<seq<byte>>)
    ensures TransportFacts.Data(a + b) == TransportFacts.Data(a) + TransportFacts.Data(b)
  {
    hide TransportFacts.Field;
    if a == [] {
      assert a + b == b;
      assert [] + TransportFacts.Data(b) == TransportFacts.Data(b);
    } else {
      var first, rest := TransportFacts.Field(a[0]), a[1..];
      DataAppend(rest, b);
      assert (a + b)[0] == a[0] && (a + b)[1..] == rest + b;
      assert first + (TransportFacts.Data(rest) + TransportFacts.Data(b))
          == first + TransportFacts.Data(rest) + TransportFacts.Data(b);
    }
  }

  /** node is the TLV r of v, and v is the part of mem from o on. */
  ghost predicate Located(node: Node, mem: array<byte>, o: nat, v: seq<byte>, r: (nat, Header))
    requires r.0 <= |v| && ReadHeader(v[r.0..]) == Some(r.1)
    reads node, mem
  {
    && Describes(node, mem, o + r.0, r.1)
    && node.value.off + node.length <= mem.Length
    && mem[o + r.0..node.value.off] == HeadOf(v, r)
    && mem[node.value.off..node.value.off + node.length] == ValueOf(v, r)
    && mem[o + r.0..node.value.off + node.length] == WholeOf(v, r)
  }

  /** Looking for a tag in the part of mem that holds v. */
  method FindIn(result: Node, tag: nat, mem: array<byte>, o: nat, len: nat, ghost v: seq<byte>) returns (found: bool)
    requires o + len <= mem.Length && mem[o..o + len] == v
    modifies result
    ensures found == Find(v, [tag]).Some?
    ensures found ==> Located(result, mem, o, v, Find(v, [tag]).value)
  {
    hide ReadHeader, Find, Located, Describes;
    var r := UnpackFindTag(result, tag, mem, o, len);
    found := r == 0;
    if found {
      DescribedIsLocated(result, mem, o, v, Find(v, [tag]).value);
    }
  }

  lemma DescribedIsLocated(node: Node, mem: array<byte>, o: nat, v: seq<byte>, r: (nat, Header))
    requires r.0 <= |v| && ReadHeader(v[r.0..]) == Some(r.1) && Describes(node, mem, o + r.0, r.1)
    requires o + |v| <= mem.Length && mem[o..o + |v|] == v
    ensures Located(node, mem, o, v, r)
  {
    hide ReadHeader;
    var i, j, k := r.0, r.0 + r.1.size, r.0 + r.1.size + r.1.length;
    var s := mem[..];
    assert k <= |v| && s[o..o + |v|] == v;
    Within(s, o, v, i, j);
    Within(s, o, v, j, k);
    Within(s, o, v, i, k);
    assert mem[o + i..o + j] == s[o + i..o + j] == HeadOf(v, r);
    assert mem[o + j..o + k] == s[o + j..o + k] == ValueOf(v, r);
    assert mem[o + i..o + k] == s[o + i..o + k] == WholeOf(v, r);
  }

  lemma Within(s: seq<byte>, o: nat, v: seq<byte>, i: nat, j: nat)
    requires o + |v| <= |s| && s[o..o + |v|] == v
    ensures i <= j <= |v| ==> s[o + i..o + j] == v[i..j]
  {
    if i <= j <= |v| {
      forall k | 0 <= k < j - i
        ensures s[o + i..o + j][k] == v[i..j][k]
      {
        assert s[o..o + |v|][i + k] == s[o + i + k];
      }
    }
  }

  /** lpac/euicc/es10b.c:195-222 */
  method CheckResult(resp: array<byte>, o: nat, len: nat, ghost d: seq<byte>) returns (ok: bool)
    requires o + len <= resp.Length && resp[o..o + len] == d
    ensures ok == ResultOk(d)
  {
    hide ReadHeader, Find, HeadOf, ValueOf, WholeOf;
    var meta := new Node();
    var found := FindIn(meta, 0xBF2F, resp, o, len, d);
    if !found {
      return false;
    }
    var tmp := new Node();
    found := FindIn(tmp, 0xA2, resp, o, len, d);
    if !found {
      return false;
    }
    ghost var result := ValueOf(d, Find(d, [0xA2]).value);
    assert resp[tmp.value.off..tmp.value.off + tmp.length] == result;
    ok := CheckFinal(resp, tmp.value.off, tmp.length, result);
  }

  /** lpac/euicc/es10b.c:209-223 */
  method CheckFinal(resp: array<byte>, o: nat, len: nat, ghost d: seq<byte>) returns (ok: bool)
    requires o + len <= resp.Length && resp[o..o + len] == d
    ensures ok == (ReadHeader(d).Some? && ReadHeader(d).value.tag == 0xA0)
  {
    hide ReadHeader;
    var final := new Node();
    var r := UnpackFirst(final, resp, o, len);
    if r < 0 {
      return false;
    }
    return final.tag == 0xA0;
  }

  /** Reading the answer to one slice: lpac/euicc/es10b.c:181-278. */
  method CheckAnswer(resp: array<byte>) returns (ok: bool)
    ensures ok == AnswerOk(resp[..])
  {
    hide ReadHeader, Find, HeadOf, ValueOf, WholeOf, ResultOk;
    if resp.Length == 0 {
      return true;
    }
    ghost var b := resp[..];
    assert resp[0..0 + resp.Length] == b;
    var tmp := new Node();
    var found := FindIn(tmp, 0xBF37, resp, 0, resp.Length, b);
    if !found {
      return false;
    }
    ghost var v := ValueOf(b, Find(b, [0xBF37]).value);
    found := FindIn(tmp, 0xBF27, resp, tmp.value.off, tmp.length, v);
    if !found {
      return false;
    }
    ok := CheckResult(resp, tmp.value.off, tmp.length, ValueOf(v, Find(v, [0xBF27]).value));
  }

  /** lpac/euicc/es10b.c:165-287 */
  method Tx(ctx: Ctx, src: array<byte>, reqbuf: nat, reqbufLen: nat) returns (ret: int)
    requires ctx.Valid() && reqbuf + reqbufLen <= src.Length && src != ctx.requestBuffer
    modifies ctx`script, ctx`sent, ctx.requestBuffer
    ensures var s := SendOne(ctx.logicChannel, ctx.mss, src[reqbuf..reqbuf + reqbufLen], old(ctx.script));
            && ret == (if s.ok then 0 else -1) && ctx.sent == old(ctx.sent) + s.sent && ctx.script == s.rest
  {
    hide CommandRun, AnswerOk;
    var r, resp := ctx.Command(src, reqbuf, reqbufLen);
    if r < 0 {
      return -1;
    }
    var respbuf := new byte[|resp|](i requires 0 <= i < |resp| => resp[i]);
    assert respbuf[..] == resp;
    var ok := CheckAnswer(respbuf);
    return if ok then 0 else -1;
  }

  /** The context shows what sending slices leaves. */
  ghost predicate Shows(ctx: Ctx, s: Sends, sent: seq<seq<byte>>)
    reads ctx
  {
    ctx.sent == sent + s.sent && ctx.script == s.rest
  }

  /** One more slice after those already sent. */
  method SendNext(ctx: Ctx, src: array<byte>, reqbuf: nat, reqbufLen: nat, ghost done: seq<seq<byte>>,
                  ghost script: Script, ghost sent: seq<seq<byte>>) returns (ret: int)
    requires ctx.Valid() && reqbuf + reqbufLen <= src.Length && src != ctx.requestBuffer
    requires SendAll(ctx.logicChannel, ctx.mss, done, script).ok
    requires Shows(ctx, SendAll(ctx.logicChannel, ctx.mss, done, script), sent)
    modifies ctx`script, ctx`sent, ctx.requestBuffer
    ensures var s := SendAll(ctx.logicChannel, ctx.mss, done + [src[reqbuf..reqbuf + reqbufLen]], script);
            ret == (if s.ok then 0 else -1) && Shows(ctx, s, sent)
  {
    hide SendOne;
    ghost var slice := src[reqbuf..reqbuf + reqbufLen];
    assert Init(done + [slice]) == done && Last(done + [slice]) == slice;
    ret := Tx(ctx, src, reqbuf, reqbufLen);
  }

  /** The loops over the children of the metadata and of the profile elements: lpac/euicc/es10b.c:347-357, 379-389. */
  method SendKids(ctx: Ctx, src: array<byte>, o: nat, len: nat, ghost before: seq<seq<byte>>,
                  ghost script: Script, ghost sent: seq<seq<byte>>) returns (ret: int)
    requires ctx.Valid() && o + len <= src.Length && src != ctx.requestBuffer
    requires SendAll(ctx.logicChannel, ctx.mss, before, script).ok
    requires Shows(ctx, SendAll(ctx.logicChannel, ctx.mss, before, script), sent)
    modifies ctx`script, ctx`sent, ctx.requestBuffer
    ensures var s := SendAll(ctx.logicChannel, ctx.mss, before + Kids(Walk(src[o..o + len])), script);
            ret == (if s.ok then 0 else -1) && Shows(ctx, s, sent)
  {
    hide SendAll, ReadHeader, Walk, Kids, Shows, Describes;
    var child := new Node();
    child.selfPtr := At(src, o);
    child.selfLength := 0;
    ghost var v, c, done := src[o..o + len], 0, before;
    ghost var all := before + Kids(Walk(v));
    assert v[0..] == v;
    while true
      invariant c <= len && child.selfPtr.At? && child.selfPtr.off + child.selfLength == o + c && fresh(child)
      invariant SendAll(ctx.logicChannel, ctx.mss, done, script).ok
      invariant Shows(ctx, SendAll(ctx.logicChannel, ctx.mss, done, script), sent)
      invariant done + Kids(Walk(v[c..])) == all
      decreases len - c
    {
      Within(src[..], o, v, c, len);
      KidsStep(v, c, done);
      var r := UnpackNext(child, child, src, o, len);
      if r != 0 {
        return 0;
      }
      DescribedSpan(child, src, o + c, ReadHeader(v[c..]).value);
      ghost var n := child.selfLength;
      ghost var next := done + [v[c..c + n]];
      Within(src[..], o, v, c, c + n);
      r := SendNext(ctx, src, child.selfPtr.off, child.selfLength, done, script, sent);
      if r < 0 {
        FailureSticks(ctx.logicChannel, ctx.mss, next, all, script);
        return -1;
      }
      done, c := next, c + n;
    }
  }

  lemma DescribedSpan(node: Node, mem: array<byte>, o: nat, h: Header)
    requires Describes(node, mem, o, h)
    ensures node.selfPtr == At(mem, o) && node.selfLength == h.size + h.length
  {
  }

  lemma KidsStep(v: seq<byte>, c: nat, done: seq<seq<byte>>)
    requires c <= |v|
    ensures ReadHeader(v[c..]).None? ==> done + Kids(Walk(v[c..])) == done
    ensures ReadHeader(v[c..]).Some? ==>
              var h := ReadHeader(v[c..]).value;
              var n := h.size + h.length;
              c + n <= |v| && done + Kids(Walk(v[c..])) == done + [v[c..c + n]] + Kids(Walk(v[c + n..]))
  {
    hide ReadHeader;
    if ReadHeader(v[c..]).Some? {
      var h := ReadHeader(v[c..]).value;
      var n := h.size + h.length;
      assert v[c..][..n] == v[c..c + n] && v[c..][n..] == v[c + n..];
      assert Walk(v[c..])[1..] == Walk(v[c + n..]);
      assert Kids(Walk(v[c..])) == [v[c..c + n]] + Kids(Walk(v[c + n..]));
    }
  }

  /** A part of the package goes out whole, or as its header followed by its children. */
  function Part(v: seq<byte>, r: (nat, Header), spread: bool): seq<seq<byte>>
    requires r.0 <= |v| && ReadHeader(v[r.0..]) == Some(r.1)
  {
    if spread then [HeadOf(v, r)] + Kids(Walk(ValueOf(v, r))) else [WholeOf(v, r)]
  }

  /** The slices of one part: lpac/euicc/es10b.c:329-334, 340-357, 360-365 and 372-389. */
  method SendPart(ctx: Ctx, src: array<byte>, node: Node, spread: bool, ghost before: seq<seq<byte>>,
                  ghost script: Script, ghost sent: seq<seq<byte>>, ghost o: nat, ghost v: seq<byte>,
                  ghost r: (nat, Header)) returns (ret: int)
    requires ctx.Valid() && src != ctx.requestBuffer
    requires r.0 <= |v| && ReadHeader(v[r.0..]) == Some(r.1) && Located(node, src, o, v, r)
    requires SendAll(ctx.logicChannel, ctx.mss, before, script).ok
    requires Shows(ctx, SendAll(ctx.logicChannel, ctx.mss, before, script), sent)
    modifies ctx`script, ctx`sent, ctx.requestBuffer
    ensures var s := SendAll(ctx.logicChannel, ctx.mss, before + Part(v, r, spread), script);
            ret == (if s.ok then 0 else -1) && Shows(ctx, s, sent)
  {
    hide SendAll, ReadHeader, Walk, Kids, Shows, HeadOf, ValueOf, WholeOf;
    var ptr := node.selfPtr.off;
    if spread {
      ghost var done := before + [HeadOf(v, r)];
      ghost var kids := Kids(Walk(ValueOf(v, r)));
      assert done + kids == before + ([HeadOf(v, r)] + kids);
      ret := SendNext(ctx, src, ptr, node.value.off - ptr, before, script, sent);
      if ret < 0 {
        FailureSticks(ctx.logicChannel, ctx.mss, done, done + kids, script);
        return;
      }
      ret := SendKids(ctx, src, node.value.off, node.length, done, script, sent);
    } else {
      ret := SendNext(ctx, src, ptr, node.selfLength, before, script, sent);
    }
  }

  /** Where a load stands: the slices sent so far, with those still planned, are the whole plan. */
  ghost predicate OnPlan(ctx: Ctx, done: seq<seq<byte>>, left: Plan, plan: Plan, script: Script, sent: seq<seq<byte>>)
    requires ctx.Valid()
    reads ctx
  {
    && Before(done, left) == plan
    && SendAll(ctx.logicChannel, ctx.mss, done, script).ok
    && Shows(ctx, SendAll(ctx.logicChannel, ctx.mss, done, script), sent)
  }

  /** What the load must leave for a given plan. */
  ghost predicate Loaded(ctx: Ctx, ret: int, plan: Plan, script: Script, sent: seq<seq<byte>>)
    requires ctx.Valid()
    reads ctx
  {
    var s := SendAll(ctx.logicChannel, ctx.mss, plan.slices, script);
    ret == (if plan.complete && s.ok then 0 else -1) && Shows(ctx, s, sent)
  }

  lemma PlanEnds(ctx: Ctx, done: seq<seq<byte>>, left: Plan, plan: Plan, script: Script, sent: seq<seq<byte>>)
    requires ctx.Valid() && left.slices == [] && OnPlan(ctx, done, left, plan, script, sent)
    ensures Loaded(ctx, if left.complete then 0 else -1, plan, script, sent)
  {
    hide SendAll;
    assert done + [] == done;
  }

  /** After one part is sent the load is on plan, or is over. */
  lemma PartSent(ctx: Ctx, ret: int, done: seq<seq<byte>>, part: seq<seq<byte>>, left: Plan, rest: Plan, plan: Plan,
                 script: Script, sent: seq<seq<byte>>)
    requires ctx.Valid() && Before(done, left) == plan && left == Before(part, rest)
    requires var s := SendAll(ctx.logicChannel, ctx.mss, done + part, script);
             ret == (if s.ok then 0 else -1) && Shows(ctx, s, sent)
    ensures ret == 0 ==> OnPlan(ctx, done + part, rest, plan, script, sent)
    ensures ret < 0 ==> Loaded(ctx, -1, plan, script, sent)
  {
    hide SendAll;
    assert done + part + rest.slices == done + (part + rest.slices);
    if ret < 0 {
      FailureSticks(ctx.logicChannel, ctx.mss, done + part, plan.slices, script);
    }
  }

  /** From the session keys to the end: lpac/euicc/es10b.c:359-389. */
  method LoadTail(ctx: Ctx, bpp: array<byte>, o: nat, len: nat, ghost v: seq<byte>, ghost before: seq<seq<byte>>,
                  ghost plan: Plan, ghost script: Script, ghost sent: seq<seq<byte>>) returns (ret: int)
    requires ctx.Valid() && bpp != ctx.requestBuffer && o + len <= bpp.Length && bpp[o..o + len] == v
    requires OnPlan(ctx, before, PlanKeys(v), plan, script, sent)
    modifies ctx`script, ctx`sent, ctx.requestBuffer
    ensures Loaded(ctx, ret, plan, script, sent)
  {
    hide SendAll, ReadHeader, Find, OnPlan, Loaded, Located, Kids, Walk;
    ghost var done := before;
    var tmp := new Node();
    var found := FindIn(tmp, TAG_KEYS, bpp, o, len, v);
    if found {
      OnPlanSends(ctx, done, PlanKeys(v), plan, script, sent);
      ghost var r := Find(v, [TAG_KEYS]).value;
      ret := SendPart(ctx, bpp, tmp, false, done, script, sent, o, v, r);
      PartSent(ctx, ret, done, Part(v, r, false), PlanKeys(v), PlanElements(v), plan, script, sent);
      if ret < 0 {
        return;
      }
      done := done + Part(v, r, false);
    }
    OnPlanSends(ctx, done, PlanElements(v), plan, script, sent);
    found := FindIn(tmp, TAG_ELEMENTS, bpp, o, len, v);
    if !found {
      PlanEnds(ctx, done, PlanElements(v), plan, script, sent);
      return -1;
    }
    ghost var e := Find(v, [TAG_ELEMENTS]).value;
    ret := SendPart(ctx, bpp, tmp, true, done, script, sent, o, v, e);
    assert PlanElements(v) == Before(Part(v, e, true), Plan([], true));
    PartSent(ctx, ret, done, Part(v, e, true), PlanElements(v), Plan([], true), plan, script, sent);
    if ret == 0 {
      PlanEnds(ctx, done + Part(v, e, true), Plan([], true), plan, script, sent);
    }
  }

  lemma OnPlanSends(ctx: Ctx, done: seq<seq<byte>>, left: Plan, plan: Plan, script: Script, sent: seq<seq<byte>>)
    requires ctx.Valid() && OnPlan(ctx, done, left, plan, script, sent)
    ensures Before(done, left) == plan && SendAll(ctx.logicChannel, ctx.mss, done, script).ok
    ensures Shows(ctx, SendAll(ctx.logicChannel, ctx.mss, done, script), sent)
  {
  }

  /** From the ISD-P configuration to the end: lpac/euicc/es10b.c:325-389. */
  method LoadBody(ctx: Ctx, bpp: array<byte>, o: nat, len: nat, ghost v: seq<byte>, ghost before: seq<seq<byte>>,
                  ghost plan: Plan, ghost script: Script, ghost sent: seq<seq<byte>>) returns (ret: int)
    requires ctx.Valid() && bpp != ctx.requestBuffer && o + len <= bpp.Length && bpp[o..o + len] == v
    requires OnPlan(ctx, before, PlanConfigure(v), plan, script, sent)
    modifies ctx`script, ctx`sent, ctx.requestBuffer
    ensures Loaded(ctx, ret, plan, script, sent)
  {
    hide SendAll, ReadHeader, Find, OnPlan, Loaded, Located, Kids, Walk, PlanKeys;
    ghost var done := before;
    OnPlanSends(ctx, done, PlanConfigure(v), plan, script, sent);
    var tmp := new Node();
    var found := FindIn(tmp, TAG_CONFIGURE, bpp, o, len, v);
    if !found {
      PlanEnds(ctx, done, PlanConfigure(v), plan, script, sent);
      return -1;
    }
    ghost var r := Find(v, [TAG_CONFIGURE]).value;
    ret := SendPart(ctx, bpp, tmp, false, done, script, sent, o, v, r);
    PartSent(ctx, ret, done, Part(v, r, false), PlanConfigure(v), PlanMetadata(v), plan, script, sent);
    if ret < 0 {
      return;
    }
    done := done + Part(v, r, false);
    OnPlanSends(ctx, done, PlanMetadata(v), plan, script, sent);
    found := FindIn(tmp, TAG_METADATA, bpp, o, len, v);
    if !found {
      PlanEnds(ctx, done, PlanMetadata(v), plan, script, sent);
      return -1;
    }
    ghost var m := Find(v, [TAG_METADATA]).value;
    ret := SendPart(ctx, bpp, tmp, true, done, script, sent, o, v, m);
    PartSent(ctx, ret, done, Part(v, m, true), PlanMetadata(v), PlanKeys(v), plan, script, sent);
    if ret < 0 {
      return;
    }
    ret := LoadTail(ctx, bpp, o, len, v, done + Part(v, m, true), plan, script, sent);
  }

  /** lpac/euicc/es10b.c:309-389, the package already decoded */
  method LoadDecoded(ctx: Ctx, bpp: array<byte>, len: nat) returns (ret: int)
    requires ctx.Valid() && bpp != ctx.requestBuffer && len <= bpp.Length
    modifies ctx`script, ctx`sent, ctx.requestBuffer
    ensures Loaded(ctx, ret, PlanOf(bpp[..len]), old(ctx.script), old(ctx.sent))
  {
    hide SendAll, ReadHeader, Find, OnPlan, Loaded, Kids, Walk, PlanConfigure, PlanOf, ValueOf, HeadOf, WholeOf,
         Located;
    ghost var b, script, sent := bpp[..len], ctx.script, ctx.sent;
    assert bpp[0..0 + len] == b;
    ghost var plan := PlanOf(b);
    NothingSent(ctx, plan);
    PlanStart(b);
    var package := new Node();
    var found := FindIn(package, TAG_PACKAGE, bpp, 0, len, b);
    if !found {
      PlanEnds(ctx, [], plan, plan, script, sent);
      return -1;
    }
    ghost var p := Find(b, [TAG_PACKAGE]).value;
    ghost var v := ValueOf(b, p);
    LocatedFields(package, bpp, 0, b, p);
    var tmp := new Node();
    found := FindIn(tmp, TAG_CHANNEL, bpp, package.value.off, package.length, v);
    if !found {
      PlanEnds(ctx, [], plan, plan, script, sent);
      return -1;
    }
    LocatedFields(tmp, bpp, package.value.off, v, Find(v, [TAG_CHANNEL]).value);
    var reqbuf := package.selfPtr.off;
    var reqbufLen := tmp.selfPtr.off - package.selfPtr.off + tmp.selfLength;
    ghost var first := b[reqbuf..reqbuf + reqbufLen];
    Within(bpp[..], 0, b, reqbuf, reqbuf + reqbufLen);
    OnPlanSends(ctx, [], plan, plan, script, sent);
    ret := SendNext(ctx, bpp, reqbuf, reqbufLen, [], script, sent);
    PartSent(ctx, ret, [], [first], plan, PlanConfigure(v), plan, script, sent);
    if ret < 0 {
      return;
    }
    ret := LoadBody(ctx, bpp, package.value.off, package.length, v, [] + [first], plan, script, sent);
  }

  lemma LocatedFields(node: Node, mem: array<byte>, o: nat, v: seq<byte>, r: (nat, Header))
    requires r.0 <= |v| && ReadHeader(v[r.0..]) == Some(r.1) && Located(node, mem, o, v, r)
    ensures node.selfPtr == At(mem, o + r.0) && node.selfLength == r.1.size + r.1.length
    ensures node.value == At(mem, o + r.0 + r.1.size) && node.length == r.1.length
    ensures node.value.off + node.length <= mem.Length
    ensures mem[node.value.off..node.value.off + node.length] == ValueOf(v, r) && |ValueOf(v, r)| == r.1.length
  {
    hide ReadHeader;
  }

  lemma PlanStart(b: seq<byte>)
    ensures var p := Find(b, [TAG_PACKAGE]);
            if p.None? then PlanOf(b) == Plan([], false)
            else
              var v := ValueOf(b, p.value);
              && p.value.0 + p.value.1.size + |v| <= |b|
              && var r := Find(v, [TAG_CHANNEL]);
                 if r.None? then PlanOf(b) == Plan([], false)
                 else
                   var end := r.value.0 + r.value.1.size + r.value.1.length;
                   && end <= |v|
                   && PlanOf(b) == Before([b[p.value.0..p.value.0 + p.value.1.size + end]], PlanConfigure(v))
  {
    hide ReadHeader, Find, PlanConfigure;
  }

  lemma NothingSent(ctx: Ctx, plan: Plan)
    requires ctx.Valid()
    ensures OnPlan(ctx, [], plan, plan, ctx.script, ctx.sent)
  {
    assert [] + plan.slices == plan.slices;
  }

  /** lpac/euicc/es10b.c:289-399, when malloc succeeds */
  method LoadBoundProfilePackage(ctx: Ctx, b64: array<byte>) returns (ret: int)
    requires ctx.Valid() && b64 != ctx.requestBuffer && Base64.Run(b64[..]) < b64.Length
    modifies ctx`script, ctx`sent, ctx.requestBuffer
    ensures Base64.InAlphabet(Base64.Alphabetic(b64[..]))
    ensures Loaded(ctx, ret, PlanOf(Base64.Decoded(Base64.Alphabetic(b64[..]))), old(ctx.script), old(ctx.sent))
  {
    hide Base64.Decoded, Base64.Alphabetic, Base64.Run, Loaded, PlanOf;
    var n := Base64.DecodeLen(b64);
    var bpp := new byte[n](_ => 0);
    ghost var was := bpp[..];
    var bppLen := Base64.Decode(bpp, b64);
    assert bpp[..bppLen] == Base64.Decoded(Base64.Alphabetic(b64[..]));
    ret := LoadDecoded(ctx, bpp, bppLen);
  }

  /**
   * Conservation end to end. When the decoded octets hold a laid-out package,
   * the data fields of all STORE DATA commands of a load join to exactly that
   * package if the load succeeds, and to an initial part of it if it does not.
   */
  lemma CardReceivesPackage(b: seq<byte>, channel: nat, mss: nat, script: Script)
    requires 1 <= mss <= BODY
    requires Find(b, [TAG_PACKAGE]).Some? && IsPackage(WholeOf(b, Find(b, [TAG_PACKAGE]).value))
    ensures var s := SendAll(channel, mss, PlanOf(b).slices, script);
            var received := TransportFacts.Data(TransportFacts.Stores(s.sent));
            var package := WholeOf(b, Find(b, [TAG_PACKAGE]).value);
            && PlanOf(b).complete && received <= package && (s.ok ==> received == package)
  {
    hide SendAll, Find, ReadHeader, PlanOf, WholeOf, IsPackage;
    PackageConserved(b);
    SlicesArrive(channel, mss, PlanOf(b).slices, script);
  }
}
