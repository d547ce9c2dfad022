/**
 * es10b_cancel_session_r, lpac/euicc/es10b.c lines 684-747: the request is packed into the
 * body of the request buffer, sent from there, and the answer goes out as base64 text.
 */
module CancelSession {
  import opened Bytes
  import opened Der
  import opened DerUtil
  import opened DerParse
  import opened Transport
  import Base64
  import Bpp
  import BppFacts
  import DerInteger
  import TransportFacts

  const TAG_REQUEST: nat := 0xBF41
  const TAG_TRANSACTION: nat := 0x80
  const TAG_REASON: nat := 0x81

  /** sizeof(enum es10b_cancel_session_reason) */
  const REASON_SIZE: nat := 4

  function Field(tag: nat, content: seq<byte>): Tree {
    Leaf((), tag, content)
  }

  function Fields(transactionId: seq<byte>, reason: seq<byte>): Forest {
    [Field(TAG_TRANSACTION, transactionId), Field(TAG_REASON, reason)]
  }

  /** CancelSessionRequest: section 5.7.14 of SGP.22. */
  function Request(transactionId: seq<byte>, reason: seq<byte>): Forest {
    [Inner((), TAG_REQUEST, Fields(transactionId, reason))]
  }

  lemma FieldFits(tag: nat, content: seq<byte>)
    requires tag < 0x100 && |content| <= TWO_32 - 64
    ensures Fits(Field(tag, content)) && |Enc(Field(tag, content))| <= |content| + 7
    ensures Count(Field(tag, content)) == 1
  {
    hide BigEndian;
  }

  lemma RequestFits(transactionId: seq<byte>, reason: seq<byte>)
    requires |transactionId| <= TWO_32 - 64 && |reason| <= 8
    ensures Fits(Field(TAG_TRANSACTION, transactionId)) && Fits(Field(TAG_REASON, reason))
    ensures FitsAll(Fields(transactionId, reason)) && FitsAll(Request(transactionId, reason))
    ensures Fits(Request(transactionId, reason)[0])
    ensures |EncAll(Request(transactionId, reason))| < TWO_32
  {
    hide LengthOctets, Fits, Field;
    var a, b, fields := Field(TAG_TRANSACTION, transactionId), Field(TAG_REASON, reason), Fields(transactionId, reason);
    FieldFits(TAG_TRANSACTION, transactionId);
    FieldFits(TAG_REASON, reason);
    assert FitsAll(fields);
    TwoEncoded(a, b);
    WholeFits(fields);
  }

  lemma TwoEncoded(a: Tree, b: Tree)
    requires Fits(a) && Fits(b)
    ensures FitsAll([a, b]) && EncAll([a, b]) == Enc(a) + Enc(b)
  {
    hide Fits, Enc;
    var f := [a, b];
    assert FitsAll(f);
    hide EncAll, FitsAll;
    EmptyPrefix(f);
    EncAllStep(f, 0);
    EncAllStep(f, 1);
    assert f[..2] == f;
  }

  lemma WholeFits(kids: Forest)
    requires FitsAll(kids) && |EncAll(kids)| < TWO_32 - 16
    ensures Fits(Inner((), TAG_REQUEST, kids)) && FitsAll([Inner((), TAG_REQUEST, kids)])
    ensures |EncAll([Inner((), TAG_REQUEST, kids)])| < TWO_32
  {
    hide BigEndian;
    var t: Tree := Inner((), TAG_REQUEST, kids);
    assert Fits(t);
    assert EncAll([t]) == [] + Enc(t);
  }

  /** The request in octets: for short values, tag and length octets stand before each of them. */
  lemma RequestOctets(transactionId: seq<byte>, reason: seq<byte>)
    requires |transactionId| + |reason| < 0x7C
    ensures FitsAll(Request(transactionId, reason))
    ensures EncAll(Request(transactionId, reason))
         == [0xBF, 0x41, |transactionId| + |reason| + 4, 0x80, |transactionId|] + transactionId
            + [0x81, |reason|] + reason
  {
    hide Fits, Enc, BigEndian;
    var a, b := Field(TAG_TRANSACTION, transactionId), Field(TAG_REASON, reason);
    ShortEncoded(TAG_TRANSACTION, transactionId);
    ShortEncoded(TAG_REASON, reason);
    TwoEncoded(a, b);
    var fields := Fields(transactionId, reason);
    ShortInner(fields);
    assert [0x80, |transactionId|] + transactionId + ([0x81, |reason|] + reason)
        == [0x80, |transactionId|] + transactionId + [0x81, |reason|] + reason;
  }

  lemma ShortEncoded(tag: byte, content: seq<byte>)
    requires |content| < 0x80
    ensures Fits(Field(tag, content)) && Enc(Field(tag, content)) == [tag, |content|] + content
  {
    hide BigEndian;
  }

  lemma ShortInner(kids: Forest)
    requires FitsAll(kids) && |EncAll(kids)| < 0x80
    ensures var t: Tree := Inner((), TAG_REQUEST, kids);
            Fits(t) && FitsAll([t]) && EncAll([t]) == [0xBF, 0x41, |EncAll(kids)|] + EncAll(kids)
  {
    var t: Tree := Inner((), TAG_REQUEST, kids);
    InnerFits(kids);
    OneEncoded(t);
    hide EncAll;
    RequestHead(|EncAll(kids)|);
  }

  lemma InnerFits(kids: Forest)
    requires FitsAll(kids) && |EncAll(kids)| < 0x80
    ensures var t: Tree := Inner((), TAG_REQUEST, kids);
            Fits(t) && Enc(t) == TagOctets(TAG_REQUEST) + LengthOctets(|EncAll(kids)|) + EncAll(kids)
  {
    hide EncAll, TagOctets, LengthOctets;
  }

  lemma OneEncoded(t: Tree)
    requires Fits(t)
    ensures FitsAll([t]) && EncAll([t]) == Enc(t)
  {
    hide Enc, Fits;
    assert Init([t]) == [] && Last([t]) == t;
    assert EncAll([t]) == [] + Enc(t);
  }

  lemma RequestHead(n: nat)
    requires n < 0x80
    ensures TagOctets(TAG_REQUEST) + LengthOctets(n) == [0xBF, 0x41, n]
  {
    hide BigEndian;
  }

  /** An answer that is a cancel session TLV is given back whole. */
  lemma AnswerIsWhole(content: seq<byte>)
    requires |content| < TWO_32
    ensures var t: Tree := Leaf((), 0xBF41, content);
            Fits(t) && Answer(Enc(t)) == Some(Enc(t))
  {
    hide Find, ReadHeader, Enc, Bpp.WholeOf, Head, EncAll;
    var t: Tree := Leaf((), 0xBF41, content);
    assert Fits(t) && ReadableTlv(t);
    OneEncoded(t);
    BppFacts.FoundEncoded([t], 0xBF41, 0);
  }

  /** The request's elements in the order the packer meets them. */
  lemma RequestRow(transactionId: seq<byte>, reason: seq<byte>)
    requires |transactionId| <= TWO_32 - 64 && |reason| <= 8
    ensures FitsAll(Request(transactionId, reason)) && CountAll(Request(transactionId, reason)) == 3
    ensures var row := Row(Request(transactionId, reason), 0, false);
            && |row| == 3
            && row[0].t == Request(transactionId, reason)[0] && !row[0].more && Count(row[0].t) == 3
            && row[1].t == Field(TAG_TRANSACTION, transactionId) && row[1].more
            && row[2].t == Field(TAG_REASON, reason) && !row[2].more
  {
    hide Enc, Head, EncAll, Fits, Field;
    RequestFits(transactionId, reason);
    var a, b, fields := Field(TAG_TRANSACTION, transactionId), Field(TAG_REASON, reason), Fields(transactionId, reason);
    var f, t := Request(transactionId, reason), Request(transactionId, reason)[0];
    FieldFits(TAG_TRANSACTION, transactionId);
    FieldFits(TAG_REASON, reason);
    RowStep(f, 0, false);
    KidsOf(t, 0, false);
    assert Init(f) == [] && Row([], 0, true) == [];
    var at := |Head(t)|;
    RowStep(fields, at, false);
    assert Init(fields) == [a];
    RowStep([a], at, true);
    assert Init([a]) == [] && Row([], at, true) == [];
    var row, below := Row(f, 0, false), Row(fields, at, false);
    assert row == Flat(t, 0 + |EncAll(Init(f))|, false);
    assert |EncAll(Init(f))| == 0 by { assert EncAll(Init(f)) == EncAll(f[..0]); EmptyPrefix(f); }
    assert row[1..] == below;
    assert below[0] == Row([a], at, true)[0] == Entry(a, at + |EncAll(Init([a]))|, true);
    assert row[1] == row[1..][0] && row[2] == row[1..][1];
  }

  /** A node with a tag, ready to be linked: lpac/euicc/es10b.c:700-714. */
  method NewNode(tag: nat, value: Ptr, length: nat, child: Node?, next: Node?) returns (n: Node)
    ensures fresh(n) && n.tag == tag && n.value == value && n.length == length
    ensures n.child == child && n.next == next && !n.headless
  {
    n := new Node();
    n.tag, n.value, n.length, n.child, n.next := tag, value, length, child, next;
  }

  /** The three nodes, linked as they are, carry the request. */
  lemma RequestPackable(l: Layout, f: Forest, body: array<byte>, transactionId: array<byte>, idLen: nat,
                        reason: array<byte>, reasonLen: nat)
    requires idLen <= transactionId.Length && idLen <= TWO_32 - 64 && reasonLen <= reason.Length && reasonLen <= 8
    requires transactionId != body && reason != body
    requires f == Request(transactionId[..idLen], reason[..reasonLen])
    requires FitsAll(f) && l.entries == Row(f, 0, false)
    requires |l.nodes| == 3 && Laid(l)
    requires var n, id, why := l.nodes[0], l.nodes[1], l.nodes[2];
             && n.tag == TAG_REQUEST && n.value == Null && n.child == id && n.next == null && !n.headless
             && id.tag == TAG_TRANSACTION && id.value == At(transactionId, 0) && id.length == idLen
             && id.child == null && id.next == why && !id.headless
             && why.tag == TAG_REASON && why.value == At(reason, 0) && why.length == reasonLen
             && why.child == null && why.next == null && !why.headless
    ensures Packable(l, f, l.nodes[0], body)
  {
    hide Enc, Head, EncAll, Row;
    RequestRow(transactionId[..idLen], reason[..reasonLen]);
    RequestFits(transactionId[..idLen], reason[..reasonLen]);
  }

  /** Packing the request into the body of the request buffer: lpac/euicc/es10b.c:700-719. */
  method PackRequest(body: array<byte>, start: nat, bodyLen: nat, transactionId: array<byte>, idLen: nat,
                     reason: array<byte>, reasonLen: nat) returns (ret: int, reqLen: nat)
    requires start + bodyLen <= body.Length
    requires idLen <= transactionId.Length && idLen <= TWO_32 - 64 && reasonLen <= reason.Length && reasonLen <= 8
    requires transactionId != body && reason != body
    requires FitsAll(Request(transactionId[..idLen], reason[..reasonLen]))
    modifies body
    ensures var req := EncAll(Request(old(transactionId[..idLen]), old(reason[..reasonLen])));
            if |req| <= bodyLen then
              ret == 0 && reqLen == |req| && body[..] == Splice(old(body[..]), start, req)
            else ret == -1 && body[..] == old(body[..])
  {
    ghost var f := Request(transactionId[..idLen], reason[..reasonLen]);
    var nReason := NewNode(TAG_REASON, At(reason, 0), reasonLen, null, null);
    var nTransactionId := NewNode(TAG_TRANSACTION, At(transactionId, 0), idLen, null, nReason);
    var nRequest := NewNode(TAG_REQUEST, Null, 0, nTransactionId, null);
    ghost var l := Layout([nRequest, nTransactionId, nReason], Row(f, 0, false),
                          map[nRequest := 0, nTransactionId := 1, nReason := 2]);
    RequestRow(transactionId[..idLen], reason[..reasonLen]);
    RequestFits(transactionId[..idLen], reason[..reasonLen]);
    hide Enc, Head, EncAll, Row, Packable, Fits;
    RequestPackable(l, f, body, transactionId, idLen, reason, reasonLen);
    ret, reqLen := Pack(body, start, bodyLen, nRequest, l, f);
  }

  /** What a call leaves: the base64 text, if there is one, and what was exchanged. */
  datatype Outcome = Outcome(text: Option<seq<byte>>, sent: seq<seq<byte>>, rest: Script)

  /** The whole call over what the card does. */
  function Cancelled(channel: nat, mss: nat, transactionId: seq<byte>, reason: seq<byte>, script: Script): Outcome
    requires 1 <= mss <= BODY && FitsAll(Request(transactionId, reason))
  {
    var req := EncAll(Request(transactionId, reason));
    if |reason| > REASON_SIZE || |req| > BODY then Outcome(None, [], script)
    else
      var r := CommandRun(channel, mss, 0, req, script);
      var answer := if r.ok then Answer(r.data) else None;
      Outcome(if answer.Some? then Some(Base64.Encoded(answer.value)) else None, r.sent, r.rest)
  }

  /** The cancel session TLV of an answer: all its octets. */
  function Answer(data: seq<byte>): Option<seq<byte>> {
    var found := Find(data, [TAG_REQUEST]);
    if found.None? then None else Some(Bpp.WholeOf(data, found.value))
  }

  /** The answer's TLV as base64 text: lpac/euicc/es10b.c:725-735. */
  method TextOf(resp: array<byte>) returns (text: Option<array<byte>>)
    ensures text.Some? ==> fresh(text.value)
    ensures text.Some? <==> Answer(resp[..]).Some?
    ensures text.Some? ==> text.value[..] == Base64.Encoded(Answer(resp[..]).value) + [0]
  {
    hide ReadHeader, Find, Base64.Encoded;
    var tmp := new Node();
    assert resp[0..0 + resp.Length] == resp[..];
    var ret := UnpackFindTag(tmp, TAG_REQUEST, resp, 0, resp.Length);
    if ret != 0 {
      return None;
    }
    var n := Base64.EncodeLen(tmp.selfLength);
    var b64 := new byte[n](_ => 0);
    var _ := Base64.Encode(b64, resp, tmp.selfPtr.off, tmp.selfLength);
    text := Some(b64);
  }

  /** lpac/euicc/es10b.c:684-747 */
  method CancelSessionR(ctx: Ctx, transactionId: array<byte>, idLen: nat, reason: DerInteger.long)
    returns (ret: int, text: Option<array<byte>>)
    requires ctx.Valid() && transactionId != ctx.requestBuffer
    requires idLen <= transactionId.Length && idLen <= TWO_32 - 64
    requires FitsAll(Request(transactionId[..idLen], DerInteger.Encoding(reason)))
    modifies ctx`script, ctx`sent, ctx.requestBuffer
    ensures text.Some? ==> fresh(text.value)
    ensures var o := Cancelled(ctx.logicChannel, ctx.mss, old(transactionId[..idLen]), DerInteger.Encoding(reason),
                               old(ctx.script));
            && ctx.sent == old(ctx.sent) + o.sent && ctx.script == o.rest
            && ret == (if o.text.Some? then 0 else -1)
            && (o.text.None? <==> text.None?)
            && (o.text.Some? ==> text.value[..] == o.text.value + [0])
  {
    hide CommandRun, Answer, EncAll, Splice;
    ghost var id, octets := transactionId[..idLen], DerInteger.Encoding(reason);
    var reasonBuf := new byte[REASON_SIZE](_ => 0);
    ghost var was := reasonBuf[..];
    assert old(ctx.sent) + [] == old(ctx.sent);
    var fits, reasonLen := DerInteger.Long2Bin(reasonBuf, REASON_SIZE, reason);
    if fits < 0 {
      return -1, None;
    }
    assert reasonBuf[..reasonLen] == octets by { SpliceStart(was, octets, reasonBuf[..]); }
    var packed, reqLen := PackRequest(ctx.requestBuffer, HEADER, BODY, transactionId, idLen, reasonBuf, reasonLen);
    if packed != 0 {
      return -1, None;
    }
    assert ctx.requestBuffer[HEADER..HEADER + reqLen] == EncAll(Request(id, octets)) by {
      SpliceMiddle(old(ctx.requestBuffer[..]), HEADER, EncAll(Request(id, octets)), ctx.requestBuffer[..]);
    }
    var sent, data := ctx.Command(ctx.requestBuffer, HEADER, reqLen);
    if sent < 0 {
      return -1, None;
    }
    var resp := new byte[|data|](i requires 0 <= i < |data| => data[i]);
    assert resp[..] == data;
    text := TextOf(resp);
    ret := if text.None? then -1 else 0;
  }

  lemma SpliceStart(s: seq<byte>, x: seq<byte>, r: seq<byte>)
    requires |x| <= |s| && r == Splice(s, 0, x)
    ensures r[..|x|] == x
  {
  }

  lemma SpliceMiddle(s: seq<byte>, o: nat, x: seq<byte>, r: seq<byte>)
    requires o + |x| <= |s| && r == Splice(s, o, x)
    ensures r[o..o + |x|] == x
  {
  }

  /** The tags of the request: only the outer one holds further TLVs. */
  predicate Deep(tag: nat) {
    tag == TAG_REQUEST
  }

  lemma RequestDecodes(transactionId: seq<byte>, reason: seq<byte>)
    requires FitsAll(Request(transactionId, reason))
    ensures Decode(Deep, EncAll(Request(transactionId, reason))) == Some(Request(transactionId, reason))
  {
    hide EncAll, Decode, Fits;
    var f := Request(transactionId, reason);
    var fields := Fields(transactionId, reason);
    assert TypedAll(Deep, fields);
    assert TypedAll(Deep, f);
    DecodeEncoded(Deep, f);
    ErasedFields(transactionId, reason);
  }

  lemma ErasedFields(transactionId: seq<byte>, reason: seq<byte>)
    ensures EraseAll(Request(transactionId, reason)) == Request(transactionId, reason)
  {
    var f, fields := Request(transactionId, reason), Fields(transactionId, reason);
    assert Init(fields) == [fields[0]] && Init([fields[0]]) == [] && Init(f) == [];
    assert EraseAll([fields[0]]) == [fields[0]];
    assert EraseAll(fields) == fields;
  }

  /** The text decodes to the octets. */
  predicate Carries(text: seq<byte>, octets: seq<byte>) {
    Base64.InAlphabet(Base64.Alphabetic(text)) && Base64.Decoded(Base64.Alphabetic(text)) == octets
  }

  /**
   * Against a card that chains segments and serves its answer in pieces, whatever the segment size and
   * the pieces: the card reads back exactly the transaction and the reason, the call succeeds exactly when
   * the answer holds a cancel session TLV, and the text decodes to that TLV.
   */
  lemma CardCancelsThisSession(F: seq<byte> -> seq<byte>, channel: nat, mss: nat, transactionId: seq<byte>,
                               reason: DerInteger.long, req: seq<byte>, script: Script)
    requires 1 <= mss <= BODY && FitsAll(Request(transactionId, DerInteger.Encoding(reason)))
    requires |DerInteger.Encoding(reason)| <= REASON_SIZE
    requires req == EncAll(Request(transactionId, DerInteger.Encoding(reason))) && |req| <= BODY
    requires |script| >= TransportFacts.Segments(mss, req) + |F(req)|
    requires TransportFacts.Honest(F, TransportFacts.Card(channel, [], [], 0),
               Cancelled(channel, mss, transactionId, DerInteger.Encoding(reason), script).sent, script)
    ensures Decode(Deep, req) == Some(Request(transactionId, DerInteger.Encoding(reason)))
    ensures DerInteger.Signed(DerInteger.Encoding(reason)) == reason
    ensures var text := Cancelled(channel, mss, transactionId, DerInteger.Encoding(reason), script).text;
            && (text.Some? <==> Answer(F(req)).Some?)
            && (text.Some? ==> Carries(text.value, Answer(F(req)).value))
  {
    hide CommandRun, Answer, EncAll, Decode, Base64.Decoded, Base64.Encoded, Base64.Alphabetic, Base64.InAlphabet,
         TransportFacts.Honest, TransportFacts.Segments;
    var octets := DerInteger.Encoding(reason);
    RequestDecodes(transactionId, octets);
    DerInteger.EncodingStandsForValue(reason);
    NotEmpty(transactionId, octets);
    TransportFacts.Transparent(F, channel, mss, req, script);
    if Answer(F(req)).Some? {
      Base64.DecodeEncode(Answer(F(req)).value);
    }
  }

  lemma NotEmpty(transactionId: seq<byte>, reason: seq<byte>)
    requires FitsAll(Request(transactionId, reason))
    ensures EncAll(Request(transactionId, reason)) != []
  {
    hide Fits, Content, TagOctets, LengthOctets;
  }
}
