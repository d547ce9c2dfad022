/**
 * What the transport promises: the card receives exactly the request, and
 * against a card that follows the protocol the caller receives exactly the
 * card's answer.
 */
module TransportFacts {
  import opened Bytes
  import opened Transport

  predicate IsStore(apdu: seq<byte>) {
    HEADER <= |apdu| && apdu[1] == 0xE2
  }

  /** The STORE DATA commands among those sent, in order. */
  function Stores(sent: seq<seq<byte>>): seq<seq<byte>> {
    if sent == [] then [] else StoreIn(sent[0]) + Stores(sent[1..])
  }

  function StoreIn(apdu: seq<byte>): seq<seq<byte>> {
    if IsStore(apdu) then [apdu] else []
  }

  lemma {:induction false} StoresAppend(a: seq<seq<byte>>, b: seq<seq<byte>>)
    ensures Stores(a + b) == Stores(a) + Stores(b)
  {
    hide StoreIn;
    if a == [] {
      assert a + b == b;
    } else {
      StoresAppend(a[1..], b);
      assert (a + b)[1..] == a[1..] + b;
      assert Stores(a + b) == StoreIn(a[0]) + (Stores(a[1..]) + Stores(b));
    }
  }

  lemma {:induction false} IterStores(channel: nat, apdu: seq<byte>, script: Script)
    ensures Stores(IterRun(channel, apdu, script).sent) == Stores([apdu])
    decreases |script|
  {
    if script != [] && script[0].Some? && |script[0].value| >= 2 && Sw1(script[0].value) == 0x61 {
      var get := GetResponse(channel, Last(script[0].value));
      IterStores(channel, get, script[1..]);
      StoresAppend([apdu], IterRun(channel, get, script[1..]).sent);
    }
  }

  /** The data field of a command. */
  function Field(apdu: seq<byte>): seq<byte> {
    if HEADER <= |apdu| then apdu[HEADER..] else []
  }

  /** The data fields of the commands, joined. */
  function Data(apdus: seq<seq<byte>>): seq<byte> {
    if apdus == [] then [] else Field(apdus[0]) + Data(apdus[1..])
  }

  /**
   * apdu is a STORE DATA command with block number reqseq modulo 256 whose
   * length octet is true. A last block carries 1 to mss octets, any other
   * exactly mss.
   */
  predicate IsBlock(apdu: seq<byte>, channel: nat, mss: nat, reqseq: nat, last: bool) {
    && HEADER < |apdu| <= HEADER + mss && (!last ==> |apdu| == HEADER + mss)
    && apdu[0] == Cla(channel) && apdu[1] == 0xE2 && apdu[2] == (if last then 0x91 else 0x11)
    && apdu[3] == reqseq % 256 && apdu[4] == |apdu| - HEADER
  }

  /** ss are blocks of req from its start; only the one that completes it is marked last. */
  predicate Blocks(ss: seq<seq<byte>>, channel: nat, mss: nat, reqseq: nat, req: seq<byte>) {
    && Data(ss) <= req
    && forall k :: 0 <= k < |ss| ==> IsBlock(ss[k], channel, mss, reqseq + k, k == |ss| - 1 && Data(ss) == req)
  }

  lemma BlocksCons(first: seq<byte>, tail: seq<seq<byte>>, channel: nat, mss: nat, reqseq: nat, c: seq<byte>,
                   rest: seq<byte>)
    requires IsBlock(first, channel, mss, reqseq, rest == []) && Data([first]) == c
    requires Blocks(tail, channel, mss, reqseq + 1, rest)
    requires rest == [] ==> tail == []
    ensures Blocks([first] + tail, channel, mss, reqseq, c + rest)
    ensures Data([first] + tail) == c + Data(tail)
  {
    hide IsBlock;
    var ss := [first] + tail;
    assert Data([first]) == c + Data([]);
    assert ss[1..] == tail;
    assert Data(ss) == c + Data(tail);
    assert Data(ss) == c + rest ==> Data(tail) == rest by {
      if Data(ss) == c + rest {
        assert Data(tail) == Data(ss)[|c|..] == (c + rest)[|c|..] == rest;
      }
    }
    forall k | 0 <= k < |ss|
      ensures IsBlock(ss[k], channel, mss, reqseq + k, k == |ss| - 1 && Data(ss) == c + rest)
    {
      if k > 0 {
        assert ss[k] == tail[k - 1];
      } else if tail == [] && rest != [] {
        assert Data(ss) == c;
      } else if tail != [] {
        assert rest != [];
      }
    }
  }

  /**
   * Segmentation is exact. The data fields of the STORE DATA commands join to
   * the request when the run succeeds, and to an initial part of it when not;
   * only the command that completes the request is marked last.
   */
  lemma {:induction false} Segmented(channel: nat, mss: nat, reqseq: nat, req: seq<byte>, script: Script)
    requires 1 <= mss <= BODY
    ensures var r := CommandRun(channel, mss, reqseq, req, script);
            && Blocks(Stores(r.sent), channel, mss, reqseq, req)
            && (r.ok ==> Data(Stores(r.sent)) == req)
            && (req == [] ==> r.sent == [])
    decreases |req|
  {
    hide IterRun, StoreData, IsBlock, Stores, Data, Blocks;
    if req == [] {
      NoBlocks(channel, mss, reqseq, []);
    } else {
      var c := Chunk(mss, req);
      var first := StoreData(channel, reqseq, |c| == |req|, c);
      var r := IterRun(channel, first, script);
      IterStores(channel, first, script);
      OneStore(channel, mss, reqseq, |c| == |req|, c);
      var rest := req[|c|..];
      assert req == c + rest;
      var next := CommandRun(channel, mss, reqseq + 1, rest, r.rest);
      Segmented(channel, mss, reqseq + 1, rest, r.rest);
      var tail := if r.ok then Stores(next.sent) else [];
      NoBlocks(channel, mss, reqseq + 1, rest);
      BlocksCons(first, tail, channel, mss, reqseq, c, rest);
      if r.ok {
        StoresAppend(r.sent, next.sent);
      } else {
        assert [first] + tail == [first];
      }
    }
  }

  lemma NoBlocks(channel: nat, mss: nat, reqseq: nat, rest: seq<byte>)
    ensures Stores([]) == [] && Data([]) == [] && Blocks([], channel, mss, reqseq, rest)
  {
  }

  lemma OneStore(channel: nat, mss: nat, reqseq: nat, last: bool, c: seq<byte>)
    requires 1 <= |c| <= mss <= BODY && (!last ==> |c| == mss)
    ensures var apdu := StoreData(channel, reqseq, last, c);
            Stores([apdu]) == [apdu] && Data([apdu]) == c && IsBlock(apdu, channel, mss, reqseq, last)
  {
    var apdu := StoreData(channel, reqseq, last, c);
    assert apdu[HEADER..] == c;
    assert Data([apdu]) == c + Data([]);
  }

  // ---- What follows an answer

  /** A GET RESPONSE for le octets: section 5.7.2 of SGP.22. */
  predicate IsGet(apdu: seq<byte>, channel: nat, le: byte) {
    |apdu| == 5 && apdu[0] / 16 == 8 && apdu[0] % 16 == channel % 16 && apdu[1] == 0xC0 && apdu[2] == 0 && apdu[3] == 0
    && apdu[4] == le
  }

  /** What is sent once rx has come: more is fetched in the length announced, and otherwise the next block goes out. */
  predicate Follows(channel: nat, rx: Option<seq<byte>>, apdu: seq<byte>) {
    rx.Some? && 2 <= |rx.value| &&
    if rx.value[|rx.value| - 2] == 0x61 then IsGet(apdu, channel, rx.value[|rx.value| - 1])
    else rx.value[|rx.value| - 2] / 16 == 9 && IsStore(apdu) && apdu[0] / 16 == 8 && apdu[0] % 16 == channel % 16
  }

  /** Every command but the first is what the answer to the one before it calls for. */
  ghost predicate InTurn(channel: nat, sent: seq<seq<byte>>, script: Script) {
    |sent| <= |script| + 1 && forall i :: 1 <= i < |sent| ==> Follows(channel, script[i - 1], sent[i])
  }

  /** In one command's exchange, everything after the first command is a GET RESPONSE for what was just announced. */
  lemma {:induction false} IterInTurn(channel: nat, apdu: seq<byte>, script: Script)
    ensures var r := IterRun(channel, apdu, script);
            && r.sent != [] && r.sent[0] == apdu
            && InTurn(channel, r.sent, script)
            && (forall i :: 1 <= i < |r.sent| ==> r.sent[i][1] == 0xC0)
            && (r.ok ==> |r.sent| <= |script| && r.rest == script[|r.sent|..]
                         && script[|r.sent| - 1].Some? && 2 <= |script[|r.sent| - 1].value|
                         && script[|r.sent| - 1].value[|script[|r.sent| - 1].value| - 2] / 16 == 9)
    decreases |script|
  {
    hide Payload;
    if script != [] && script[0].Some? && |script[0].value| >= 2 && Sw1(script[0].value) == 0x61 {
      var get := GetResponse(channel, Last(script[0].value));
      IterInTurn(channel, get, script[1..]);
      var next := IterRun(channel, get, script[1..]);
      assert IterRun(channel, apdu, script).sent == [apdu] + next.sent;
    }
  }

  /** Over a whole request, whatever the card does. */
  lemma {:induction false} CommandInTurn(channel: nat, mss: nat, reqseq: nat, req: seq<byte>, script: Script)
    requires 1 <= mss <= BODY
    ensures var r := CommandRun(channel, mss, reqseq, req, script);
            InTurn(channel, r.sent, script) && (r.sent != [] ==> IsStoreOn(r.sent[0], channel))
    decreases |req|
  {
    hide IterRun, Follows;
    if req != [] {
      var c := Chunk(mss, req);
      var apdu := StoreData(channel, reqseq, |c| == |req|, c);
      var it := IterRun(channel, apdu, script);
      IterInTurn(channel, apdu, script);
      if it.ok {
        var next := CommandRun(channel, mss, reqseq + 1, req[|c|..], it.rest);
        CommandInTurn(channel, mss, reqseq + 1, req[|c|..], it.rest);
        InTurnJoins(channel, it.sent, next.sent, script);
      }
    }
  }

  predicate IsStoreOn(apdu: seq<byte>, channel: nat) {
    IsStore(apdu) && apdu[0] / 16 == 8 && apdu[0] % 16 == channel % 16
  }

  lemma InTurnJoins(channel: nat, a: seq<seq<byte>>, b: seq<seq<byte>>, script: Script)
    requires a != [] && InTurn(channel, a, script) && |a| <= |script| && InTurn(channel, b, script[|a|..])
    requires b != [] ==> IsStoreOn(b[0], channel)
    requires script[|a| - 1].Some? && 2 <= |script[|a| - 1].value|
    requires script[|a| - 1].value[|script[|a| - 1].value| - 2] / 16 == 9
    ensures InTurn(channel, a + b, script)
  {
    var sent := a + b;
    forall i | 1 <= i < |sent|
      ensures Follows(channel, script[i - 1], sent[i])
    {
      if i > |a| {
        assert script[|a|..][i - |a| - 1] == script[i - 1];
        assert Follows(channel, script[|a|..][i - |a| - 1], b[i - |a|]);
      } else if i < |a| {
        assert sent[i] == a[i];
      }
    }
  }

  // ---- A card that follows the protocol

  /**
   * Such a card, seen over one command: its channel, the request octets it has chained so far, the part of
   * its answer not yet fetched, and the length it has announced for the next part.
   */
  datatype Card = Card(channel: nat, received: seq<byte>, pending: seq<byte>, due: byte)

  /** A well-formed block on the card's channel, or a GET RESPONSE for just what is announced. */
  predicate Understands(c: Card, apdu: seq<byte>) {
    if IsStore(apdu) then IsStoreOn(apdu, c.channel) && apdu[4] == |apdu| - HEADER
    else c.pending != [] && IsGet(apdu, c.channel, c.due)
  }

  /** What the card owes once it has taken apdu: its full answer F to a completed request, or the rest of it. */
  function Owed(F: seq<byte> -> seq<byte>, c: Card, apdu: seq<byte>): seq<byte> {
    if !IsStore(apdu) then c.pending
    else if apdu[2] == 0x91 then F(c.received + Field(apdu))
    else []
  }

  /**
   * rx is an answer the card may give to what it understands: any leading part of what it owes, then 61xx when
   * more is left and 9xxx when not. Fetching must make progress. Anything else it turns down.
   */
  predicate Answers(F: seq<byte> -> seq<byte>, c: Card, apdu: seq<byte>, rx: seq<byte>) {
    2 <= |rx| &&
    var data, sw1 := rx[..|rx| - 2], rx[|rx| - 2];
    if Understands(c, apdu) then
      && data <= Owed(F, c, apdu)
      && (if data == Owed(F, c, apdu) then sw1 / 16 == 9 else sw1 == 0x61)
      && (!IsStore(apdu) ==> data != [])
    else data == [] && sw1 != 0x61 && sw1 / 16 != 9
  }

  function Next(F: seq<byte> -> seq<byte>, c: Card, apdu: seq<byte>, rx: seq<byte>): Card
    requires Answers(F, c, apdu, rx)
  {
    if !Understands(c, apdu) then c
    else
      Card(c.channel,
           if !IsStore(apdu) then c.received else if apdu[2] == 0x91 then [] else c.received + Field(apdu),
           Owed(F, c, apdu)[|rx| - 2..], rx[|rx| - 1])
  }

  /** As far as the script goes, it is how such a card, starting as c, answers what is sent. */
  predicate Honest(F: seq<byte> -> seq<byte>, c: Card, sent: seq<seq<byte>>, script: Script)
    decreases |sent|
  {
    sent == [] || script == [] || (
      && script[0].Some? && Answers(F, c, sent[0], script[0].value)
      && Honest(F, Next(F, c, sent[0], script[0].value), sent[1..], script[1..]))
  }

  /** The card after it has answered everything sent. */
  function After(F: seq<byte> -> seq<byte>, c: Card, sent: seq<seq<byte>>, script: Script): Card
    requires Honest(F, c, sent, script) && |sent| <= |script|
    decreases |sent|
  {
    if sent == [] then c
    else After(F, Next(F, c, sent[0], script[0].value), sent[1..], script[1..])
  }

  lemma {:induction false} HonestAppend(F: seq<byte> -> seq<byte>, c: Card, a: seq<seq<byte>>, b: seq<seq<byte>>,
                                        script: Script)
    requires Honest(F, c, a + b, script)
    ensures Honest(F, c, a, script)
    ensures |a| <= |script| ==> Honest(F, After(F, c, a, script), b, script[|a|..])
    decreases |a|
  {
    hide Answers, Next;
    if a == [] {
      assert a + b == b;
    } else if script != [] {
      assert (a + b)[1..] == a[1..] + b;
      HonestAppend(F, Next(F, c, a[0], script[0].value), a[1..], b, script[1..]);
      if |a| <= |script| {
        assert script[1..][|a| - 1..] == script[|a|..];
      }
    }
  }

  /** How many transmissions apdu can draw from the card at most. */
  function Need(F: seq<byte> -> seq<byte>, c: Card, apdu: seq<byte>): nat {
    |Owed(F, c, apdu)| + if IsStore(apdu) then 1 else 0
  }

  lemma NeedsOne(F: seq<byte> -> seq<byte>, c: Card, apdu: seq<byte>)
    requires Understands(c, apdu)
    ensures Need(F, c, apdu) >= 1
  {
  }

  /** What the first part of an answer leaves to fetch. */
  lemma AnswerTaken(F: seq<byte> -> seq<byte>, c: Card, apdu: seq<byte>, rx: seq<byte>)
    requires Answers(F, c, apdu, rx) && Understands(c, apdu)
    ensures 2 <= |rx| && (Sw1(rx) == 0x61 || Sw1(rx) / 16 == 9)
    ensures var c' := Next(F, c, apdu, rx);
            && c'.channel == c.channel && c'.due == Last(rx)
            && Payload(rx) + c'.pending == Owed(F, c, apdu) && (c'.pending != [] <==> Sw1(rx) == 0x61)
            && (!IsStore(apdu) ==> Payload(rx) != [])
            && c'.received == if !IsStore(apdu) then c.received
                              else if apdu[2] == 0x91 then [] else c.received + Field(apdu)
  {
    hide Understands, Owed, Field;
  }

  /** One command and its GET RESPONSEs fetch all the card owes, however the card splits it. */
  lemma {:induction false} IterFetches(F: seq<byte> -> seq<byte>, channel: nat, apdu: seq<byte>, script: Script,
                                       c: Card)
    requires Honest(F, c, IterRun(channel, apdu, script).sent, script)
    requires Understands(c, apdu) && c.channel == channel
    ensures var r := IterRun(channel, apdu, script);
            && |r.sent| <= Need(F, c, apdu)
            && (|r.sent| <= |script| ==>
                  && r.ok && r.data == Owed(F, c, apdu) && r.rest == script[|r.sent|..]
                  && After(F, c, r.sent, script).pending == []
                  && After(F, c, r.sent, script).channel == channel
                  && After(F, c, r.sent, script).received
                     == (if !IsStore(apdu) then c.received
                         else if apdu[2] == 0x91 then [] else c.received + Field(apdu)))
    decreases |script|
  {
    NeedsOne(F, c, apdu);
    hide Field, Answers, Next, Understands, Owed, IsStore, Payload, GetResponse;
    var r := IterRun(channel, apdu, script);
    if script != [] {
      var rx := script[0].value;
      assert Answers(F, c, apdu, rx);
      AnswerTaken(F, c, apdu, rx);
      var c' := Next(F, c, apdu, rx);
      if Sw1(rx) == 0x61 {
        var get := GetResponse(channel, Last(rx));
        var next := IterRun(channel, get, script[1..]);
        assert r.sent[1..] == next.sent;
        OwedByGet(F, channel, c', Last(rx));
        IterFetches(F, channel, get, script[1..], c');
      }
    }
  }

  lemma OwedByGet(F: seq<byte> -> seq<byte>, channel: nat, c: Card, le: byte)
    ensures Owed(F, c, GetResponse(channel, le)) == c.pending && !IsStore(GetResponse(channel, le))
    ensures c.channel == channel && c.due == le && c.pending != [] ==> Understands(c, GetResponse(channel, le))
  {
  }

  /** The number of STORE DATA commands a request takes. */
  function Segments(mss: nat, req: seq<byte>): nat
    requires 1 <= mss
    decreases |req|
  {
    if req == [] then 0 else 1 + Segments(mss, req[|Chunk(mss, req)|..])
  }

  /** One segment is answered by nothing, the last one by all of F, unless the script ends first. */
  lemma SegmentFetches(F: seq<byte> -> seq<byte>, channel: nat, mss: nat, reqseq: nat, req: seq<byte>,
                       script: Script, c: Card)
    requires 1 <= mss <= BODY && req != [] && c.pending == [] && c.channel == channel
    requires Honest(F, c, CommandRun(channel, mss, reqseq, req, script).sent, script)
    ensures var k := Chunk(mss, req);
            var it := IterRun(channel, StoreData(channel, reqseq, |k| == |req|, k), script);
            var r := CommandRun(channel, mss, reqseq, req, script);
            var data := if |k| == |req| then F(c.received + req) else [];
            && |it.sent| <= 1 + |data| && Honest(F, c, it.sent, script)
            && if |it.sent| > |script| then r == it
               else
                 var next := CommandRun(channel, mss, reqseq + 1, req[|k|..], it.rest);
                 var c' := After(F, c, it.sent, script);
                 && it.rest == script[|it.sent|..] && r == Then(it.sent, data, next)
                 && c'.pending == [] && c'.channel == channel && (|k| < |req| ==> c'.received == c.received + k)
                 && Honest(F, c', next.sent, it.rest)
  {
    hide IterRun, Answers, Next, Honest, After, StoreData, Owed;
    var k := Chunk(mss, req);
    var apdu := StoreData(channel, reqseq, |k| == |req|, k);
    var it := IterRun(channel, apdu, script);
    StoreOwes(F, c, channel, reqseq, |k| == |req|, k);
    assert |k| == |req| ==> k == req;
    var next := CommandRun(channel, mss, reqseq + 1, req[|k|..], it.rest);
    assert it.sent + [] == it.sent;
    HonestAppend(F, c, it.sent, if it.ok then next.sent else [], script);
    IterAnswered(channel, apdu, script);
    IterFetches(F, channel, apdu, script, c);
  }

  lemma {:induction false} CommandFetches(F: seq<byte> -> seq<byte>, channel: nat, mss: nat, reqseq: nat,
                                          req: seq<byte>, script: Script, c: Card)
    requires 1 <= mss <= BODY && req != [] && c.pending == [] && c.channel == channel
    requires Honest(F, c, CommandRun(channel, mss, reqseq, req, script).sent, script)
    ensures var r := CommandRun(channel, mss, reqseq, req, script);
            && |r.sent| <= Segments(mss, req) + |F(c.received + req)|
            && (|r.sent| <= |script| ==>
                  r.ok && r.data == F(c.received + req) && r.rest == script[|r.sent|..])
    decreases |req|
  {
    hide IterRun, CommandRun, Honest, After, StoreData;
    SegmentFetches(F, channel, mss, reqseq, req, script, c);
    var k := Chunk(mss, req);
    var it := IterRun(channel, StoreData(channel, reqseq, |k| == |req|, k), script);
    var rest := req[|k|..];
    if |it.sent| <= |script| {
      var next := CommandRun(channel, mss, reqseq + 1, rest, it.rest);
      if |k| == |req| {
        CommandDone(channel, mss, reqseq + 1, [], [], rest, it.rest);
        ThenNothing(next);
      } else {
        CommandFetches(F, channel, mss, reqseq + 1, rest, it.rest, After(F, c, it.sent, script));
        assert c.received + k + rest == c.received + req;
        if |it.sent| + |next.sent| <= |script| {
          assert script[|it.sent|..][|next.sent|..] == script[|it.sent| + |next.sent|..];
        }
      }
    }
  }

  lemma {:induction false} IterAnswered(channel: nat, apdu: seq<byte>, script: Script)
    ensures IterRun(channel, apdu, script).ok ==> |IterRun(channel, apdu, script).sent| <= |script|
    decreases |script|
  {
    if script != [] && script[0].Some? && |script[0].value| >= 2 {
      IterAnswered(channel, GetResponse(channel, Last(script[0].value)), script[1..]);
    }
  }

  lemma StoreOwes(F: seq<byte> -> seq<byte>, c: Card, channel: nat, reqseq: nat, last: bool, k: seq<byte>)
    requires |k| <= BODY
    ensures var apdu := StoreData(channel, reqseq, last, k);
            && IsStore(apdu) && (c.channel == channel ==> Understands(c, apdu))
            && Field(apdu) == k && apdu[2] == (if last then 0x91 else 0x11)
            && Owed(F, c, apdu) == if last then F(c.received + k) else []
  {
    assert StoreData(channel, reqseq, last, k)[HEADER..] == k;
  }

  /**
   * End-to-end transparency. When the card follows the protocol, a command ends
   * within as many transmissions as there are segments and answer octets, and if
   * the script lasts that long it returns exactly F of the request.
   */
  lemma Transparent(F: seq<byte> -> seq<byte>, channel: nat, mss: nat, req: seq<byte>, script: Script)
    requires 1 <= mss <= BODY && req != []
    requires Honest(F, Card(channel, [], [], 0), CommandRun(channel, mss, 0, req, script).sent, script)
    ensures var r := CommandRun(channel, mss, 0, req, script);
            && |r.sent| <= Segments(mss, req) + |F(req)|
            && (|script| >= Segments(mss, req) + |F(req)| ==> r.ok && r.data == F(req))
  {
    CommandFetches(F, channel, mss, 0, req, script, Card(channel, [], [], 0));
    assert [] + req == req;
  }

  /** Neither the segment size nor the way the card splits its answer shows in the result. */
  lemma SplittingDoesNotShow(F: seq<byte> -> seq<byte>, channel: nat, channel': nat, mss: nat, mss': nat,
                             req: seq<byte>, script: Script, script': Script)
    requires 1 <= mss <= BODY && 1 <= mss' <= BODY && req != []
    requires Honest(F, Card(channel, [], [], 0), CommandRun(channel, mss, 0, req, script).sent, script)
    requires Honest(F, Card(channel', [], [], 0), CommandRun(channel', mss', 0, req, script').sent, script')
    requires |script| >= Segments(mss, req) + |F(req)| && |script'| >= Segments(mss', req) + |F(req)|
    ensures var r, r' := CommandRun(channel, mss, 0, req, script), CommandRun(channel', mss', 0, req, script');
            r.ok && r'.ok && r.data == r'.data
  {
    Transparent(F, channel, mss, req, script);
    Transparent(F, channel', mss', req, script');
  }
}
