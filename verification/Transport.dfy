/**
 * The ES10x transport of lpac/euicc/euicc.c over the shared request buffer of
 * lpac/euicc/interface.c: a request is cut into STORE DATA segments and the
 * answer is fetched piece by piece with GET RESPONSE (section 5.7.2 of SGP.22).
 */
module Transport {
  import opened Bytes

  const HEADER: nat := 5
  const BODY: nat := 255

  /**
   * What the other end of the link does, one entry per transmission: the octets
   * it answers, status word last, or None when transmitting fails. An exhausted
   * script fails too, so every finite behaviour of a card is some script.
   */
  type Script = seq<Option<seq<byte>>>

  /** Everything a caller or an observer of the link sees of a run. */
  datatype Run = Run(ok: bool, sent: seq<seq<byte>>, data: seq<byte>, rest: Script)

  function Cla(channel: nat): byte {
    0x80 + channel % 16
  }

  function StoreData(channel: nat, reqseq: nat, last: bool, chunk: seq<byte>): seq<byte>
    requires |chunk| <= BODY
  {
    [Cla(channel), 0xE2, if last then 0x91 else 0x11, reqseq % 256, |chunk|] + chunk
  }

  function GetResponse(channel: nat, le: byte): seq<byte> {
    [Cla(channel), 0xC0, 0, 0, le]
  }

  function Sw1(rx: seq<byte>): byte
    requires 2 <= |rx|
  {
    rx[|rx| - 2]
  }

  function Payload(rx: seq<byte>): seq<byte>
    requires 2 <= |rx|
  {
    rx[..|rx| - 2]
  }

  function Then(sent: seq<seq<byte>>, data: seq<byte>, r: Run): Run {
    Run(r.ok, sent + r.sent, data + r.data, r.rest)
  }

  lemma ThenNothing(r: Run)
    ensures Then([], [], r) == r
  {
  }

  lemma PatchedCla(b: seq<byte>, r: seq<byte>, cla: byte, n: nat)
    requires 1 <= n <= |b| && HEADER <= |b| && r == [cla] + b[1..]
    ensures r[HEADER..] == b[HEADER..] && r[..n] == [cla] + b[1..n]
  {
  }

  /** One APDU and all the GET RESPONSEs it draws: lpac/euicc/euicc.c:18-54. */
  function IterRun(channel: nat, apdu: seq<byte>, script: Script): Run
    decreases |script|
  {
    if script == [] then Run(false, [apdu], [], [])
    else if script[0].None? || |script[0].value| < 2 then Run(false, [apdu], [], script[1..])
    else
      var rx := script[0].value;
      if Sw1(rx) == 0x61 then
        Then([apdu], Payload(rx), IterRun(channel, GetResponse(channel, Last(rx)), script[1..]))
      else
        Run(Sw1(rx) / 16 == 9, [apdu], Payload(rx), script[1..])
  }

  lemma IterStep(channel: nat, pre: seq<seq<byte>>, data: seq<byte>, apdu: seq<byte>, script: Script)
    ensures var r, rest := Then(pre, data, IterRun(channel, apdu, script)), if script == [] then [] else script[1..];
            if script == [] || script[0].None? || |script[0].value| < 2 then r == Run(false, pre + [apdu], data, rest)
            else
              var rx := script[0].value;
              if Sw1(rx) == 0x61 then
                r == Then(pre + [apdu], data + Payload(rx), IterRun(channel, GetResponse(channel, Last(rx)), rest))
              else r == Run(Sw1(rx) / 16 == 9, pre + [apdu], data + Payload(rx), rest)
  {
    hide Payload, GetResponse;
    if script != [] && script[0].Some? && |script[0].value| >= 2 && Sw1(script[0].value) == 0x61 {
      var next := IterRun(channel, GetResponse(channel, Last(script[0].value)), script[1..]);
      assert pre + ([apdu] + next.sent) == pre + [apdu] + next.sent;
      assert data + (Payload(script[0].value) + next.data) == data + Payload(script[0].value) + next.data;
    } else {
      assert data + [] == data;
    }
  }

  function Chunk(mss: nat, req: seq<byte>): (c: seq<byte>)
    ensures c <= req && |c| <= mss
  {
    if |req| > mss then req[..mss] else req
  }

  /** All segments of a request: lpac/euicc/euicc.c:79-110. */
  function CommandRun(channel: nat, mss: nat, reqseq: nat, req: seq<byte>, script: Script): Run
    requires 1 <= mss <= BODY
    decreases |req|
  {
    if req == [] then Run(true, [], [], script)
    else
      var c := Chunk(mss, req);
      var r := IterRun(channel, StoreData(channel, reqseq, |c| == |req|, c), script);
      if !r.ok then r
      else Then(r.sent, r.data, CommandRun(channel, mss, reqseq + 1, req[|c|..], r.rest))
  }

  lemma CommandStep(channel: nat, mss: nat, reqseq: nat, pre: seq<seq<byte>>, data: seq<byte>, req: seq<byte>,
                    script: Script)
    requires 1 <= mss <= BODY && req != []
    ensures var c := Chunk(mss, req);
            var r := IterRun(channel, StoreData(channel, reqseq, |c| == |req|, c), script);
            Then(pre, data, CommandRun(channel, mss, reqseq, req, script)) == (
              if !r.ok then Run(false, pre + r.sent, data + r.data, r.rest)
              else Then(pre + r.sent, data + r.data, CommandRun(channel, mss, reqseq + 1, req[|c|..], r.rest)))
  {
    hide IterRun, StoreData;
    var c := Chunk(mss, req);
    var r := IterRun(channel, StoreData(channel, reqseq, |c| == |req|, c), script);
    if r.ok {
      var next := CommandRun(channel, mss, reqseq + 1, req[|c|..], r.rest);
      assert pre + (r.sent + next.sent) == pre + r.sent + next.sent;
      assert data + (r.data + next.data) == data + r.data + next.data;
    }
  }

  lemma CommandDone(channel: nat, mss: nat, reqseq: nat, pre: seq<seq<byte>>, data: seq<byte>, req: seq<byte>,
                    script: Script)
    requires 1 <= mss <= BODY && req == []
    ensures Then(pre, data, CommandRun(channel, mss, reqseq, req, script)) == Run(true, pre, data, script)
  {
  }

  lemma StoreDataIs(channel: nat, reqseq: nat, last: bool, chunk: seq<byte>, b: seq<byte>)
    requires |chunk| <= BODY && HEADER + |chunk| <= |b|
    requires b == [0x80, 0xE2, if last then 0x91 else 0x11, reqseq % 256, |chunk|] + chunk + b[HEADER + |chunk|..]
    ensures [Cla(channel)] + b[1..HEADER + |chunk|] == StoreData(channel, reqseq, last, chunk)
    ensures b[0] == 0x80
  {
  }

  lemma SameTail(s: seq<byte>, t: seq<byte>, a: nat, b: nat)
    requires a <= b <= |s| == |t| && s[a..] == t[a..]
    ensures s[b..] == t[b..]
  {
    assert s[b..] == s[a..][b - a..] && t[b..] == t[a..][b - a..];
  }

  class Response {
    var data: seq<byte>
    var length: nat
    var sw1: byte
    var sw2: byte

    constructor ()
      ensures data == []
    {
      data, length, sw1, sw2 := [], 0, 0, 0;
    }
  }

  /** struct userdata_es10x_command: the response grown by the callback. */
  class UserData {
    var resp: seq<byte>

    constructor ()
      ensures resp == []
    {
      resp := [];
    }

    /** lpac/euicc/euicc.c:117-129, when realloc succeeds */
    method IterEs10xCommand(response: Response)
      modifies this
      ensures resp == old(resp) + response.data
    {
      resp := resp + response.data;
    }
  }

  class Ctx {
    const requestBuffer: array<byte>
    const mss: nat
    var logicChannel: nat
    var script: Script
    var sent: seq<seq<byte>>

    /** es10x_mss is a uint8_t that euicc_init never leaves at 0: lpac/euicc/euicc.c:158-160 */
    constructor (mss: nat, logicChannel: nat, script: Script)
      requires mss <= 255
      ensures Valid() && fresh(requestBuffer)
      ensures this.mss == (if mss == 0 then 120 else mss) && this.logicChannel == logicChannel
      ensures this.script == script && sent == []
    {
      requestBuffer := new byte[HEADER + BODY](_ => 0);
      this.mss := if mss == 0 then 120 else mss;
      this.logicChannel := logicChannel;
      this.script := script;
      sent := [];
    }

    ghost predicate Valid() {
      requestBuffer.Length == HEADER + BODY && 1 <= mss <= BODY
    }

    /** The five header octets of the request: lpac/euicc/interface.c:7-37. */
    method Header(cla: byte, ins: byte, p1: byte, p2: byte, length: byte)
      requires Valid()
      modifies requestBuffer
      ensures requestBuffer[..] == [cla, ins, p1, p2, length] + old(requestBuffer[HEADER..])
    {
      requestBuffer[0], requestBuffer[1] := cla, ins;
      requestBuffer[2], requestBuffer[3], requestBuffer[4] := p1, p2, length;
    }

    /** lpac/euicc/euicc.c:12-16 and lpac/euicc/interface.c:39-60 */
    method Transmit(response: Response, reqLen: nat) returns (ret: int)
      requires Valid() && 1 <= reqLen <= requestBuffer.Length
      modifies this`script, this`sent, requestBuffer, response
      ensures requestBuffer[..] == [old(requestBuffer[0]) / 16 * 16 + logicChannel % 16] + old(requestBuffer[1..])
      ensures sent == old(sent) + [requestBuffer[..reqLen]]
      ensures script == if old(script) == [] then [] else old(script)[1..]
      ensures ret == if old(script) != [] && old(script)[0].Some? && 2 <= |old(script)[0].value| then 0 else -1
      ensures ret == 0 ==>
                var rx := old(script)[0].value;
                && response.data == Payload(rx) && response.length == |response.data|
                && response.sw1 == Sw1(rx) && response.sw2 == Last(rx)
    {
      requestBuffer[0] := requestBuffer[0] / 16 * 16 + logicChannel % 16;
      response.data, response.length, response.sw1, response.sw2 := [], 0, 0, 0;
      sent := sent + [requestBuffer[..reqLen]];
      if script == [] {
        return -1;
      }
      var rx := script[0];
      script := script[1..];
      if rx.None? || |rx.value| < 2 {
        return -1;
      }
      response.length := |rx.value|;
      response.sw1 := rx.value[response.length - 2];
      response.sw2 := rx.value[response.length - 1];
      response.length := response.length - 2;
      response.data := rx.value[..response.length];
      return 0;
    }

    /** One GET RESPONSE: lpac/euicc/euicc.c:37-43. */
    method FetchMore(response: Response, le: byte) returns (ret: int)
      requires Valid()
      modifies this`script, this`sent, requestBuffer, response
      ensures requestBuffer[HEADER..] == old(requestBuffer[HEADER..])
      ensures sent == old(sent) + [GetResponse(logicChannel, le)]
      ensures script == if old(script) == [] then [] else old(script)[1..]
      ensures ret == if old(script) != [] && old(script)[0].Some? && 2 <= |old(script)[0].value| then 0 else -1
      ensures ret == 0 ==>
                var rx := old(script)[0].value;
                && response.data == Payload(rx) && response.length == |response.data|
                && response.sw1 == Sw1(rx) && response.sw2 == Last(rx)
    {
      hide Payload;
      Header(0x80, 0xC0, 0, 0, le);
      ghost var request := requestBuffer[..];
      ret := Transmit(response, HEADER);
      PatchedCla(request, requestBuffer[..], Cla(logicChannel), HEADER);
      assert request[1..HEADER] == [0xC0, 0, 0, le];
      assert requestBuffer[..HEADER] == requestBuffer[..][..HEADER] == GetResponse(logicChannel, le);
    }

    /** lpac/euicc/euicc.c:18-54. The body of the request buffer is left alone. */
    method TransmitIter(reqLen: nat, ud: UserData) returns (ret: int)
      requires Valid() && HEADER <= reqLen <= requestBuffer.Length
      requires requestBuffer[0] / 16 == 8
      modifies this`script, this`sent, requestBuffer, ud
      ensures requestBuffer[HEADER..] == old(requestBuffer[HEADER..])
      ensures var apdu := [Cla(logicChannel)] + old(requestBuffer[1..reqLen]);
              var r := IterRun(logicChannel, apdu, old(script));
              && ret == (if r.ok then 0 else -1) && script == r.rest
              && sent == old(sent) + r.sent && ud.resp == old(ud.resp) + r.data
    {
      hide IterRun, Then, Payload;
      var response := new Response();
      ghost var was := requestBuffer[..];
      assert was[1..reqLen] == requestBuffer[1..reqLen] && was[HEADER..] == requestBuffer[HEADER..];
      ghost var apdu, before := [Cla(logicChannel)] + was[1..reqLen], script;
      ghost var pre: seq<seq<byte>>, data: seq<byte> := [], [];
      ghost var whole := IterRun(logicChannel, apdu, script);
      assert whole == Then(pre, data, whole) by { ThenNothing(whole); }
      IterStep(logicChannel, pre, data, apdu, before);
      ret := Transmit(response, reqLen);
      PatchedCla(was, requestBuffer[..], Cla(logicChannel), reqLen);
      if ret < 0 {
        return -1;
      }
      while true
        invariant before != [] && before[0].Some? && 2 <= |before[0].value| && script == before[1..]
        invariant response.data == Payload(before[0].value) && response.length == |response.data|
        invariant response.sw1 == Sw1(before[0].value) && response.sw2 == Last(before[0].value)
        invariant fresh(response) && requestBuffer[..][HEADER..] == was[HEADER..]
        invariant sent == old(sent) + pre + [apdu] && ud.resp == old(ud.resp) + data
        invariant whole == Then(pre, data, IterRun(logicChannel, apdu, before))
        decreases |before|
      {
        if response.length > 0 {
          ud.IterEs10xCommand(response);
        }
        assert ud.resp == old(ud.resp) + data + response.data;
        IterStep(logicChannel, pre, data, apdu, before);
        var sw1, sw2 := response.sw1, response.sw2;
        if sw1 != 0x61 {
          return if sw1 / 16 == 9 then 0 else -1;
        }
        data := data + Payload(before[0].value);
        assert old(sent) + (pre + [apdu]) == sent;
        pre := pre + [apdu];
        before := script;
        apdu := GetResponse(logicChannel, sw2);
        ret := FetchMore(response, sw2);
        IterStep(logicChannel, pre, data, apdu, before);
        if ret < 0 {
          return -1;
        }
      }
    }

    /** lpac/euicc/euicc.c:56-77 */
    method BuildRequest(p1: byte, p2: byte, src: array<byte>, from: nat, n: nat) returns (ret: nat)
      requires Valid() && n <= BODY && from + n <= src.Length
      requires src == requestBuffer ==> from == HEADER || HEADER + n <= from
      modifies requestBuffer
      ensures ret == HEADER + n
      ensures requestBuffer[..]
           == [0x80, 0xE2, p1, p2, n] + old(src[from..from + n]) + old(requestBuffer[HEADER + n..])
    {
      ghost var data, was := src[from..from + n], requestBuffer[..];
      Header(0x80, 0xE2, p1, p2, n);
      assert src[from..from + n] == data;
      Memcpy(requestBuffer, HEADER, src, from, n);
      ret := HEADER + n;
    }

    /**
     * Building and sending one segment, lpac/euicc/euicc.c:89-103. What src
     * holds behind the segment stays as it was, even when src is the buffer.
     */
    method SendSegment(last: bool, reqseq: nat, src: array<byte>, from: nat, n: nat, ud: UserData) returns (ret: int)
      requires Valid() && n <= BODY && from + n <= src.Length
      requires src == requestBuffer ==> from == HEADER || HEADER + n <= from
      modifies this`script, this`sent, requestBuffer, ud
      ensures src[from + n..] == old(src[from + n..])
      ensures var apdu := StoreData(logicChannel, reqseq, last, old(src[from..from + n]));
              var r := IterRun(logicChannel, apdu, old(script));
              && ret == (if r.ok then 0 else -1) && script == r.rest
              && sent == old(sent) + r.sent && ud.resp == old(ud.resp) + r.data
    {
      hide IterRun, StoreData;
      ghost var chunk, was := src[from..from + n], src[..];
      var len := BuildRequest(if last then 0x91 else 0x11, reqseq % 256, src, from, n);
      StoreDataIs(logicChannel, reqseq, last, chunk, requestBuffer[..]);
      ghost var built := requestBuffer[..];
      assert built[1..len] == requestBuffer[1..len];
      ret := TransmitIter(len, ud);
      if src == requestBuffer {
        assert requestBuffer[..][HEADER..] == built[HEADER..];
        assert built[HEADER + n..] == was[HEADER + n..];
        SameTail(requestBuffer[..], built, HEADER, from + n);
        SameTail(built, was, HEADER + n, from + n);
      }
      assert src[..][from + n..] == was[from + n..];
    }

    /**
     * lpac/euicc/euicc.c:79-110. The request may lie in the body of the request
     * buffer itself.
     */
    method CommandIter(src: array<byte>, derReq: nat, reqLen: nat, ud: UserData) returns (ret: int)
      requires Valid() && derReq + reqLen <= src.Length
      requires src == requestBuffer ==> derReq == HEADER
      modifies this`script, this`sent, requestBuffer, ud
      ensures var r := CommandRun(logicChannel, mss, 0, old(src[derReq..derReq + reqLen]), old(script));
              && ret == (if r.ok then 0 else -1) && script == r.rest
              && sent == old(sent) + r.sent && ud.resp == old(ud.resp) + r.data
    {
      hide IterRun, CommandRun, Then, StoreData;
      ghost var req := src[derReq..derReq + reqLen];
      ghost var whole := CommandRun(logicChannel, mss, 0, req, script);
      ghost var pre: seq<seq<byte>>, data: seq<byte> := [], [];
      assert whole == Then(pre, data, whole) by { ThenNothing(whole); }
      var reqseq: nat, reqPtr: nat, left: nat := 0, derReq, reqLen;
      while left != 0
        invariant left <= reqLen && reqPtr + left == derReq + reqLen
        invariant src == requestBuffer && 0 < left < reqLen ==> HEADER + mss <= reqPtr
        invariant src[reqPtr..reqPtr + left] == req
        invariant sent == old(sent) + pre && ud.resp == old(ud.resp) + data
        invariant whole == Then(pre, data, CommandRun(logicChannel, mss, reqseq, req, script))
      {
        CommandStep(logicChannel, mss, reqseq, pre, data, req, script);
        var rlen := if left > mss then mss else left;
        ghost var c := Chunk(mss, req);
        ghost var iter := IterRun(logicChannel, StoreData(logicChannel, reqseq, rlen == left, c), script);
        ghost var tail := src[reqPtr + rlen..];
        assert c == src[reqPtr..reqPtr + rlen];
        var r := SendSegment(rlen == left, reqseq, src, reqPtr, rlen, ud);
        left := left - rlen;
        pre, data := pre + iter.sent, data + iter.data;
        if r < 0 {
          return -1;
        }
        reqPtr := reqPtr + rlen;
        reqseq := reqseq + 1;
        assert src[reqPtr..reqPtr + left] == tail[..left] == req[rlen..];
        req := req[rlen..];
      }
      CommandDone(logicChannel, mss, reqseq, pre, data, req, script);
      return 0;
    }

    /** lpac/euicc/euicc.c:131-148 */
    method Command(src: array<byte>, derReq: nat, reqLen: nat) returns (ret: int, resp: seq<byte>)
      requires Valid() && derReq + reqLen <= src.Length
      requires src == requestBuffer ==> derReq == HEADER
      modifies this`script, this`sent, requestBuffer
      ensures var r := CommandRun(logicChannel, mss, 0, old(src[derReq..derReq + reqLen]), old(script));
              && ret == (if r.ok then 0 else -1) && resp == (if r.ok then r.data else [])
              && sent == old(sent) + r.sent && script == r.rest
    {
      var ud := new UserData();
      ret := CommandIter(src, derReq, reqLen, ud);
      if ret < 0 {
        return -1, [];
      }
      resp := ud.resp;
    }
  }
}
