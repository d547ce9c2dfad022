/**
 * pysim/pySim/commands.py, lines 39-60, 83-88 and 297-388: reading and updating a transparent
 * file in chunks, against a card that holds one such file.
 */
module BinaryFile {
  import opened Bytes
  import Hex

  // ---- The class byte

  /** lchan_nr_to_cla; None is a ValueError. pysim/pySim/commands.py:39-55 */
  function LchanNrToCla(cla: byte, lchan: nat): Option<byte> {
    if lchan < 4 then
      if cla / 16 in [0x0, 0xA, 0x8] then Some(cla - cla % 4 + lchan % 4) else None
    else if lchan < 16 then
      if cla / 64 in [1, 3] then Some(cla - cla % 16 + (lchan - 4) % 16) else None
    else None
  }

  /** The logical channel that a class byte names: section 10.1.1 of TS 102 221. */
  function ChannelOf(cla: byte): nat {
    if cla / 64 in [1, 3] then 4 + cla % 16 else cla % 4
  }

  /** The class byte names the channel asked for, and keeps what is not the channel. */
  lemma ClassByteNamesTheChannel(cla: byte, lchan: nat)
    ensures var r := LchanNrToCla(cla, lchan);
            r.Some? ==>
              && ChannelOf(r.value) == lchan && r.value / 16 == cla / 16
              && (lchan < 4 ==> r.value / 4 == cla / 4)
  {
    var r := LchanNrToCla(cla, lchan);
    if r.Some? {
      var m, low := if lchan < 4 then 4 else 16, if lchan < 4 then lchan else lchan - 4;
      LowSmall(low, m);
      assert r.value == cla - cla % m + low;
      hide LchanNrToCla;
      LowReplaced(cla, low, m);
      Nibbles(cla);
      Nibbles(r.value);
    }
  }

  lemma LowSmall(low: nat, m: nat)
    requires low < m
    ensures low % m == low
  {
  }

  /**
   * A channel can be embedded exactly when the class byte is one for its range: 0X, 8X and AX for the
   * channels below 4, and those with bits 8 and 7 being 01 or 11 for the channels 4 to 15.
   */
  lemma EmbeddedExactly(cla: byte, lchan: nat)
    ensures LchanNrToCla(cla, lchan).Some? <==>
              || (lchan < 4 && (cla < 0x10 || 0x80 <= cla < 0x90 || 0xA0 <= cla < 0xB0))
              || (4 <= lchan < 16 && (0x40 <= cla < 0x80 || 0xC0 <= cla))
  {
  }

  /** Of two embeddings the last one counts. */
  lemma LastChannelCounts(cla: byte, lchan: nat, other: nat)
    ensures var r := LchanNrToCla(cla, lchan);
            r.Some? ==> LchanNrToCla(r.value, other) == LchanNrToCla(cla, other)
  {
    var r := LchanNrToCla(cla, lchan);
    if r.Some? {
      ClassByteNamesTheChannel(cla, lchan);
      Nibbles(cla);
      Nibbles(r.value);
      hide ChannelOf;
    }
  }

  lemma Nibbles(x: byte)
    ensures x / 16 == x / 4 / 4 && x / 64 == x / 16 / 4 && x % 4 == x % 16 % 4
  {
  }

  lemma LowReplaced(x: byte, low: nat, m: nat)
    requires m in [4, 16] && low < m
    ensures (x - x % m + low) / m == x / m && (x - x % m + low) % m == low
  {
  }

  // ---- The card

  /** The largest file that 15-bit offsets reach. */
  const MAX_SIZE: nat := 0x8000

  /** A card with one transparent file selected. */
  class Card {
    var file: seq<byte>
    const readable: bool
    const updatable: bool

    constructor (contents: seq<byte>, mayRead: bool, mayUpdate: bool)
      ensures file == contents && readable == mayRead && updatable == mayUpdate
    {
      file, readable, updatable := contents, mayRead, mayUpdate;
    }

    /**
     * READ BINARY and UPDATE BINARY: sections 11.1.3 and 11.1.4 of TS 102 221. None is any other
     * status word than 9000. A set top bit in P1 names another file.
     */
    method Command(pdu: seq<byte>) returns (r: Option<seq<byte>>)
      requires 5 <= |pdu|
      modifies this
      ensures var at, n := 256 * pdu[2] as nat + pdu[3], pdu[4];
              && (pdu[1] == 0xB0 && |pdu| == 5 ==>
                    file == old(file) && r == Reading(old(file), readable, at, n))
              && (pdu[1] == 0xD6 && |pdu| == 5 + n as nat ==>
                    && r == (if Fits(old(file), updatable, at, n) then Some([]) else None)
                    && file == (if r.Some? then Splice(old(file), at, pdu[5..]) else old(file)))
    {
      var at, n := 256 * pdu[2] as nat + pdu[3], pdu[4];
      if pdu[1] == 0xB0 && |pdu| == 5 {
        return Reading(file, readable, at, n);
      }
      if pdu[1] == 0xD6 && |pdu| == 5 + n as nat && Fits(file, updatable, at, n) {
        file := Splice(file, at, pdu[5..]);
        return Some([]);
      }
      return None;
    }
  }

  /** A range of the file that the card gives access to. */
  predicate Fits(file: seq<byte>, allowed: bool, at: nat, n: nat) {
    allowed && at < MAX_SIZE && at + n <= |file|
  }

  function Reading(file: seq<byte>, readable: bool, at: nat, n: nat): Option<seq<byte>> {
    if Fits(file, readable, at, n) then Some(file[at..at + n]) else None
  }

  // ---- What the calls mean

  /** How a call ends: an exception, no file, or text with the last status word. */
  datatype Result = Raised | NoFile | Text(text: string) | Unchanged

  /** One access to the whole range, whatever the chunks. */
  function ReadResult(file: seq<byte>, reachable: bool, readable: bool, length: Option<nat>, offset: nat): Result {
    if length.None? && |file| < offset then NoFile
    else
      var n := if length.Some? then length.value else |file| - offset;
      if n > 0 && reachable && readable && offset + n <= |file| then Text(Hex.HexOf(file[offset..offset + n]))
      else Raised
  }

  /** Without a length a read gives the file from the offset on, and from offset 0 the whole of it. */
  lemma ReadsToTheEnd(file: seq<byte>, offset: nat)
    ensures |file| < offset ==> ReadResult(file, true, true, None, offset) == NoFile
    ensures |file| == offset ==> ReadResult(file, true, true, None, offset) == Raised
    ensures offset < |file| ==> ReadResult(file, true, true, None, offset) == Text(Hex.HexOf(file[offset..]))
    ensures file != [] ==> ReadResult(file, true, true, None, 0) == Text(Hex.HexOf(file))
  {
    hide Hex.HexOf;
    assert file[0..] == file && file[0..|file|] == file;
    if offset < |file| {
      assert file[offset..offset + (|file| - offset)] == file[offset..];
    }
  }

  /** How many octets of a write arrive, in chunks of at most limit, before one does not fit. */
  function Landed(size: nat, offset: nat, n: nat, limit: nat, at: nat): (r: nat)
    requires 0 < limit && at <= n
    ensures at <= r <= n && (r > at ==> offset + r <= size)
    decreases n - at
  {
    var chunk := if n - at < limit then n - at else limit;
    if chunk == 0 || size < offset + at + chunk then at else Landed(size, offset, n, limit, at + chunk)
  }

  /** A write lands whole exactly when its range is inside the file. */
  lemma {:induction false} LandsWhole(size: nat, offset: nat, n: nat, limit: nat, at: nat)
    requires 0 < limit && at <= n
    ensures Landed(size, offset, n, limit, at) == n <==> at == n || offset + n <= size
    decreases n - at
  {
    var chunk := if n - at < limit then n - at else limit;
    if chunk > 0 && offset + at + chunk <= size {
      LandsWhole(size, offset, n, limit, at + chunk);
    }
  }

  lemma LandedStep(size: nat, offset: nat, n: nat, limit: nat, at: nat)
    requires 0 < limit && at < n
    ensures Landed(size, offset, n, limit, at)
         == var chunk := if n - at < limit then n - at else limit;
            if offset + at + chunk <= size then Landed(size, offset, n, limit, at + chunk) else at
  {
  }

  lemma LandedEnds(size: nat, offset: nat, n: nat, limit: nat)
    requires 0 < limit
    ensures Landed(size, offset, n, limit, n) == n
  {
  }

  /** The octets of a text; a last odd digit does not count. */
  function DataOf(data: string): (b: seq<byte>)
    requires Hex.IsHex(data)
    ensures |b| == |data| / 2
  {
    Hex.BytesOf(data[..2 * (|data| / 2)])
  }

  /** The file after an update: the data over its range, up to the first chunk that does not fit. */
  function Updated(file: seq<byte>, allowed: bool, data: string, offset: nat, limit: nat): (r: seq<byte>)
    requires Hex.IsHex(data) && 0 < limit
    ensures |r| == |file|
  {
    var landed := if allowed then Landed(|file|, offset, |data| / 2, limit, 0) else 0;
    if landed == 0 then file else Splice(file, offset, DataOf(data)[..landed])
  }

  /** Data that fits is written whole. */
  lemma UpdateOverwritesItsRange(file: seq<byte>, data: string, offset: nat, limit: nat)
    requires Hex.IsHex(data) && 0 < limit && offset + |data| / 2 <= |file|
    ensures Updated(file, true, data, offset, limit) == Splice(file, offset, DataOf(data))
  {
    LandsWhole(|file|, offset, |data| / 2, limit, 0);
    assert DataOf(data)[..|data| / 2] == DataOf(data);
  }

  /** What was written reads back as the same text, in lower case. */
  lemma UpdateReadsBack(file: seq<byte>, data: string, offset: nat, limit: nat)
    requires Hex.IsHex(data) && |data| % 2 == 0 && data != "" && 0 < limit && offset + |data| / 2 <= |file|
    ensures ReadResult(Updated(file, true, data, offset, limit), true, true, Some(|data| / 2), offset)
         == Text(Hex.LowerCase(data))
  {
    hide Hex.IsHex, Hex.HexOf, Hex.BytesOf, Hex.LowerCase, Updated;
    UpdateOverwritesItsRange(file, data, offset, limit);
    Hex.TextRoundTrip(data);
    assert data[..2 * (|data| / 2)] == data;
    assert Splice(file, offset, DataOf(data))[offset..offset + |data| / 2] == DataOf(data);
  }

  lemma SlicesJoin(file: seq<byte>, offset: nat, m: nat, n: nat)
    requires offset + m + n <= |file|
    ensures Hex.HexOf(file[offset..offset + m]) + Hex.HexOf(file[offset + m..offset + (m + n)])
         == Hex.HexOf(file[offset..offset + (m + n)])
  {
    hide Hex.HexOf;
    var a, b := file[offset..offset + m], file[offset + m..offset + (m + n)];
    assert a + b == file[offset..offset + (m + n)];
    Hex.HexJoin(a, b);
  }

  lemma SliceIsHex(s: string, i: nat, j: nat)
    requires Hex.IsHex(s) && i <= j <= |s|
    ensures Hex.IsHex(s[i..j])
  {
  }

  lemma TextSlice(data: string, at: nat, n: nat)
    requires Hex.IsHex(data) && at + n <= |data| / 2
    ensures var text := data[2 * at..2 * (at + n)];
            |text| == 2 * n && Hex.IsHex(text) && Hex.BytesOf(text) == DataOf(data)[at..at + n]
  {
    hide Hex.BytesOf, Hex.IsHex;
    var half := |data| / 2;
    var text, even := data[2 * at..2 * (at + n)], data[..2 * half];
    assert |text| == 2 * n && |even| == 2 * half;
    SliceIsHex(data, 2 * at, 2 * (at + n));
    SliceIsHex(data, 0, 2 * half);
    forall k | 0 <= k < n
      ensures Hex.BytesOf(text)[k] == Hex.BytesOf(even)[at + k]
    {
      BytesOfSlice(even, text, at, k);
    }
  }

  lemma BytesOfSlice(s: string, t: string, at: nat, k: nat)
    requires Hex.IsHex(s) && Hex.IsHex(t) && |s| % 2 == 0 && |t| % 2 == 0
    requires 2 * at + |t| <= |s| && t == s[2 * at..2 * at + |t|] && 2 * k < |t|
    ensures Hex.BytesOf(t)[k] == Hex.BytesOf(s)[at + k]
  {
    hide Hex.BytesOf;
    Hex.BytesAt(t, k);
    Hex.BytesAt(s, at + k);
  }

  lemma HexIsLower(b: seq<byte>)
    ensures Hex.LowerCase(Hex.HexOf(b)) == Hex.HexOf(b)
  {
  }

  lemma OddTextDiffers(file: seq<byte>, reachable: bool, readable: bool, data: string, offset: nat)
    requires Hex.IsHex(data)
    ensures |data| % 2 == 1 ==>
              ReadResult(file, reachable, readable, Some(|data| / 2), offset) != Text(Hex.LowerCase(data))
  {
  }

  /** Data that is there already can be left alone. */
  lemma WritingAgain(file: seq<byte>, reachable: bool, readable: bool, allowed: bool, data: string, offset: nat,
                     limit: nat)
    requires Hex.IsHex(data) && 0 < limit
    requires ReadResult(file, reachable, readable, Some(|data| / 2), offset) == Text(data)
    ensures Updated(file, allowed, data, offset, limit) == file
  {
    hide Hex.IsHex, Hex.HexOf, Hex.BytesOf, Landed;
    var there := file[offset..offset + |data| / 2];
    Hex.HexRoundTrip(there);
    assert data[..2 * (|data| / 2)] == data;
    assert DataOf(data) == there;
    var landed := Landed(|file|, offset, |data| / 2, limit, 0);
    assert Splice(file, offset, there[..landed]) == file;
  }

  // ---- The code

  class SimCardCommands {
    const card: Card
    const claByte: byte
    const lchan: nat
    /** max_cmd_len: 255 less what a secure channel adds. */
    const maxCmdLen: nat

    constructor (c: Card, cla: byte, channel: nat, limit: nat)
      requires 0 < limit <= 255
      ensures card == c && claByte == cla && lchan == channel && maxCmdLen == limit
    {
      card, claByte, lchan, maxCmdLen := c, cla, channel, limit;
    }

    ghost predicate Valid()
      reads card
    {
      0 < maxCmdLen <= 255 && |card.file| <= MAX_SIZE
    }

    predicate Reachable() {
      LchanNrToCla(claByte, lchan).Some?
    }

    /** One command over a range: pysim/pySim/commands.py:108-126. None is an exception. */
    method Send(ins: byte, at: nat, n: nat, data: seq<byte>) returns (r: Option<seq<byte>>)
      requires Valid() && n <= 255
      requires (ins == 0xB0 && data == []) || (ins == 0xD6 && |data| == n > 0)
      modifies card
      ensures Valid()
      ensures ins == 0xB0 ==>
                && card.file == old(card.file)
                && r == if Reachable() then Reading(card.file, card.readable, at, n) else None
      ensures ins == 0xD6 ==>
                && (r.Some? <==> Reachable() && Fits(old(card.file), card.updatable, at, n))
                && card.file == if r.Some? then Splice(old(card.file), at, data) else old(card.file)
    {
      var cla := LchanNrToCla(claByte, lchan);
      if cla.None? {
        return None;
      }
      if at >= 0x1_0000 {
        // The offset no longer takes four digits and the text is not a command.
        return None;
      }
      var pdu := [cla.value, ins, at / 256, at % 256, n] + data;
      assert pdu[5..] == data && 256 * (at / 256) + at % 256 == at;
      r := card.Command(pdu);
    }

    /** The read loop: pysim/pySim/commands.py:313-325. */
    method ReadChunks(n: nat, offset: nat) returns (ok: bool, totalData: string)
      requires Valid()
      modifies card
      ensures Valid() && card.file == old(card.file)
      ensures ok == (n == 0 || (Reachable() && card.readable && offset + n <= |card.file|))
      ensures ok && n > 0 ==> totalData == Hex.HexOf(card.file[offset..offset + n])
    {
      hide Hex.HexOf, LchanNrToCla;
      totalData := "";
      var chunkOffset := 0;
      ghost var file := card.file;
      while chunkOffset < n
        invariant chunkOffset <= n && Valid() && card.file == file
        invariant chunkOffset > 0 ==> Reachable() && card.readable && offset + chunkOffset <= |file|
        invariant totalData == if chunkOffset == 0 then "" else Hex.HexOf(file[offset..offset + chunkOffset])
      {
        var chunkLen := if n - chunkOffset < maxCmdLen then n - chunkOffset else maxCmdLen;
        var data := Send(0xB0, offset + chunkOffset, chunkLen, []);
        if data.None? {
          return false, totalData;
        }
        if chunkOffset > 0 {
          SlicesJoin(file, offset, chunkOffset, chunkLen);
        }
        totalData := totalData + Hex.HexOf(data.value);
        chunkOffset := chunkOffset + chunkLen;
      }
      return true, totalData;
    }

    /** pysim/pySim/commands.py:297-326 */
    method ReadBinary(length: Option<nat>, offset: nat) returns (r: Result)
      requires Valid()
      modifies card
      ensures Valid() && card.file == old(card.file)
      ensures r == ReadResult(card.file, Reachable(), card.readable, length, offset)
    {
      hide Hex.HexOf;
      if length.None? && |card.file| < offset {
        return NoFile;
      }
      var n := if length.Some? then length.value else |card.file| - offset;
      var ok, totalData := ReadChunks(n, offset);
      if !ok {
        return Raised;
      }
      if n == 0 {
        // The status word was never set.
        return Raised;
      }
      return Text(totalData);
    }

    /** The write loop: pysim/pySim/commands.py:371-385. */
    method WriteChunks(data: string, offset: nat) returns (ok: bool, totalData: string)
      requires Valid() && Hex.IsHex(data)
      modifies card
      ensures Valid()
      ensures card.file == Updated(old(card.file), Reachable() && card.updatable, data, offset, maxCmdLen)
      ensures ok == (|data| / 2 == 0 || (Reachable() && card.updatable && offset + |data| / 2 <= |card.file|))
    {
      hide Landed, Splice, Hex.BytesOf, Hex.IsHex, LchanNrToCla, DataOf;
      totalData := "";
      var n, chunkOffset := |data| / 2, 0;
      ghost var file, octets := card.file, DataOf(data);
      LandsWhole(|file|, offset, n, maxCmdLen, 0);
      while chunkOffset < n
        invariant chunkOffset <= n && Valid() && |card.file| == |file|
        invariant chunkOffset > 0 ==> Reachable() && card.updatable && offset + chunkOffset <= |file|
        invariant Landed(|file|, offset, n, maxCmdLen, chunkOffset) == Landed(|file|, offset, n, maxCmdLen, 0)
        invariant card.file == if chunkOffset == 0 then file else Splice(file, offset, octets[..chunkOffset])
      {
        var chunkLen := if n - chunkOffset < maxCmdLen then n - chunkOffset else maxCmdLen;
        var text := data[2 * chunkOffset..2 * (chunkOffset + chunkLen)];
        TextSlice(data, chunkOffset, chunkLen);
        LandedStep(|file|, offset, n, maxCmdLen, chunkOffset);
        var sent := Send(0xD6, offset + chunkOffset, chunkLen, Hex.BytesOf(text));
        if sent.None? {
          return false, totalData;
        }
        totalData := totalData + data;
        ghost var front, piece := octets[..chunkOffset], octets[chunkOffset..chunkOffset + chunkLen];
        assert front + piece == octets[..chunkOffset + chunkLen];
        if chunkOffset > 0 {
          SpliceSplice(file, offset, front, piece);
        } else {
          assert front + piece == piece;
        }
        chunkOffset := chunkOffset + chunkLen;
      }
      LandedEnds(|file|, offset, n, maxCmdLen);
      return true, totalData;
    }

    /** pysim/pySim/commands.py:328-339. False is an exception. */
    method VerifyBinary(data: string, offset: nat) returns (ok: bool)
      requires Valid()
      modifies card
      ensures Valid() && card.file == old(card.file)
      ensures ok == (ReadResult(card.file, Reachable(), card.readable, Some(|data| / 2), offset)
                     == Text(Hex.LowerCase(data)))
    {
      hide Hex.HexOf, Hex.LowerCase;
      var res := ReadBinary(Some(|data| / 2), offset);
      if !res.Text? {
        return false;
      }
      HexIsLower(card.file[offset..offset + |data| / 2]);
      return Hex.LowerCase(res.text) == Hex.LowerCase(data);
    }

    /** pysim/pySim/commands.py:341-388. The data is expanded already. */
    method UpdateBinary(data: string, offset: nat, verify: bool, conserve: bool) returns (r: Result)
      requires Valid() && Hex.IsHex(data)
      modifies card
      ensures Valid()
      ensures card.file == Updated(old(card.file), Reachable() && card.updatable, data, offset, maxCmdLen)
      ensures r.Raised? || r.Unchanged? || r.Text?
      ensures r.Unchanged? <==>
                && conserve
                && ReadResult(old(card.file), Reachable(), card.readable, Some(|data| / 2), offset) == Text(data)
      ensures !r.Unchanged? ==>
                (r.Text? <==> || (|data| / 2 > 0 && Reachable() && card.updatable && offset + |data| / 2 <= |card.file|
                                  && (verify ==> card.readable && |data| % 2 == 0)))
    {
      if conserve {
        var current := ReadBinary(Some(|data| / 2), offset);
        if current == Text(data) {
          WritingAgain(card.file, Reachable(), card.readable, Reachable() && card.updatable, data, offset, maxCmdLen);
          return Unchanged;
        }
      }
      var ok, totalData := WriteChunks(data, offset);
      if !ok {
        return Raised;
      }
      if |data| / 2 > 0 && |data| % 2 == 0 && card.readable {
        UpdateReadsBack(old(card.file), data, offset, maxCmdLen);
      }
      if verify {
        OddTextDiffers(card.file, Reachable(), card.readable, data, offset);
        var same := VerifyBinary(data, offset);
        if !same {
          return Raised;
        }
      }
      if |data| / 2 == 0 {
        return Raised;
      }
      return Text(totalData);
    }
  }
}
