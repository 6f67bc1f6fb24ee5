/** The sending side (app_05tcp_trans1MB_server.c): its large array, its one send buffer, and the
    loops that fill them. `sent` is what went into the socket, one entry for each send. */
module Server {
  import opened Records
  import opened Transfer

  const SIZE_RCV_BUF: nat := 200
  const LF: byte := 10
  const OK_SUFFIX: seq<byte> := [44, 79, 75, 0]  // ",OK" and NUL

  /** The C string at the start of a buffer. */
  function TextOf(buf: seq<byte>): (t: seq<byte>)
    ensures |t| <= |buf| && t == buf[..|t|]
    ensures forall i :: 0 <= i < |t| ==> t[i] != 0
    ensures |t| < |buf| ==> buf[|t|] == 0
  {
    if buf == [] || buf[0] == 0 then [] else [buf[0]] + TextOf(buf[1..])
  }

  predicate Terminated(buf: seq<byte>)
  {
    exists i :: 0 <= i < |buf| && buf[i] == 0
  }

  lemma {:induction false} TerminatedText(buf: seq<byte>)
    requires Terminated(buf)
    ensures |TextOf(buf)| < |buf|
  {
    if buf[0] != 0 {
      TerminatedText(buf[1..]);
    }
  }

  /** The reply to a request of `rcvdLen` received bytes: its text, cut at a line feed just before
      the last received byte, and ",OK". */
  function ReplyTo(buf: seq<byte>, rcvdLen: nat): seq<byte>
    requires rcvdLen >= 2
  {
    var text := TextOf(buf);
    var kept := if rcvdLen - 2 < |text| && text[rcvdLen - 2] == LF then text[..rcvdLen - 2] else text;
    kept + OK_SUFFIX
  }

  /** For any request the reply is a beginning of its text and ",OK": all of the text, unless the byte
      before the last received one is a line feed inside it, and then what comes before that. */
  lemma {:induction false} ReplyToAnything(buf: seq<byte>, rcvdLen: nat)
    requires |buf| == SIZE_RCV_BUF && 2 <= rcvdLen <= SIZE_RCV_BUF && Terminated(buf)
    ensures var text := TextOf(buf); var reply := ReplyTo(buf, rcvdLen); var n := |reply| - 4;
      && 0 <= n <= |text| && reply == text[..n] + [44, 79, 75, 0]
      && n == (if rcvdLen - 2 < |text| && text[rcvdLen - 2] == 10 then rcvdLen - 2 else |text|)
      && TextOf(reply) == text[..n] + [44, 79, 75]
      && |reply| <= 203
  {
    var text, reply := TextOf(buf), ReplyTo(buf, rcvdLen);
    TerminatedText(buf);
    TextEndsAtZero(reply, |reply| - 1);
    assert reply[..|reply| - 1] == text[..|reply| - 4] + [44, 79, 75];
  }

  /** If the terminator is the last byte received, the reply is the text without its final line
      feed, followed by ",OK" and NUL; it is itself one C string, and fits a send buffer. */
  lemma {:induction false} ReplyToLine(buf: seq<byte>, rcvdLen: nat)
    requires |buf| == SIZE_RCV_BUF && 2 <= rcvdLen <= SIZE_RCV_BUF && Terminated(buf)
    requires |TextOf(buf)| == rcvdLen - 1
    ensures var text := TextOf(buf); var reply := ReplyTo(buf, rcvdLen); var n := |reply| - 4;
      && (text[|text| - 1] == 10 ==> text == reply[..n] + [10])
      && (text[|text| - 1] != 10 ==> text == reply[..n])
      && reply[n..] == [44, 79, 75, 0]
      && TextOf(reply) == reply[..|reply| - 1]
      && |reply| <= SIZE_RCV_BUF + 3
  {
    var reply := ReplyTo(buf, rcvdLen);
    var n := |reply| - 1;
    TextEndsAtZero(reply, n);
  }

  /** A buffer whose first zero is at `n` holds the text before it. */
  lemma {:induction false} TextEndsAtZero(buf: seq<byte>, n: nat)
    requires n < |buf| && buf[n] == 0 && forall i :: 0 <= i < n ==> buf[i] != 0
    ensures TextOf(buf) == buf[..n]
  {
    if n > 0 {
      TextEndsAtZero(buf[1..], n - 1);
      assert buf[..n] == [buf[0]] + buf[1..][..n - 1];
    }
  }

  /** The data, then the trailer, then the stamps: that is the record. */
  lemma {:induction false} BuiltRecord(
      p: nat, data: seq<byte>, s: Slice, copied: seq<byte>, posA: byte, posB: byte, buf: seq<byte>)
    requires PacketSize(p) && s.start + s.size <= |data| && s.size <= p
    requires copied == data[s.start..s.start + s.size] + Zeros(p + 10 - s.size)
    requires if s.size < p || s.eof then posA == s.size / 256 && posB == s.size % 256 else posA == posB == 0
    requires buf == copied[p + 1 := posA][p + 2 := posB][0 := 48][1 := 49][2 := 50]
      [p := STAMP_END][p - 1 := STAMP_END][p - 2 := STAMP_END]
    ensures buf[..p + 3] == Record(p, data, s)
  {
    forall j | 0 <= j < p + 3 ensures buf[j] == RecordByte(p, data, s, j) {
    }
  }

  /** Overwriting a line feed at `rcvdLen` - 2 ends the text there; anywhere else it stays whole. */
  lemma {:induction false} CutText(text: seq<byte>, copied: seq<byte>, rcvdLen: nat, buf: seq<byte>)
    requires |text| < |copied| && 2 <= rcvdLen <= |copied|
    requires forall i :: 0 <= i < |text| ==> text[i] != 0
    requires copied == text + Zeros(|copied| - |text|)
    requires buf == (if copied[rcvdLen - 2] == LF then copied[rcvdLen - 2 := 0] else copied)
    ensures copied[rcvdLen - 2] == LF ==> rcvdLen - 2 < |text| && text[rcvdLen - 2] == LF
    ensures rcvdLen - 2 < |text| ==> copied[rcvdLen - 2] == text[rcvdLen - 2]
    ensures var len := if copied[rcvdLen - 2] == LF then rcvdLen - 2 else |text|;
      len <= |text| && TextOf(buf) == buf[..len] == text[..len]
  {
    var len := if copied[rcvdLen - 2] == LF then rcvdLen - 2 else |text|;
    TextEndsAtZero(buf, len);
  }

  class Sender {
    const packet: nat
    const largeData: array<byte>
    const txBuf: array<byte>
    var sent: seq<seq<byte>>

    ghost predicate Valid()
    {
      PacketSize(packet) && txBuf.Length == packet + 10 && txBuf != largeData
    }

    constructor (packet: nat, size: nat)
      requires PacketSize(packet)
      ensures Valid() && fresh(largeData) && fresh(txBuf) && sent == []
      ensures this.packet == packet && largeData.Length == size
    {
      this.packet := packet;
      largeData := new byte[size](_ => 0);
      txBuf := new byte[packet + 10](_ => 0);
      sent := [];
    }

    /** Nothing of an earlier message is left in the send buffer. */
    method ClearTx()
      modifies txBuf
      ensures txBuf[..] == Zeros(txBuf.Length)
    {
      for i := 0 to txBuf.Length
        invariant forall j :: 0 <= j < i ==> txBuf[j] == 0
      {
        txBuf[i] := 0;
      }
    }

    /** Copies `source` into the send buffer at `at`. */
    method Put(at: nat, source: seq<byte>)
      requires at + |source| <= txBuf.Length
      modifies txBuf
      ensures txBuf[..] == old(txBuf[..at]) + source + old(txBuf[at + |source|..])
    {
      for i := 0 to |source|
        invariant forall j :: 0 <= j < txBuf.Length ==>
          txBuf[j] == (if at <= j < at + i then source[j - at] else old(txBuf[j]))
      {
        txBuf[at + i] := source[i];
      }
    }

    /** The start of both messages: a cleared buffer with `source` at its front. */
    method Load(source: seq<byte>)
      requires |source| <= txBuf.Length
      modifies txBuf
      ensures txBuf[..] == source + Zeros(txBuf.Length - |source|)
    {
      ClearTx();
      ghost var cleared := txBuf[..];
      Put(0, source);
      assert cleared[..0] == [] && cleared[|source|..] == Zeros(txBuf.Length - |source|);
    }

    /** setLargeData */
    method SetLargeData()
      modifies largeData
      ensures forall i :: 0 <= i < largeData.Length ==> largeData[i] == 67
    {
      for idx := 0 to largeData.Length
        invariant forall i :: 0 <= i < idx ==> largeData[i] == DATA_CODE
      {
        largeData[idx] := DATA_CODE;
      }
    }

    /** sendReqOK: the reply depends on the request alone, not on what the buffer held. */
    method SendReqOK(rxBuf: seq<byte>, rcvdLen: nat)
      requires Valid() && |rxBuf| == SIZE_RCV_BUF && 2 <= rcvdLen <= SIZE_RCV_BUF && Terminated(rxBuf)
      modifies txBuf, this`sent
      ensures sent == old(sent) + [ReplyTo(rxBuf, rcvdLen)]
    {
      TerminatedText(rxBuf);
      var text := TextOf(rxBuf);
      Load(text);
      ghost var copied := txBuf[..];
      var len := |text|;
      if txBuf[rcvdLen - 2] == LF {
        txBuf[rcvdLen - 2] := 0;
        len := rcvdLen - 2;
      }
      CutText(text, copied, rcvdLen, txBuf[..]);  // `len` is where strcat appends
      Put(len, OK_SUFFIX);
      sent := sent + [txBuf[..len + |OK_SUFFIX|]];
      assert txBuf[..len + |OK_SUFFIX|] == text[..len] + OK_SUFFIX;
    }

    /** The trailer and the debugging stamps, in the order of the code. */
    method Stamp(posA: byte, posB: byte)
      requires Valid()
      modifies txBuf
      ensures txBuf[..] == old(txBuf[..])[packet + 1 := posA][packet + 2 := posB][0 := 48][1 := 49][2 := 50]
        [packet := STAMP_END][packet - 1 := STAMP_END][packet - 2 := STAMP_END]
    {
      var eofPosA := packet + 1;
      var eofPosB := eofPosA + 1;
      txBuf[eofPosA] := posA;
      txBuf[eofPosB] := posB;
      txBuf[0] := 48;
      txBuf[1] := 49;
      txBuf[2] := 50;
      txBuf[eofPosA - 1] := STAMP_END;
      txBuf[eofPosA - 2] := STAMP_END;
      txBuf[eofPosA - 3] := STAMP_END;
    }

    /** sendOnePacket */
    method SendOnePacket(start: nat, size: nat, sendEOF: bool)
      requires Valid() && start + size <= largeData.Length && size <= packet
      modifies txBuf, this`sent
      ensures sent == old(sent) + [Record(packet, largeData[..], Slice(start, size, sendEOF))]
    {
      var posA: byte, posB: byte;
      if size < packet || sendEOF {
        posA := size / 256;
        posB := size % 256;
      } else {
        posA := 0;
        posB := 0;
      }
      Load(largeData[start..start + size]);
      ghost var copied := txBuf[..];
      Stamp(posA, posB);
      BuiltRecord(packet, largeData[..], Slice(start, size, sendEOF), copied, posA, posB, txBuf[..]);
      sent := sent + [txBuf[..packet + 3]];
      assert txBuf[..packet + 3] == txBuf[..][..packet + 3];
    }

    /** sendDataBlock */
    method SendDataBlock()
      requires Valid()
      modifies txBuf, this`sent
      ensures sent == old(sent) + RecordsOf(packet, largeData[..])
    {
      ghost var data := largeData[..];
      ghost var all := RecordsOf(packet, data);
      ghost var k := 0;
      var leftSize: nat := largeData.Length;
      var start: nat := 0;
      FirstSlice(packet, |data|);
      while true
        invariant largeData[..] == data && AtSlice(packet, |data|, start, leftSize, k)
        invariant sent == old(sent) + all[..k]
        decreases leftSize
      {
        if leftSize == 0 {
          break;
        }
        NextSlice(packet, data, start, leftSize, k);
        assert all[..k] + [all[k]] == all[..k + 1];
        k := k + 1;
        if leftSize > packet {
          SendOnePacket(start, packet, false);
        } else {
          SendOnePacket(start, leftSize, true);
          break;
        }
        start := start + packet;
        leftSize := leftSize - packet;
      }
      assert all[..k] == all;
    }
  }
}
