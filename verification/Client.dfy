/** The receiving side (app_05tcp_trans1MB_client.c): its one receive buffer, the check of a
    record, and the loop that runs until a record says EOF. */
module Client {
  import opened Records
  import opened Transfer

  /** How many of the deliveries fail the content check. */
  function Rejected(p: nat, deliveries: seq<seq<byte>>): nat
    requires Receivable(p, deliveries)
  {
    if deliveries == [] then 0
    else
      var n := |deliveries| - 1;
      Rejected(p, deliveries[..n]) + (if Receive(p, deliveries[n]).ok then 0 else 1)
  }

  lemma {:induction false} NoneRejected(p: nat, deliveries: seq<seq<byte>>)
    requires Receivable(p, deliveries)
    requires forall k :: 0 <= k < |deliveries| ==> Receive(p, deliveries[k]).ok
    ensures Rejected(p, deliveries) == 0
  {
    if deliveries != [] {
      NoneRejected(p, deliveries[..|deliveries| - 1]);
    }
  }

  /** What one more delivery adds. */
  lemma OneMoreDelivery(p: nat, deliveries: seq<seq<byte>>, n: nat)
    requires Receivable(p, deliveries) && n < |deliveries|
    ensures var r := Receive(p, deliveries[n]);
      && Rejected(p, deliveries[..n + 1]) == Rejected(p, deliveries[..n]) + (if r.ok then 0 else 1)
      && r.size <= |r.buf|
      && Kept(p, deliveries[..n + 1]) == Kept(p, deliveries[..n]) + r.buf[..r.size]
  {
    assert deliveries[..n + 1][..n] == deliveries[..n];
    var receptions := Receptions(p, deliveries[..n + 1]);
    assert receptions[..n] == Receptions(p, deliveries[..n]);
  }

  /** `cnt` deliveries have been read, and none but the last of them, if `stopped`, said EOF. */
  ghost predicate ReadUpTo(p: nat, deliveries: seq<seq<byte>>, cnt: nat, stopped: bool)
    requires Receivable(p, deliveries)
  {
    && cnt <= |deliveries|
    && (stopped ==> cnt > 0 && Receive(p, deliveries[cnt - 1]).eof)
    && (forall k :: 0 <= k < (if stopped then cnt - 1 else cnt) ==> !Receive(p, deliveries[k]).eof)
  }

  lemma ReadOneMore(p: nat, deliveries: seq<seq<byte>>, cnt: nat)
    requires Receivable(p, deliveries) && ReadUpTo(p, deliveries, cnt, false) && cnt < |deliveries|
    ensures ReadUpTo(p, deliveries, cnt + 1, Receive(p, deliveries[cnt]).eof)
  {
  }

  lemma ReadToTheEnd(p: nat, deliveries: seq<seq<byte>>, cnt: nat, stopped: bool)
    requires Receivable(p, deliveries) && ReadUpTo(p, deliveries, cnt, stopped)
    requires stopped || cnt == |deliveries|
    ensures FirstEof(p, deliveries) == if stopped then cnt - 1 else cnt
  {
  }

  lemma BadOneMore(p: nat, data: seq<byte>, k: nat)
    requires PacketSize(p) && data != [] && k < Packets(p, |data|)
    ensures BadRecords(p, data, k + 1) ==
      BadRecords(p, data, k) + if Receive(p, RecordsOf(p, data)[k]).ok then 0 else 1
  {
    VerdictIsExact(p, data, k, k * p);
  }

  /** Of the records of a source those fail whose chunk of the source does. */
  lemma {:induction false} RejectedAreBad(p: nat, data: seq<byte>, k: nat)
    requires PacketSize(p) && data != [] && k <= Packets(p, |data|)
    ensures Rejected(p, RecordsOf(p, data)[..k]) == BadRecords(p, data, k)
  {
    var records := RecordsOf(p, data);
    if k > 0 {
      RejectedAreBad(p, data, k - 1);
      OneMoreDelivery(p, records, k - 1);
      BadOneMore(p, data, k - 1);
    }
  }

  class Receiver {
    const packet: nat
    const rxBuf: array<byte>

    ghost predicate Valid()
    {
      PacketSize(packet) && rxBuf.Length == packet + 10
    }

    constructor (packet: nat)
      requires PacketSize(packet)
      ensures Valid() && fresh(rxBuf) && this.packet == packet
    {
      this.packet := packet;
      rxBuf := new byte[packet + 10](_ => 0);
    }

    /** Forgets the previous record, then takes what recv delivers. */
    method Fill(incoming: seq<byte>)
      requires Valid() && |incoming| <= packet + 3
      modifies rxBuf
      ensures rxBuf[..] == Padded(packet, incoming)
    {
      for i := 0 to rxBuf.Length
        invariant forall j :: 0 <= j < i ==> rxBuf[j] == 0
      {
        rxBuf[i] := 0;
      }
      for i := 0 to |incoming|
        invariant forall j :: 0 <= j < rxBuf.Length ==> rxBuf[j] == (if j < i then incoming[j] else 0)
      {
        rxBuf[i] := incoming[i];
      }
    }

    /** rcvDataBlock, for a recv that delivers `incoming`. The result does not depend on what
        earlier records left in the buffer. */
    method RcvDataBlock(incoming: seq<byte>) returns (rcvdEOF: bool, rcvOK: bool, size: nat)
      requires Valid() && |incoming| <= packet + 3 && InBounds(packet, incoming)
      modifies rxBuf
      ensures Reception(rcvdEOF, rcvOK, size, rxBuf[..]) == Receive(packet, incoming)
    {
      rcvdEOF := false;
      Fill(incoming);
      ghost var filled := rxBuf[..];
      var eofPosA := packet + 1;
      var eofPosB := eofPosA + 1;
      if rxBuf[eofPosA] == DATA_CODE || rxBuf[eofPosB] == DATA_CODE {
        return false, true, 0;
      }
      var eofPos: nat := (rxBuf[eofPosA] as int) * 256 + rxBuf[eofPosB] as int;
      if eofPos > 0 {
        rcvdEOF := true;
        rxBuf[eofPos] := 0;
        size := eofPos;
      } else {
        size := packet;
      }
      rcvOK := true;
      var loop := 5;
      while loop < size - 5
        invariant 5 <= loop
        invariant rcvOK <==> forall i :: 5 <= i < loop && i < size - 5 ==> rxBuf[i] == DATA_CODE
      {
        if rxBuf[loop] != DATA_CODE {
          rcvOK := false;
        }
        loop := loop + 1;
      }
      assert rxBuf[..] == (if eofPos > 0 then filled[eofPos := 0] else filled);
      assert forall i :: 5 <= i < size - 5 ==> filled[i] == rxBuf[i];
    }

    /** The loop of main over what arrives: it ends on the first record that says EOF, or waits for
        ever once the deliveries are used up. */
    method ReceiveAll(deliveries: seq<seq<byte>>)
      returns (cnt: nat, stopped: bool, failures: nat, ghost kept: seq<byte>)
      requires Valid() && Receivable(packet, deliveries)
      modifies rxBuf
      ensures stopped <==> FirstEof(packet, deliveries) < |deliveries|
      ensures cnt == (if stopped then FirstEof(packet, deliveries) + 1 else |deliveries|)
      ensures failures == Rejected(packet, deliveries[..cnt])
      ensures kept == Kept(packet, deliveries[..cnt])
      ensures cnt > 0 ==> rxBuf[..] == Receive(packet, deliveries[cnt - 1]).buf
    {
      cnt, stopped, failures, kept := 0, false, 0, [];
      while !stopped && cnt < |deliveries|
        invariant cnt <= |deliveries| && ReadUpTo(packet, deliveries, cnt, stopped)
        invariant failures == Rejected(packet, deliveries[..cnt])
        invariant kept == Kept(packet, deliveries[..cnt])
        invariant cnt > 0 ==> rxBuf[..] == Receive(packet, deliveries[cnt - 1]).buf
        decreases |deliveries| - cnt
      {
        OneMoreDelivery(packet, deliveries, cnt);
        ReadOneMore(packet, deliveries, cnt);
        cnt := cnt + 1;
        var rcvdEOF, rcvOK, size := RcvDataBlock(deliveries[cnt - 1]);
        if rcvOK == false {
          failures := failures + 1;
        }
        kept := kept + rxBuf[..size];
        if rcvdEOF {
          stopped := true;
        }
      }
      ReadToTheEnd(packet, deliveries, cnt, stopped);
    }

    /** The records of a whole source: all of them are read; the loop then stops if the trailer of
        the last is safe, holding the stamped source, and otherwise waits for more. The failures are
        the chunks of the source with something else than 'C' in them, stamps aside. The buffer holds
        the last record, its byte behind the data zeroed if it was recognised as the last. */
    method ReceiveSource(data: seq<byte>)
      returns (cnt: nat, stopped: bool, failures: nat, ghost kept: seq<byte>)
      requires Valid() && data != []
      modifies rxBuf
      ensures cnt == Packets(packet, |data|)
      ensures stopped <==> TrailerSafe(LastSize(packet, |data|))
      ensures stopped ==> kept == Stamped(packet, data)
      ensures failures == BadRecords(packet, data, cnt)
      ensures (forall i :: 0 <= i < |data| ==> data[i] == 67) ==> failures == 0
      ensures cnt == |RecordsOf(packet, data)| > 0
      ensures BufferIs(packet, RecordsOf(packet, data)[cnt - 1], stopped, LastSize(packet, |data|), rxBuf[..])
    {
      var records := RecordsOf(packet, data);
      EndDetectionIsExact(packet, data);
      cnt, stopped, failures, kept := ReceiveAll(records);
      assert records[..cnt] == records;
      PacketsPositive(packet, |data|);
      RejectedAreBad(packet, data, cnt);
      RecordReceived(packet, data, cnt - 1);
      SliceEof(packet, |data|, cnt - 1);
      RecordIs(packet, data, cnt - 1);
      if stopped {
        Reassembly(packet, data);
      }
      if forall i :: 0 <= i < |data| ==> data[i] == 67 {
        forall k | 0 <= k < |records| ensures Receive(packet, records[k]).ok {
          LargeDataPasses(packet, data, k);
        }
        NoneRejected(packet, records);
      }
    }
  }
}
