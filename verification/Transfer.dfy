/** A whole source, sent as records and received again: where the client stops, and what it holds. */
module Transfer {
  import opened Records

  lemma SlicesAreSendable(p: nat, data: seq<byte>, k: nat)
    requires PacketSize(p) && k < |Slices(p, 0, |data|)|
    ensures Sendable(p, data, Slices(p, 0, |data|)[k])
    ensures InBounds(p, Record(p, data, Slices(p, 0, |data|)[k]))
  {
    SlicesAre(p, 0, |data|, k);
    SliceCount(p, 0, |data|);
    TrailerOfRecord(p, data, Slices(p, 0, |data|)[k]);
  }

  function RecordNumber(p: nat, data: seq<byte>, k: nat): (r: seq<byte>)
    requires PacketSize(p) && k < |Slices(p, 0, |data|)|
    ensures |r| == p + 3 && InBounds(p, r)
  {
    SlicesAreSendable(p, data, k);
    Record(p, data, Slices(p, 0, |data|)[k])
  }

  /** What arrives can be received at all: whole or cut records, with their zero byte in bounds. */
  predicate Receivable(p: nat, deliveries: seq<seq<byte>>)
  {
    forall k :: 0 <= k < |deliveries| ==> |deliveries[k]| <= p + 3 && InBounds(p, deliveries[k])
  }

  /** Everything sendDataBlock sends for a source. */
  function RecordsOf(p: nat, data: seq<byte>): (r: seq<seq<byte>>)
    requires PacketSize(p)
    ensures |r| == Packets(p, |data|) && Receivable(p, r)
  {
    SliceCount(p, 0, |data|);
    seq(Packets(p, |data|), k requires 0 <= k < |Slices(p, 0, |data|)| => RecordNumber(p, data, k))
  }

  lemma RecordIs(p: nat, data: seq<byte>, k: nat)
    requires PacketSize(p) && k < Packets(p, |data|)
    ensures k < |Slices(p, 0, |data|)| && Sendable(p, data, Slices(p, 0, |data|)[k])
    ensures RecordsOf(p, data)[k] == Record(p, data, Slices(p, 0, |data|)[k])
  {
    SliceCount(p, 0, |data|);
    SlicesAreSendable(p, data, k);
  }

  /** sendDataBlock is about to send slice number `k`: `start` bytes are out, `left` are to go. */
  predicate AtSlice(p: nat, n: nat, start: nat, left: nat, k: nat)
    requires p > 0
  {
    && start + left == n
    && k <= |Slices(p, 0, n)| == Packets(p, n)
    && Slices(p, start, left) == Slices(p, 0, n)[k..]
  }

  lemma FirstSlice(p: nat, n: nat)
    requires p > 0
    ensures AtSlice(p, n, 0, n, 0)
  {
    SliceCount(p, 0, n);
  }

  /** One pass of the loop sends record number `k` and moves on to the next. */
  lemma NextSlice(p: nat, data: seq<byte>, start: nat, left: nat, k: nat)
    requires PacketSize(p) && AtSlice(p, |data|, start, left, k) && left > 0
    ensures k < Packets(p, |data|)
    ensures RecordsOf(p, data)[k] ==
      Record(p, data, if left > p then Slice(start, p, false) else Slice(start, left, true))
    ensures if left > p then AtSlice(p, |data|, start + p, left - p, k + 1) else k + 1 == Packets(p, |data|)
  {
    var rest := Slices(p, start, left);
    assert rest[0] == Slices(p, 0, |data|)[k] && rest[1..] == Slices(p, 0, |data|)[k + 1..];
    RecordIs(p, data, k);
  }

  /** The buffer begins with the slice of the source at `start`, stamps over it. */
  ghost predicate HoldsChunk(p: nat, data: seq<byte>, start: nat, size: nat, buf: seq<byte>)
    requires PacketSize(p)
  {
    && size <= p && size <= |buf| && start + size <= |data|
    && forall i :: 0 <= i < size ==> buf[i] == StampedByte(p, i, data[start + i])
  }

  /** What the client makes of a slice: a last slice whose trailer holds a data code is mistaken for
      a good inner record; every other slice is recognised for what it is, checked against the
      source, and held with its stamps. The buffer is the record as sent, but for the byte behind
      the data of a recognised last slice, which is zeroed. */
  ghost predicate ReceivedAs(p: nat, data: seq<byte>, s: Slice, r: Reception)
    requires PacketSize(p) && Sendable(p, data, s)
  {
    if s.eof && !TrailerSafe(s.size) then
      !r.eof && r.ok && r.size == 0 && BufferIs(p, Record(p, data, s), false, 0, r.buf)
    else
      && r.eof == s.eof && r.size == s.size
      && (r.ok <==> SourceIsData(data, s.start, s.size - 5))
      && HoldsChunk(p, data, s.start, s.size, r.buf)
      && BufferIs(p, Record(p, data, s), s.eof, s.size, r.buf)
  }

  lemma SliceReceived(p: nat, data: seq<byte>, s: Slice)
    requires PacketSize(p) && Sendable(p, data, s)
    ensures InBounds(p, Record(p, data, s))
    ensures ReceivedAs(p, data, s, Receive(p, Record(p, data, s)))
  {
    if s.eof && !TrailerSafe(s.size) {
      MistakenRecord(p, data, s);
    } else {
      AlignedRecord(p, data, s);
    }
  }

  /** Record number `k`, received. */
  lemma {:induction false} RecordReceived(p: nat, data: seq<byte>, k: nat)
    requires PacketSize(p) && k < Packets(p, |data|)
    ensures k < |Slices(p, 0, |data|)| && Sendable(p, data, Slices(p, 0, |data|)[k])
    ensures ReceivedAs(p, data, Slices(p, 0, |data|)[k], Receive(p, RecordsOf(p, data)[k]))
  {
    RecordIs(p, data, k);
    SliceReceived(p, data, Slices(p, 0, |data|)[k]);
  }

  /** Byte `j` of record number `k`, told from the source and the format alone: '0', '1', '2' first,
      'E' at the three offsets from p - 2, the size in the two bytes behind if it is the last. */
  lemma RecordLayout(p: nat, data: seq<byte>, k: nat, start: nat, j: nat)
    requires PacketSize(p) && k < Packets(p, |data|) && start == k * p && j < p + 3
    ensures start < |data| && |RecordsOf(p, data)[k]| == p + 3
    ensures var left := |data| - start; var r := RecordsOf(p, data)[k];
      r[j] ==
        if j < 3 then [48, 49, 50][j]
        else if j in {p - 2, p - 1, p} then 69
        else if j == p + 1 then (if left <= p then left / 256 else 0)
        else if j == p + 2 then (if left <= p then left % 256 else 0)
        else if j < left then data[start + j]
        else 0
  {
    RecordIs(p, data, k);
    SliceEnds(p, |data|, k, start);
  }

  /** Slice `k` is the rest of the source if that fits into a packet, and a full packet otherwise. */
  lemma SliceEnds(p: nat, n: nat, k: nat, start: nat)
    requires p > 0 && k < |Slices(p, 0, n)| && start == k * p
    ensures start < n && Slices(p, 0, n)[k] == Slice(start, if n - start <= p then n - start else p, n - start <= p)
  {
    SlicesAre(p, 0, n, k);
    SliceCount(p, 0, n);
    if k < Packets(p, n) - 1 {
      MultiplesApart(p, k, Packets(p, n) - 1);
    }
  }

  // ---------------------------------------------------------------- where the client stops

  /** The delivery that ends the client loop, or the number of deliveries if none does. */
  function FirstEof(p: nat, deliveries: seq<seq<byte>>): (k: nat)
    requires Receivable(p, deliveries)
    ensures k <= |deliveries|
    ensures forall j :: 0 <= j < k ==> !Receive(p, deliveries[j]).eof
    ensures k < |deliveries| ==> Receive(p, deliveries[k]).eof
  {
    if deliveries == [] then 0
    else
      var n := |deliveries| - 1;
      var k := FirstEof(p, deliveries[..n]);
      if k < n || Receive(p, deliveries[n]).eof then k else n + 1
  }

  /** A record ends the client loop exactly when it is the last one and its trailer holds no 'C'. */
  lemma {:induction false} EndOfRecord(p: nat, data: seq<byte>, k: nat)
    requires PacketSize(p) && k < Packets(p, |data|)
    ensures Receive(p, RecordsOf(p, data)[k]).eof <==>
      (k == Packets(p, |data|) - 1 && TrailerSafe(LastSize(p, |data|)))
  {
    RecordReceived(p, data, k);
    SliceEof(p, |data|, k);
  }

  lemma SliceEof(p: nat, n: nat, k: nat)
    requires p > 0 && n > 0 && k < |Slices(p, 0, n)|
    ensures Slices(p, 0, n)[k].eof <==> k == Packets(p, n) - 1
    ensures Slices(p, 0, n)[k].eof ==> Slices(p, 0, n)[k].size == LastSize(p, n)
  {
    SlicesAre(p, 0, n, k);
  }

  /** The client stops at all if and only if the last size leaves no 'C' in the trailer, and then
      it stops on the last record, neither earlier nor later. */
  lemma {:induction false} EndDetectionIsExact(p: nat, data: seq<byte>)
    requires PacketSize(p) && data != []
    ensures var n := Packets(p, |data|);
      FirstEof(p, RecordsOf(p, data)) == (if TrailerSafe(LastSize(p, |data|)) then n - 1 else n)
  {
    var recs := RecordsOf(p, data);
    forall k | 0 <= k < |recs|
      ensures Receive(p, recs[k]).eof <==> (k == |recs| - 1 && TrailerSafe(LastSize(p, |data|)))
    {
      EndOfRecord(p, data, k);
    }
  }

  /** Packets rounds up: it is the only number of full packets that holds `n` bytes and no spare one. */
  lemma {:induction false} PacketsRoundUp(p: nat, n: nat, k: nat)
    requires p > 0 && k > 0
    ensures Packets(p, n) == k <==> (k - 1) * p < n <= k * p
    decreases n
  {
    assert (k - 1) * p == k * p - p;
    if n > p {
      if k > 1 {
        PacketsRoundUp(p, n - p, k - 1);
      }
      PacketsPositive(p, n - p);
    } else if k > 1 {
      MultiplesApart(p, 0, k - 1);
    }
  }

  /** With the repository's packet size the condition is that the last size mod 256 is not 67. */
  lemma RepositoryCondition(p: nat, n: nat)
    requires p == 8192 && n > 0
    ensures TrailerSafe(LastSize(p, n)) <==> LastSize(p, n) % 256 != 67
  {
    assert LastSize(p, n) / 256 <= 32;
  }

  lemma RepositorySizes(p: nat, n: nat)
    requires p == SIZE_ONE_PACKET && n == SIZE_LARGE_DATA
    ensures p == 8192 && n == 1024000
    ensures Packets(p, n) == 125 && LastSize(p, n) == p && TrailerSafe(p)
  {
    PacketsRoundUp(p, n, 125);
    SliceCount(p, 0, n);
  }

  /** The repository's own 1024000 bytes give 125 records, all full, and the client stops. */
  lemma RepositoryTransfer(p: nat, data: seq<byte>)
    requires p == SIZE_ONE_PACKET && |data| == SIZE_LARGE_DATA
    ensures p == 8192 && |data| == 1024000
    ensures |RecordsOf(p, data)| == 125
    ensures FirstEof(p, RecordsOf(p, data)) == 124
  {
    var n := |data|;
    RepositorySizes(p, n);
    EndDetectionIsExact(p, data);
  }

  // ---------------------------------------------------------------- reassembly

  /** What the client makes of each delivery. */
  function Receptions(p: nat, deliveries: seq<seq<byte>>): (r: seq<Reception>)
    requires Receivable(p, deliveries)
    ensures |r| == |deliveries|
    ensures forall k :: 0 <= k < |r| ==> r[k].size <= |r[k].buf|
  {
    seq(|deliveries|, k requires 0 <= k < |deliveries| && |deliveries[k]| <= p + 3 && InBounds(p, deliveries[k]) =>
      Receive(p, deliveries[k]))
  }

  /** The first `size` bytes left in s_rxBuf each time, joined. */
  function Joined(receptions: seq<Reception>): seq<byte>
    requires forall k :: 0 <= k < |receptions| ==> receptions[k].size <= |receptions[k].buf|
  {
    if receptions == [] then []
    else
      var last := receptions[|receptions| - 1];
      Joined(receptions[..|receptions| - 1]) + last.buf[..last.size]
  }

  /** What the client has held, record after record. */
  function Kept(p: nat, deliveries: seq<seq<byte>>): seq<byte>
    requires Receivable(p, deliveries)
  {
    Joined(Receptions(p, deliveries))
  }

  /** The source with the debugging stamps over it: each chunk begins with "012", and offsets
      p - 2 and p - 1 of a chunk hold 'E'. */
  function Stamped(p: nat, data: seq<byte>): (r: seq<byte>)
    requires PacketSize(p)
    ensures |r| == |data|
  {
    seq(|data|, i requires 0 <= i < |data| => StampedByte(p, i % p, data[i]))
  }

  lemma OffsetInChunk(p: nat, k: nat, o: nat)
    requires o < p
    ensures (k * p + o) % p == o
  {
    var x := k * p + o;
    var q := x / p;
    assert x == p * q + x % p;
    assert p * q == q * p;
    if k < q {
      MultiplesApart(p, k, q);
    } else if q < k {
      MultiplesApart(p, q, k);
    }
  }

  /** At the start of a chunk the stamps of the source start over. */
  ghost predicate ChunkStamped(p: nat, data: seq<byte>, start: nat)
    requires PacketSize(p)
  {
    forall j :: start <= j < start + p && j < |data| ==>
      Stamped(p, data)[j] == StampedByte(p, j - start, data[j])
  }

  lemma StampedAt(p: nat, data: seq<byte>, k: nat, start: nat, j: nat)
    requires PacketSize(p) && start == k * p && start <= j < start + p && j < |data|
    ensures Stamped(p, data)[j] == StampedByte(p, j - start, data[j])
  {
    OffsetInChunk(p, k, j - start);
  }

  lemma {:induction false} ChunksAreStamped(p: nat, data: seq<byte>, k: nat, start: nat)
    requires PacketSize(p) && start == k * p
    ensures ChunkStamped(p, data, start)
  {
    forall j | start <= j < start + p && j < |data|
      ensures Stamped(p, data)[j] == StampedByte(p, j - start, data[j])
    {
      StampedAt(p, data, k, start, j);
    }
  }

  lemma {:induction false} SameChunk(p: nat, data: seq<byte>, start: nat, size: nat, buf: seq<byte>)
    requires PacketSize(p) && HoldsChunk(p, data, start, size, buf)
    requires ChunkStamped(p, data, start)
    ensures buf[..size] == Stamped(p, data)[start..start + size]
  {
    var chunk := Stamped(p, data)[start..start + size];
    forall i | 0 <= i < size ensures buf[i] == chunk[i] {
      assert chunk[i] == Stamped(p, data)[start + i];
    }
  }

  /** Every reception holds its slice. */
  ghost predicate AllHeld(p: nat, data: seq<byte>, receptions: seq<Reception>)
    requires PacketSize(p)
  {
    && |receptions| == |Slices(p, 0, |data|)|
    && forall k :: 0 <= k < |receptions| ==>
      && receptions[k].size == Slices(p, 0, |data|)[k].size
      && HoldsChunk(p, data, Slices(p, 0, |data|)[k].start, receptions[k].size, receptions[k].buf)
  }

  /** How many bytes the first `k` slices carry. */
  function Carried(p: nat, n: nat, k: nat): nat
    requires p > 0
  {
    if k < |Slices(p, 0, n)| then Slices(p, 0, n)[k].start else n
  }

  lemma CarriedStep(p: nat, n: nat, k: nat)
    requires p > 0 && k < |Slices(p, 0, n)|
    ensures Carried(p, n, k) + Slices(p, 0, n)[k].size == Carried(p, n, k + 1) <= n
  {
    SliceCount(p, 0, n);
    SlicesAre(p, 0, n, k);
    assert (k + 1) * p == k * p + p;
    if k + 1 < |Slices(p, 0, n)| {
      SlicesAre(p, 0, n, k + 1);
    }
  }

  lemma CarriedIsStamped(p: nat, data: seq<byte>, k: nat)
    requires PacketSize(p) && k < |Slices(p, 0, |data|)|
    ensures ChunkStamped(p, data, Carried(p, |data|, k))
  {
    SlicesAre(p, 0, |data|, k);
    ChunksAreStamped(p, data, k, Carried(p, |data|, k));
  }

  lemma PrefixGrows(s: seq<byte>, i: nat, j: nat)
    requires i <= j <= |s|
    ensures s[..i] + s[i..j] == s[..j]
  {
  }

  /** Slice by slice the joined receptions are the stamped source. */
  lemma {:induction false} JoinedPrefix(p: nat, data: seq<byte>, receptions: seq<Reception>, k: nat)
    requires PacketSize(p) && AllHeld(p, data, receptions) && k <= |receptions|
    ensures Carried(p, |data|, k) <= |data|
    ensures Joined(receptions[..k]) == Stamped(p, data)[..Carried(p, |data|, k)]
  {
    if k > 0 {
      var start := Carried(p, |data|, k - 1);
      var size := receptions[k - 1].size;
      JoinedPrefix(p, data, receptions, k - 1);
      CarriedStep(p, |data|, k - 1);
      CarriedIsStamped(p, data, k - 1);
      SameChunk(p, data, start, size, receptions[k - 1].buf);
      assert receptions[..k][..k - 1] == receptions[..k - 1];
      PrefixGrows(Stamped(p, data), start, start + size);
    } else {
      FirstSlice(p, |data|);
      if |receptions| > 0 {
        SlicesAre(p, 0, |data|, 0);
      }
    }
  }

  lemma {:induction false} RecordsAreHeld(p: nat, data: seq<byte>)
    requires PacketSize(p) && data != [] && TrailerSafe(LastSize(p, |data|))
    ensures AllHeld(p, data, Receptions(p, RecordsOf(p, data)))
  {
    var receptions := Receptions(p, RecordsOf(p, data));
    SliceCount(p, 0, |data|);
    forall k | 0 <= k < |receptions|
      ensures receptions[k].size == Slices(p, 0, |data|)[k].size
      ensures HoldsChunk(p, data, Slices(p, 0, |data|)[k].start, receptions[k].size, receptions[k].buf)
    {
      RecordReceived(p, data, k);
      SliceEof(p, |data|, k);
    }
  }

  /** End to end: what the client keeps is the source, byte for byte, with '0', '1', '2' over the
      first and 'E' over the last two offsets of each chunk. */
  lemma {:induction false} Reassembly(p: nat, data: seq<byte>)
    requires PacketSize(p) && data != [] && TrailerSafe(LastSize(p, |data|))
    ensures Kept(p, RecordsOf(p, data)) == Stamped(p, data)
    ensures |Kept(p, RecordsOf(p, data))| == |data|
    ensures forall i :: 0 <= i < |data| ==> (Kept(p, RecordsOf(p, data))[i] ==
      if i % p < 3 then [48, 49, 50][i % p] else if i % p >= p - 2 then 69 else data[i])
  {
    var receptions := Receptions(p, RecordsOf(p, data));
    RecordsAreHeld(p, data);
    JoinedPrefix(p, data, receptions, |receptions|);
    assert receptions[..|receptions|] == receptions;
    assert Stamped(p, data)[..|data|] == Stamped(p, data);
  }

  // ---------------------------------------------------------------- the verdicts

  /** The chunk of the source at `start` is all 'C', its first and last five bytes aside. */
  predicate CleanChunk(p: nat, data: seq<byte>, start: nat)
  {
    forall i :: start + 5 <= i < start + p - 5 && i < |data| - 5 ==> data[i] == 67
  }

  /** The verdict on record number `k` is the verdict on its chunk of the source, unless it is the last
      and mistaken for an inner one, which always passes. */
  lemma {:induction false} VerdictIsExact(p: nat, data: seq<byte>, k: nat, start: nat)
    requires PacketSize(p) && k < Packets(p, |data|) && start == k * p
    ensures Receive(p, RecordsOf(p, data)[k]).ok <==>
      CleanChunk(p, data, start) || (start + p >= |data| && !TrailerSafe(LastSize(p, |data|)))
  {
    RecordReceived(p, data, k);
    SliceEof(p, |data|, k);
    SliceEnds(p, |data|, k, start);
    var size := if |data| - start <= p then |data| - start else p;
    if CleanChunk(p, data, start) {
      assert SourceIsData(data, start, size - 5);
    }
    if SourceIsData(data, start, size - 5) {
      assert CleanChunk(p, data, start);
    }
  }

  /** How many of the first `k` records fail the content check. */
  function BadRecords(p: nat, data: seq<byte>, k: nat): nat
    requires PacketSize(p) && data != []
  {
    if k == 0 then 0
    else
      var start := (k - 1) * p;
      var mistaken := start + p >= |data| && !TrailerSafe(LastSize(p, |data|));
      BadRecords(p, data, k - 1) + if CleanChunk(p, data, start) || mistaken then 0 else 1
  }

  /** A source of 'C' passes the content check in every record. */
  lemma {:induction false} LargeDataPasses(p: nat, data: seq<byte>, k: nat)
    requires PacketSize(p) && k < Packets(p, |data|)
    requires forall i :: 0 <= i < |data| ==> data[i] == 67
    ensures Receive(p, RecordsOf(p, data)[k]).ok
  {
    RecordReceived(p, data, k);
  }
}
