/** The record layout of the chunked transfer (app_05common.h, sendOnePacket, rcvDataBlock):
    what one record holds, what the client makes of it, and how a source is cut into slices. */
module Records {

  type byte = b: int | 0 <= b < 256

  const DATA_CODE: byte := 67        // 'C'
  const STAMP_START: byte := 48      // '0', followed by '1' and '2'
  const STAMP_END: byte := 69        // 'E'
  const SIZE_ONE_PACKET: nat := 8192
  const SIZE_LARGE_DATA: nat := 1024000

  /** The packet sizes the layout works for: a request fits the send buffer, a size fits the
      two trailer bytes. The repository uses 8192 and, before that, 2048. */
  predicate PacketSize(p: nat)
  {
    200 <= p < 65536
  }

  // ---------------------------------------------------------------- slices

  /** The arguments of one sendOnePacket call. */
  datatype Slice = Slice(start: nat, size: nat, eof: bool)

  /** The calls of the sendDataBlock loop from `start` on, with `left` bytes to go. */
  function Slices(p: nat, start: nat, left: nat): seq<Slice>
    requires p > 0
    decreases left
  {
    if left == 0 then []
    else if left > p then [Slice(start, p, false)] + Slices(p, start + p, left - p)
    else [Slice(start, left, true)]
  }

  /** Rounded up: the number of packets for `n` bytes. */
  function Packets(p: nat, n: nat): nat
    requires p > 0
  {
    if n == 0 then 0 else if n > p then 1 + Packets(p, n - p) else 1
  }

  /** The size of the last packet. */
  function LastSize(p: nat, n: nat): (r: nat)
    requires p > 0 && n > 0
    ensures 1 <= r <= p && r <= n
  {
    if n > p then LastSize(p, n - p) else n
  }

  /** The slices are adjacent, full up to the last one, and only the last one carries EOF. */
  lemma {:induction false} SlicesAre(p: nat, start: nat, left: nat, k: nat)
    requires p > 0 && k < |Slices(p, start, left)|
    ensures var s := Slices(p, start, left)[k]; var last := Packets(p, left) - 1;
      && s.start == start + k * p
      && s.size == (if k < last then p else LastSize(p, left))
      && (s.eof <==> k == last)
      && start <= s.start && s.start + s.size <= start + left && 1 <= s.size <= p
    decreases left
  {
    if left > p && k > 0 {
      SlicesAre(p, start + p, left - p, k - 1);
      assert (k - 1) * p + p == k * p;
    } else if left > p {
      PacketsPositive(p, left - p);
    }
  }

  lemma PacketsPositive(p: nat, n: nat)
    requires p > 0 && n > 0
    ensures Packets(p, n) > 0
  {
  }

  /** There are Packets of them, and together they have `left` bytes: all but the last are full. */
  lemma {:induction false} SliceCount(p: nat, start: nat, left: nat)
    requires p > 0
    ensures |Slices(p, start, left)| == Packets(p, left)
    ensures left > 0 ==> left == (Packets(p, left) - 1) * p + LastSize(p, left)
    decreases left
  {
    if left > p {
      SliceCount(p, start + p, left - p);
    }
  }

  /** A later slice starts where the earlier one ends, or after it. */
  lemma SlicesInOrder(p: nat, n: nat, j: nat, k: nat)
    requires p > 0 && j < k < |Slices(p, 0, n)|
    ensures Slices(p, 0, n)[j].start + Slices(p, 0, n)[j].size <= Slices(p, 0, n)[k].start
  {
    SlicesAre(p, 0, n, j);
    SlicesAre(p, 0, n, k);
    MultiplesApart(p, j, k);
  }

  lemma {:induction false} MultiplesApart(p: nat, j: nat, k: nat)
    requires j < k
    ensures j * p + p <= k * p
  {
    assert k * p == (k - 1) * p + p;
    if j < k - 1 {
      MultiplesApart(p, j, k - 1);
    }
  }

  predicate Holds(s: Slice, i: nat)
  {
    s.start <= i < s.start + s.size
  }

  /** Every byte of the source is in exactly one slice. */
  lemma Partition(p: nat, n: nat, i: nat) returns (k: nat)
    requires p > 0 && i < n
    ensures k < |Slices(p, 0, n)| && Holds(Slices(p, 0, n)[k], i)
    ensures forall j :: 0 <= j < |Slices(p, 0, n)| && j != k ==> !Holds(Slices(p, 0, n)[j], i)
  {
    k := CoveringSlice(p, 0, n, i);
    forall j | 0 <= j < |Slices(p, 0, n)| && j != k ensures !Holds(Slices(p, 0, n)[j], i) {
      if j < k {
        SlicesInOrder(p, n, j, k);
      } else {
        SlicesInOrder(p, n, k, j);
      }
    }
  }

  lemma {:induction false} CoveringSlice(p: nat, start: nat, left: nat, i: nat) returns (k: nat)
    requires p > 0 && start <= i < start + left
    ensures k < |Slices(p, start, left)| && Holds(Slices(p, start, left)[k], i)
    decreases left
  {
    k := 0;
    if left > p && i >= start + p {
      k := CoveringSlice(p, start + p, left - p, i);
      k := k + 1;
    }
  }

  // ---------------------------------------------------------------- one record

  /** Byte `j` of the record sendOnePacket sends for a slice. */
  function RecordByte(p: nat, data: seq<byte>, s: Slice, j: nat): byte
    requires PacketSize(p) && s.start + s.size <= |data| && s.size <= p && j < p + 3
  {
    if j < 3 then STAMP_START + j
    else if p - 2 <= j <= p then STAMP_END
    else if j == p + 1 then (if s.size < p || s.eof then s.size / 256 else 0)
    else if j == p + 2 then (if s.size < p || s.eof then s.size % 256 else 0)
    else if j < s.size then data[s.start + j]
    else 0
  }

  function Record(p: nat, data: seq<byte>, s: Slice): (r: seq<byte>)
    requires PacketSize(p) && s.start + s.size <= |data| && s.size <= p
    ensures |r| == p + 3
  {
    seq(p + 3, j requires 0 <= j < p + 3 => RecordByte(p, data, s, j))
  }

  function Zeros(n: nat): (r: seq<byte>)
    ensures |r| == n
  {
    seq(n, _ => 0)
  }

  /** s_rxBuf after one recv: zeroed first, so nothing of earlier records is left. */
  function Padded(p: nat, incoming: seq<byte>): (r: seq<byte>)
    requires |incoming| <= p + 3
    ensures |r| == p + 10
  {
    incoming + Zeros(p + 10 - |incoming|)
  }

  predicate CodeInTrailer(p: nat, buf: seq<byte>)
    requires |buf| == p + 10
  {
    buf[p + 1] == DATA_CODE || buf[p + 2] == DATA_CODE
  }

  function EofPosition(p: nat, buf: seq<byte>): nat
    requires |buf| == p + 10
  {
    (buf[p + 1] as int) * 256 + buf[p + 2] as int
  }

  /** The position the client zeroes lies in its buffer. */
  predicate InBounds(p: nat, incoming: seq<byte>)
    requires |incoming| <= p + 3
  {
    CodeInTrailer(p, Padded(p, incoming)) || EofPosition(p, Padded(p, incoming)) < p + 10
  }

  /** What rcvDataBlock returns, stores through prcvOK, takes for the size, and leaves in s_rxBuf. */
  datatype Reception = Reception(eof: bool, ok: bool, size: nat, buf: seq<byte>)

  /** Nothing but data codes, the five bytes at either end aside. */
  predicate AllData(buf: seq<byte>, size: nat)
    requires size <= |buf|
  {
    forall i :: 5 <= i < size - 5 ==> buf[i] == DATA_CODE
  }

  function Receive(p: nat, incoming: seq<byte>): Reception
    requires |incoming| <= p + 3 && InBounds(p, incoming)
  {
    var buf := Padded(p, incoming);
    var pos := EofPosition(p, buf);
    if CodeInTrailer(p, buf) then Reception(false, true, 0, buf)
    else if pos > 0 then Reception(true, AllData(buf, pos), pos, buf[pos := 0])
    else Reception(false, AllData(buf, p), p, buf)
  }

  /** Byte `i` of the buffer after a recv: what came, or the zero from before. */
  function ByteAt(incoming: seq<byte>, i: nat): byte
  {
    if i < |incoming| then incoming[i] else 0
  }

  /** The buffer holds what came, except for one zeroed byte if `eof`. */
  ghost predicate BufferIs(p: nat, incoming: seq<byte>, eof: bool, size: nat, buf: seq<byte>)
  {
    && |buf| == p + 10
    && forall i :: 0 <= i < p + 10 ==> buf[i] == if eof && i == size then 0 else ByteAt(incoming, i)
  }

  /** What the client makes of any bytes at all, aligned or not, told from the bytes: two of them
      decide whether it looks for data and how far, and one of them may be overwritten. */
  lemma AnyRead(p: nat, incoming: seq<byte>)
    requires |incoming| <= p + 3 && InBounds(p, incoming)
    ensures var r := Receive(p, incoming); var a, b := ByteAt(incoming, p + 1), ByteAt(incoming, p + 2);
      && (r.eof <==> a != 67 && b != 67 && a + b > 0)
      && r.size == (if a == 67 || b == 67 then 0 else if r.eof then (a as int) * 256 + b as int else p)
      && (r.ok <==> a == 67 || b == 67 || forall i :: 5 <= i < r.size - 5 ==> ByteAt(incoming, i) == 67)
      && BufferIs(p, incoming, r.eof, r.size, r.buf)
  {
    var r := Receive(p, incoming);
    var a, b := ByteAt(incoming, p + 1), ByteAt(incoming, p + 2);
    var buf := Padded(p, incoming);
    assert buf[p + 1] == a && buf[p + 2] == b;
    assert forall i :: 0 <= i < p + 10 ==> buf[i] == ByteAt(incoming, i);
    if a != 67 && b != 67 {
      forall i | 5 <= i < r.size - 5 ensures buf[i] == ByteAt(incoming, i) {
      }
      if r.ok {
        forall i | 5 <= i < r.size - 5 ensures ByteAt(incoming, i) == 67 {
          assert buf[i] == DATA_CODE;
        }
      }
    }
  }

  // ---------------------------------------------------------------- what survives a record

  /** The trailer of a last packet of this size holds no data code. */
  predicate TrailerSafe(size: nat)
  {
    size / 256 != DATA_CODE && size % 256 != DATA_CODE
  }

  /** The source bytes from offset 5 of the slice up to, not including, `upTo` are all data. */
  predicate SourceIsData(data: seq<byte>, start: nat, upTo: int)
    requires start + upTo <= |data|
  {
    forall i :: start + 5 <= i < start + upTo ==> data[i] == DATA_CODE
  }

  /** A slice as sendDataBlock makes it. */
  predicate Sendable(p: nat, data: seq<byte>, s: Slice)
  {
    s.start + s.size <= |data| && 1 <= s.size <= p && (!s.eof ==> s.size == p)
  }

  lemma TrailerOfRecord(p: nat, data: seq<byte>, s: Slice)
    requires PacketSize(p) && Sendable(p, data, s)
    ensures var buf := Padded(p, Record(p, data, s));
      && (CodeInTrailer(p, buf) <==> s.eof && !TrailerSafe(s.size))
      && EofPosition(p, buf) == (if s.eof then s.size else 0)
      && InBounds(p, Record(p, data, s))
  {
  }

  /** What the client keeps of a slice: the source, with the stamps over it. */
  function StampedByte(p: nat, offset: nat, original: byte): byte
    requires PacketSize(p) && offset < p
  {
    if offset < 3 then STAMP_START + offset
    else if offset >= p - 2 then STAMP_END
    else original
  }

  /** The client's view of one aligned record whose trailer holds no data code: end and size are
      recognised, the first `size` bytes are the slice with its stamps, and the verdict looks at
      the source bytes from offset 5 to size - 6 only, so the stamps never matter. The byte behind
      the data of a last record is zeroed; all others stay as they were sent. */
  lemma AlignedRecord(p: nat, data: seq<byte>, s: Slice)
    requires PacketSize(p) && Sendable(p, data, s) && (s.eof ==> TrailerSafe(s.size))
    ensures InBounds(p, Record(p, data, s))
    ensures var r := Receive(p, Record(p, data, s));
      && r.eof == s.eof && r.size == s.size && |r.buf| == p + 10
      && (r.ok <==> SourceIsData(data, s.start, s.size - 5))
      && (forall i :: 0 <= i < s.size ==> r.buf[i] == StampedByte(p, i, data[s.start + i]))
      && (s.eof ==> r.buf[s.size] == 0)
      && BufferIs(p, Record(p, data, s), s.eof, s.size, r.buf)
  {
    TrailerOfRecord(p, data, s);
    var buf := Padded(p, Record(p, data, s));
    VerdictIsSource(p, data, s, buf, s.size - 5);
  }

  /** A buffer that agrees with the slice passes exactly when the source does. */
  lemma VerdictIsSource(p: nat, data: seq<byte>, s: Slice, buf: seq<byte>, upTo: int)
    requires PacketSize(p) && Sendable(p, data, s) && upTo <= s.size && upTo <= p - 5 && |buf| == p + 10
    requires forall i :: 5 <= i < upTo ==> buf[i] == RecordByte(p, data, s, i)
    ensures (forall i :: 5 <= i < upTo ==> buf[i] == DATA_CODE) <==> SourceIsData(data, s.start, upTo)
  {
    if forall i :: 5 <= i < upTo ==> buf[i] == DATA_CODE {
      forall i | s.start + 5 <= i < s.start + upTo ensures data[i] == DATA_CODE {
        assert buf[i - s.start] == DATA_CODE;
      }
    }
    if SourceIsData(data, s.start, upTo) {
      forall i | 5 <= i < upTo ensures buf[i] == DATA_CODE {
        assert data[s.start + i] == DATA_CODE;
      }
    }
  }

  /** A last record whose trailer does hold a data code is taken for a good inner record. */
  lemma MistakenRecord(p: nat, data: seq<byte>, s: Slice)
    requires PacketSize(p) && Sendable(p, data, s) && s.eof && !TrailerSafe(s.size)
    ensures InBounds(p, Record(p, data, s))
    ensures var r := Receive(p, Record(p, data, s));
      !r.eof && r.ok && r.size == 0 && BufferIs(p, Record(p, data, s), false, 0, r.buf)
  {
    TrailerOfRecord(p, data, s);
  }

  /** A read of `m` bytes holds the high byte of this size, but not the low one. */
  predicate HalfTrailer(p: nat, s: Slice, m: nat)
  {
    m == p + 2 && s.eof && s.size / 256 != 0
  }

  /** What the client makes of a record cut short anywhere. It reports the end of the data exactly
      if the cut falls between the two bytes of a size whose high byte is neither 0 nor a 'C', and
      then takes the size without its low byte. Any other cut passes only if it is long enough and
      carries nothing but data (up to p - 6 bytes never do), except that a high byte 'C' passes. */
  lemma TruncatedRead(p: nat, data: seq<byte>, s: Slice, m: nat)
    requires PacketSize(p) && Sendable(p, data, s) && m < p + 3
    ensures InBounds(p, Record(p, data, s)[..m])
    ensures var r := Receive(p, Record(p, data, s)[..m]); var high := s.size - s.size % 256;
      && (r.eof <==> HalfTrailer(p, s, m) && s.size / 256 != DATA_CODE)
      && (r.eof ==> r.size == high && (r.ok <==> SourceIsData(data, s.start, high - 5)))
      && (!r.eof ==> r.size == if HalfTrailer(p, s, m) then 0 else p)
      && (HalfTrailer(p, s, m) && !r.eof ==> r.ok)
      && (!HalfTrailer(p, s, m) ==>
            (r.ok <==> m >= p - 5 && s.size >= p - 5 && SourceIsData(data, s.start, p - 5)))
      && BufferIs(p, Record(p, data, s)[..m], r.eof, r.size, r.buf)
  {
    var buf := Padded(p, Record(p, data, s)[..m]);
    assert buf[p + 1] == (if m == p + 2 && s.eof then s.size / 256 else 0) && buf[p + 2] == 0;
    if HalfTrailer(p, s, m) {
      VerdictIsSource(p, data, s, buf, s.size - s.size % 256 - 5);
    } else if m >= p - 5 && s.size >= p - 5 {
      VerdictIsSource(p, data, s, buf, p - 5);
    } else {
      assert buf[p - 6] == 0;
    }
  }
}
