/** The byte stream of a session as the client cuts it up: which sequences of receptions are possible
    at all, and what becomes of a transfer whose data catches up with the reply. */
module SessionStream {
  import opened Basics
  import opened Records
  import opened Transfer
  import opened Session
  import Server

  /** Everything the server sends in one transfer. */
  function Whole(c: Config): seq<byte>
  {
    REPLY + Flat(c.records)
  }

  /** The client has read the reply. */
  predicate PastReply(s: State)
  {
    s.client !in {CRequest, CReply}
  }

  // ---------------------------------------------------------------- what the client can receive

  /** Which pieces the client takes for the end of the data. */
  function EndOf(c: Config): seq<byte> -> bool
  {
    (piece: seq<byte>) => |piece| <= c.packet + 3 && SaysEof(c.packet, piece)
  }

  predicate StillReading(end: seq<byte> -> bool, got: seq<seq<byte>>)
  {
    got == [] || !end(got[|got| - 1])
  }

  /** The pieces, of up to `w` bytes, are cut from the stream between `f` and `at`, without a gap and in
      order; none but the last is an end. */
  ghost predicate IsCut(
      end: seq<byte> -> bool, w: nat, stream: seq<byte>, f: nat, at: nat, got: seq<seq<byte>>)
  {
    && 1 <= f <= 200 && f <= at <= |stream| && Flat(got) == stream[f..at]
    && (forall k :: 0 <= k < |got| ==> 1 <= |got[k]| <= w)
    && (forall k :: 0 <= k < |got| - 1 ==> !end(got[k]))
  }

  /** What the client has consumed is the first recv and the pieces; it is still reading exactly if
      the last of them did not say EOF. */
  ghost predicate HoldsCut(c: Config, s: State, f: nat)
    requires WellFormed(c, s)
  {
    && IsCut(EndOf(c), c.packet + 3, s.sent, f, s.consumed, s.got)
    && (s.client.CRecord? <==> StillReading(EndOf(c), s.got))
  }

  lemma CutOfLonger(
      end: seq<byte> -> bool, w: nat, stream: seq<byte>, longer: seq<byte>, f: nat, at: nat, got: seq<seq<byte>>)
    requires IsCut(end, w, stream, f, at, got) && stream <= longer
    ensures IsCut(end, w, longer, f, at, got)
  {
    assert stream[f..at] == longer[f..at];
  }

  lemma JoinStream(stream: seq<byte>, f: nat, at: nat, to: nat)
    requires f <= at <= to <= |stream|
    ensures stream[f..at] + stream[at..to] == stream[f..to]
  {
  }

  lemma CutGrows(
      end: seq<byte> -> bool, w: nat, stream: seq<byte>, f: nat, at: nat, to: nat, got: seq<seq<byte>>)
    requires IsCut(end, w, stream, f, at, got) && StillReading(end, got) && at < to <= at + w && to <= |stream|
    ensures IsCut(end, w, stream, f, to, got + [stream[at..to]])
  {
    var piece := stream[at..to];
    var longer := got + [piece];
    FlatAppend(got, piece);
    JoinStream(stream, f, at, to);
    forall k | 0 <= k < |longer| ensures 1 <= |longer[k]| <= w && (k < |got| ==> !end(longer[k])) {
      assert longer[k] == if k < |got| then got[k] else piece;
    }
  }

  lemma ReplyTaken(c: Config, s: State) returns (f: nat)
    requires Invariant(c, s) && Enabled(c, s, TheClient) && s.client.CReply?
    ensures HoldsCut(c, ClientStep(c, s), f)
  {
    f := |Taken(s, Server.SIZE_RCV_BUF)|;
    assert Flat([]) == s.sent[f..f];
  }

  /** One recv of a record, told by what it does to the stream. */
  lemma ClientTakes(c: Config, s: State) returns (to: nat)
    requires WellFormed(c, s) && Enabled(c, s, TheClient) && s.client.CRecord?
    ensures s.consumed < to <= s.consumed + c.packet + 3 && to <= s.delivered
    ensures to == s.delivered || to == s.consumed + c.packet + 3
    ensures var piece := s.sent[s.consumed..to];
      ClientStep(c, s) == s.(consumed := to, got := s.got + [piece],
                             client := if EndOf(c)(piece) then CClose else CRecord)
  {
    to := s.consumed + |Taken(s, c.packet + 3)|;
  }

  lemma RecordTaken(c: Config, s: State, f: nat)
    requires WellFormed(c, s) && Enabled(c, s, TheClient) && s.client.CRecord? && HoldsCut(c, s, f)
    ensures HoldsCut(c, ClientStep(c, s), f)
  {
    var to := ClientTakes(c, s);
    CutGrows(EndOf(c), c.packet + 3, s.sent, f, s.consumed, to, s.got);
  }

  lemma {:induction false} ReceptionsAreCut(c: Config, sched: seq<Actor>) returns (f: nat)
    requires Execute(c, sched).Some?
    ensures PastReply(Execute(c, sched).value) ==> HoldsCut(c, Execute(c, sched).value, f)
  {
    f := 0;
    if sched != [] {
      var before, a := sched[..|sched| - 1], sched[|sched| - 1];
      var s := Execute(c, before).value;
      f := ReceptionsAreCut(c, before);
      InvariantHolds(c, before);
      if a.TheClient? && s.client.CReply? {
        f := ReplyTaken(c, s);
      } else if a.TheClient? && s.client.CRecord? {
        RecordTaken(c, s, f);
      } else if PastReply(s) {
        CutOfLonger(EndOf(c), c.packet + 3, s.sent, Step(c, s, a).sent, f, s.consumed, s.got);
      }
    }
  }

  lemma {:induction false} FlatPrefixOf(parts: seq<seq<byte>>, k: nat)
    requires k <= |parts|
    ensures Flat(parts[..k]) <= Flat(parts)
  {
    if k < |parts| {
      FlatPrefixOf(parts[..|parts| - 1], k);
      assert parts[..|parts| - 1][..k] == parts[..k];
    } else {
      assert parts[..k] == parts;
    }
  }

  /** What has been sent is a beginning of the whole. */
  lemma SentIsPrefix(c: Config, s: State)
    requires Invariant(c, s)
    ensures s.sent <= Whole(c)
  {
    FlatPrefixOf(c.records, InStream(c, s));
  }

  // ---------------------------------------------------------------- and every such cut is received

  /** The server has sent `k` records, and nothing has been delivered yet. */
  lemma {:induction false} SentAfter(c: Config, k: nat) returns (sched: seq<Actor>)
    requires k <= |c.records|
    ensures Execute(c, sched) == Some(State(SSend(k), CReply, false, REPLY + Flat(c.records[..k]), 0, 0, []))
  {
    if k == 0 {
      sched := After(c, [], TheClient);
      sched := After(c, sched, TheServer);
      sched := After(c, sched, TheServer);
      assert [] + REPLY == REPLY + Flat(c.records[..0]);
    } else {
      sched := SentAfter(c, k - 1);
      OneMoreRecord(c.records, k - 1);
      sched := After(c, sched, TheServer);
    }
  }

  /** Everything is sent, and the client has taken these pieces, up to `at`. */
  ghost predicate HasTaken(c: Config, s: State, stream: seq<byte>, at: nat, got: seq<seq<byte>>)
  {
    && s.server.SRecv? && s.served && s.sent == stream && s.got == got
    && s.delivered == s.consumed == at
    && s.client == if StillReading(EndOf(c), got) then CRecord else CClose
  }

  lemma FirstTaken(c: Config, f: nat) returns (sched: seq<Actor>)
    requires 1 <= f <= 200 && f <= |Whole(c)|
    ensures Execute(c, sched).Some? && HasTaken(c, Execute(c, sched).value, Whole(c), f, [])
  {
    sched := SentAfter(c, |c.records|);
    assert c.records[..|c.records|] == c.records;
    sched := After(c, sched, TheServer);
    sched := After(c, sched, Network(f));
    sched := After(c, sched, TheClient);
  }

  /** With just the next piece queued, the client takes it. */
  lemma TakesQueued(c: Config, s: State, stream: seq<byte>, at: nat, to: nat, got: seq<seq<byte>>)
    requires WellFormed(c, s) && HasTaken(c, s, stream, at, got) && StillReading(EndOf(c), got)
    requires at < to <= |stream| && to <= at + c.packet + 3
    ensures var s' := s.(delivered := to);
      && WellFormed(c, s') && Enabled(c, s', TheClient)
      && HasTaken(c, ClientStep(c, s'), stream, to, got + [stream[at..to]])
  {
    var end := ClientTakes(c, s.(delivered := to));
  }

  /** The network delivers just the next piece, and the client takes it. */
  lemma PieceTaken(c: Config, sched: seq<Actor>, stream: seq<byte>, at: nat, to: nat, got: seq<seq<byte>>)
    returns (longer: seq<Actor>)
    requires Execute(c, sched).Some? && HasTaken(c, Execute(c, sched).value, stream, at, got)
    requires StillReading(EndOf(c), got) && at < to <= |stream| && to <= at + c.packet + 3
    ensures Execute(c, longer).Some?
    ensures HasTaken(c, Execute(c, longer).value, stream, to, got + [stream[at..to]])
  {
    var s := Execute(c, sched).value;
    TakesQueued(c, s, stream, at, to, got);
    longer := After(c, sched, Network(to - at));
    assert Execute(c, longer) == Some(s.(delivered := to));
    longer := After(c, longer, TheClient);
  }

  /** The last piece of a cut, taken off again. */
  lemma ShorterCut(end: seq<byte> -> bool, w: nat, stream: seq<byte>, f: nat, to: nat, got: seq<seq<byte>>)
    returns (at: nat)
    requires IsCut(end, w, stream, f, to, got) && got != []
    ensures at < to <= at + w && got[|got| - 1] == stream[at..to]
    ensures IsCut(end, w, stream, f, at, got[..|got| - 1]) && StillReading(end, got[..|got| - 1])
  {
    var piece := got[|got| - 1];
    at := to - |piece|;
    var flat := Flat(got[..|got| - 1]);
    assert stream[f..to] == flat + piece;
    assert flat == stream[f..to][..|flat|] && piece == stream[f..to][|flat|..];
  }

  lemma {:induction false} EveryCutIsTaken(c: Config, stream: seq<byte>, f: nat, to: nat, got: seq<seq<byte>>)
    returns (sched: seq<Actor>)
    requires stream == Whole(c) && IsCut(EndOf(c), c.packet + 3, stream, f, to, got)
    ensures Execute(c, sched).Some? && HasTaken(c, Execute(c, sched).value, stream, to, got)
    decreases |got|
  {
    if got == [] {
      sched := FirstTaken(c, f);
    } else {
      var before := got[..|got| - 1];
      var at := ShorterCut(EndOf(c), c.packet + 3, stream, f, to, got);
      sched := EveryCutIsTaken(c, stream, f, at, before);
      sched := PieceTaken(c, sched, stream, at, to, before);
      assert got == before + [stream[at..to]];
    }
  }

  /** The same for the whole stream of a transfer. */
  ghost predicate IsCutOfWhole(c: Config, f: nat, at: nat, got: seq<seq<byte>>)
  {
    IsCut(EndOf(c), c.packet + 3, Whole(c), f, at, got)
  }

  /** Some run has made these receptions behind the reply. */
  ghost predicate IsReceivedBySomeRun(c: Config, got: seq<seq<byte>>)
  {
    exists sched :: Execute(c, sched).Some? && PastReply(Execute(c, sched).value) && Execute(c, sched).value.got == got
  }

  /** The client can receive exactly the cuts of the stream: a first recv of up to 200 bytes, and then
      pieces of any size up to a record's, one behind the other, until one of them says EOF. Nothing
      is lost, doubled or reordered, and no way of cutting is impossible. */
  lemma ReceptionsAreExact(c: Config, got: seq<seq<byte>>)
    ensures IsReceivedBySomeRun(c, got) <==> exists f, at :: IsCutOfWhole(c, f, at, got)
  {
    if IsReceivedBySomeRun(c, got) {
      var sched :| Execute(c, sched).Some? && PastReply(Execute(c, sched).value) && Execute(c, sched).value.got == got;
      var s := Execute(c, sched).value;
      var f := ReceptionsAreCut(c, sched);
      InvariantHolds(c, sched);
      SentIsPrefix(c, s);
      CutOfLonger(EndOf(c), c.packet + 3, s.sent, Whole(c), f, s.consumed, got);
      assert IsCutOfWhole(c, f, s.consumed, got);
    }
    if f, at :| IsCutOfWhole(c, f, at, got) {
      var sched := EveryCutIsTaken(c, Whole(c), f, at, got);
      assert PastReply(Execute(c, sched).value);
    }
  }

  // ---------------------------------------------------------------- where runs end

  /** Somebody can move unless both have closed or wait for each other, with nothing under way. */
  lemma SomebodyMoves(c: Config, s: State) returns (a: Actor)
    requires Invariant(c, s) && !Deadlocked(c, s) && !(Finished(s) && s.delivered == |s.sent|)
    ensures Enabled(c, s, a)
  {
    a := if Enabled(c, s, TheServer) then TheServer
         else if s.delivered < |s.sent| then Network(|s.sent| - s.delivered)
         else TheClient;
  }

  /** Every run, in time or not, aligned or not, is stuck in just two ways: both ends have closed, or the
      client waits for a record and the server for a request. */
  lemma StuckIsExact(c: Config, sched: seq<Actor>)
    requires Execute(c, sched).Some?
    ensures var s := Execute(c, sched).value;
      (forall a :: !Enabled(c, s, a)) <==> (Finished(s) && s.delivered == |s.sent|) || Deadlocked(c, s)
  {
    var s := Execute(c, sched).value;
    InvariantHolds(c, sched);
    DeadlockIsFinal(c, s);
    if !Deadlocked(c, s) && !(Finished(s) && s.delivered == |s.sent|) {
      var a := SomebodyMoves(c, s);
    }
  }

  // ---------------------------------------------------------------- early data

  /** One transfer of a source that is all 'C'. */
  ghost predicate SendsCodes(c: Config, data: seq<byte>)
  {
    && PacketSize(c.packet) && c.records == RecordsOf(c.packet, data)
    && forall i :: 0 <= i < |data| ==> data[i] == 67
  }

  /** The recv of the reply has filled its buffer, 193 bytes of the first record included, and every
      later one found a full record's length, or all that was left. */
  ghost predicate RanEarly(c: Config, s: State)
  {
    && PastReply(s) && s.consumed == 200 + |Flat(s.got)|
    && forall k :: 0 <= k < |s.got| ==>
      |s.got[k]| == c.packet + 3 || (k == |s.got| - 1 && s.consumed == |Whole(c)|)
  }

  /** Behind pieces of one width the last stands at a multiple of it. */
  lemma LastPieceStands(got: seq<seq<byte>>, w: nat, k: nat)
    requires k == |got| - 1 && forall i :: 0 <= i < k ==> |got[i]| == w
    ensures Rows(w, k) + |got[k]| == |Flat(got)|
    ensures Flat(got)[Rows(w, k)..] == got[k]
  {
    FlatLength(got[..k], w);
  }

  /** Byte `j` of record number `k`, found in the stream. */
  lemma ByteOfStream(c: Config, k: nat, j: nat)
    requires ConfigOk(c) && k < |c.records| && j < c.packet + 3
    ensures var at := 7 + Rows(c.packet + 3, k) + j; at < |Whole(c)| && Whole(c)[at] == c.records[k][j]
  {
    var w := c.packet + 3;
    var at := Rows(w, k);
    FlatPart(c.records, w, k, at);
    assert Flat(c.records)[at..at + w][j] == Flat(c.records)[at + j];
  }

  /** At these offsets a record of a source of 'C' holds a 'C', or nothing from there on. */
  lemma DataOrNothing(p: nat, data: seq<byte>, k: nat)
    requires PacketSize(p) && forall i :: 0 <= i < |data| ==> data[i] == 67
    requires k < Packets(p, |data|)
    ensures var r := RecordsOf(p, data)[k]; |r| == p + 3 && (r[191] == 67 || r[191] == r[192] == 0)
  {
    var start := k * p;
    RecordLayout(p, data, k, start, 191);
    RecordLayout(p, data, k, start, 192);
  }

  /** A full read that has such bytes where the client looks for the trailer finds no end. */
  lemma ShiftedRead(p: nat, piece: seq<byte>)
    requires |piece| == p + 3 && (piece[p + 1] == 67 || piece[p + 1] == piece[p + 2] == 0)
    ensures !SaysEof(p, piece)
  {
    if InBounds(p, piece) {
      AnyRead(p, piece);
    }
  }

  /** A read that ends before the trailer never finds an end. */
  lemma ShortRead(p: nat, piece: seq<byte>)
    requires |piece| <= p + 1
    ensures !SaysEof(p, piece)
  {
    if InBounds(p, piece) {
      AnyRead(p, piece);
    }
  }

  /** How many records there are behind a piece that starts 193 bytes into record `k`. */
  lemma PieceEnds(c: Config, k: nat, n: nat)
    requires ConfigOk(c) && 1 <= n <= c.packet + 3 && 200 + Rows(c.packet + 3, k) + n <= |Whole(c)|
    requires n == c.packet + 3 || 200 + Rows(c.packet + 3, k) + n == |Whole(c)|
    ensures k < |c.records| && (n == c.packet + 3 ==> k + 1 < |c.records|)
    ensures n < c.packet + 3 ==> n <= c.packet + 1
  {
    var w := c.packet + 3;
    FlatLength(c.records, w);
    if k >= |c.records| {
      if k > |c.records| {
        RowsApart(w, |c.records|, k);
      }
    } else if k + 1 < |c.records| {
      if k + 2 < |c.records| {
        RowsApart(w, k + 2, |c.records|);
      }
    }
  }

  lemma SliceByte(part: seq<byte>, whole: seq<byte>, at: nat, i: nat)
    requires at + |part| <= |whole| && part == whole[at..at + |part|] && i < |part|
    ensures part[i] == whole[at + i]
  {
  }

  lemma ByteOfPiece(c: Config, got: seq<seq<byte>>, k: nat, i: nat, j: nat)
    requires ConfigOk(c) && k + 1 < |c.records| && k == |got| - 1 && i < |got[k]| && i == j + c.packet - 190
    requires forall x :: 0 <= x < k ==> |got[x]| == c.packet + 3
    requires 200 + |Flat(got)| <= |Whole(c)| && Flat(got) == Whole(c)[200..200 + |Flat(got)|]
    requires j < c.packet + 3
    ensures got[k][i] == c.records[k + 1][j]
  {
    var at := Rows(c.packet + 3, k);
    LastPieceStands(got, c.packet + 3, k);
    assert got[k][i] == Flat(got)[at..][i] == Flat(got)[at + i];
    SliceByte(Flat(got), Whole(c), 200, at + i);
    ByteOfStream(c, k + 1, j);
  }

  /** The last piece starts 193 bytes into record `k`: a full one has two bytes of the data of the next
      record where the client looks for the trailer, a shorter one does not reach so far. */
  lemma EarlyPiece(c: Config, data: seq<byte>, got: seq<seq<byte>>, k: nat)
    requires SendsCodes(c, data)
    requires k == |got| - 1 && forall i :: 0 <= i < k ==> |got[i]| == c.packet + 3
    requires 200 + |Flat(got)| <= |Whole(c)| && Flat(got) == Whole(c)[200..200 + |Flat(got)|]
    requires 1 <= |got[k]| <= c.packet + 3
    requires |got[k]| == c.packet + 3 || 200 + |Flat(got)| == |Whole(c)|
    ensures !SaysEof(c.packet, got[k])
  {
    var n := |got[k]|;
    ConfigIsOk(c.packet, data);
    LastPieceStands(got, c.packet + 3, k);
    PieceEnds(c, k, n);
    if n == c.packet + 3 {
      ByteOfPiece(c, got, k, c.packet + 1, 191);
      ByteOfPiece(c, got, k, c.packet + 2, 192);
      DataOrNothing(c.packet, data, k + 1);
      ShiftedRead(c.packet, got[k]);
    } else {
      ShortRead(c.packet, got[k]);
    }
  }

  lemma EarlyStillReads(c: Config, data: seq<byte>, s: State, f: nat)
    requires SendsCodes(c, data) && WellFormed(c, s) && HoldsCut(c, s, f) && s.sent <= Whole(c) && RanEarly(c, s)
    ensures s.client.CRecord?
  {
    CutOfLonger(EndOf(c), c.packet + 3, s.sent, Whole(c), f, s.consumed, s.got);
    if s.got != [] {
      EarlyPiece(c, data, s.got, |s.got| - 1);
    }
  }

  /** Without the pause before the data the communication fails: once the recv of the reply has taken
      the start of the first record along, the client never sees the end of a source of 'C'. When all
      is consumed, both ends wait for ever. */
  lemma EarlyDataNeverEnds(c: Config, data: seq<byte>, sched: seq<Actor>)
    requires SendsCodes(c, data) && Execute(c, sched).Some? && RanEarly(c, Execute(c, sched).value)
    ensures var s := Execute(c, sched).value;
      && s.client.CRecord?
      && (s.consumed == |Whole(c)| && s.server.SRecv? ==> Deadlocked(c, s))
  {
    var s := Execute(c, sched).value;
    var f := ReceptionsAreCut(c, sched);
    InvariantHolds(c, sched);
    SentIsPrefix(c, s);
    EarlyStillReads(c, data, s, f);
  }

  /** An early client that has taken these pieces, up to `at`, with everything sent. */
  ghost predicate EarlyAfter(c: Config, sched: seq<Actor>, at: nat, got: seq<seq<byte>>)
  {
    && Execute(c, sched).Some? && HasTaken(c, Execute(c, sched).value, Whole(c), at, got)
    && RanEarly(c, Execute(c, sched).value)
  }

  lemma RanEarlyLonger(c: Config, s: State, s': State, piece: seq<byte>)
    requires RanEarly(c, s) && PastReply(s') && s'.got == s.got + [piece]
    requires s.consumed < s'.consumed == s.consumed + |piece| <= |Whole(c)|
    requires |piece| == c.packet + 3 || s'.consumed == |Whole(c)|
    ensures RanEarly(c, s')
  {
    FlatAppend(s.got, piece);
    forall k | 0 <= k < |s'.got|
      ensures |s'.got[k]| == c.packet + 3 || (k == |s'.got| - 1 && s'.consumed == |Whole(c)|)
    {
      assert s'.got[k] == if k < |s.got| then s.got[k] else piece;
    }
  }

  /** The next recv finds a full record's length, or all that is left. */
  lemma NextEarlyPiece(c: Config, data: seq<byte>, sched: seq<Actor>, at: nat, to: nat, got: seq<seq<byte>>)
    returns (longer: seq<Actor>)
    requires SendsCodes(c, data) && EarlyAfter(c, sched, at, got)
    requires at < to <= |Whole(c)| && (to == at + c.packet + 3 || (to == |Whole(c)| && to < at + c.packet + 3))
    ensures EarlyAfter(c, longer, to, got + [Whole(c)[at..to]])
  {
    EarlyDataNeverEnds(c, data, sched);
    longer := PieceTaken(c, sched, Whole(c), at, to, got);
    RanEarlyLonger(c, Execute(c, sched).value, Execute(c, longer).value, Whole(c)[at..to]);
  }

  lemma {:induction false} ReadsTheRest(c: Config, data: seq<byte>, sched: seq<Actor>, at: nat, got: seq<seq<byte>>)
    returns (longer: seq<Actor>)
    requires SendsCodes(c, data) && EarlyAfter(c, sched, at, got) && at <= |Whole(c)|
    ensures Execute(c, longer).Some?
    ensures RanEarly(c, Execute(c, longer).value) && Deadlocked(c, Execute(c, longer).value)
    decreases |Whole(c)| - at
  {
    var n := |Whole(c)|;
    if at < n {
      var to := if at + c.packet + 3 <= n then at + c.packet + 3 else n;
      longer := NextEarlyPiece(c, data, sched, at, to, got);
      longer := ReadsTheRest(c, data, longer, to, got + [Whole(c)[at..to]]);
    } else {
      longer := sched;
      EarlyDataNeverEnds(c, data, sched);
    }
  }

  /** Every source of 'C' has such a run, and it ends with both ends waiting for each other. */
  lemma EarlyDataHangs(c: Config, data: seq<byte>) returns (sched: seq<Actor>)
    requires SendsCodes(c, data) && data != []
    ensures Execute(c, sched).Some?
    ensures RanEarly(c, Execute(c, sched).value) && Deadlocked(c, Execute(c, sched).value)
  {
    ConfigIsOk(c.packet, data);
    PacketsPositive(c.packet, |data|);
    ByteOfStream(c, 0, c.packet + 2);
    sched := FirstTaken(c, 200);
    sched := ReadsTheRest(c, data, sched, 200, []);
  }
}
