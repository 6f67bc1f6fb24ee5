/** Both ends of one transfer over a byte stream, under every interleaving. The stream keeps no
    record boundaries: the network delivers bytes in lumps of any size, and recv takes what has
    been delivered, up to the length asked for. */
module Session {
  import opened Basics
  import opened Records
  import opened Transfer
  import Server

  const REQUEST: seq<byte> := [114, 101, 113, 0]  // "req" and NUL

  const REPLY: seq<byte> := [114, 101, 113, 44, 79, 75, 0]  // "req,OK" and NUL

  /** What the server replies to the client's request, whatever its buffer held behind it. */
  lemma ReplyToRequest(buf: seq<byte>)
    requires |buf| == Server.SIZE_RCV_BUF && buf[..4] == REQUEST == [114, 101, 113, 0]
    ensures Server.ReplyTo(buf, 4) == REPLY == [114, 101, 113, 44, 79, 75, 0]
  {
    assert buf[0] == REQUEST[0] && buf[1] == REQUEST[1] && buf[2] == REQUEST[2] && buf[3] == REQUEST[3];
    Server.TextEndsAtZero(buf, 3);
    assert Server.TextOf(buf) == [114, 101, 113];
  }

  /** One transfer of these records. */
  datatype Config = Config(packet: nat, records: seq<seq<byte>>)

  ghost predicate ConfigOk(c: Config)
  {
    PacketSize(c.packet) && forall k :: 0 <= k < |c.records| ==> |c.records[k]| == c.packet + 3
  }

  datatype ServerPc = SRecv | SReply | SSend(k: nat) | SClosed

  datatype ClientPc = CRequest | CReply | CRecord | CClose | CDone

  /** `sent` is everything the server has put into the stream; `delivered` of it have reached the
      client's host, and the client has taken `consumed` of those. `got` lists what each recv of a
      record returned. */
  datatype State = State(
    server: ServerPc, client: ClientPc, served: bool,
    sent: seq<byte>, delivered: nat, consumed: nat, got: seq<seq<byte>>)

  datatype Actor = TheServer | TheClient | Network(lump: nat)

  const START := State(SRecv, CRequest, false, [], 0, 0, [])

  predicate WellFormed(c: Config, s: State)
  {
    && s.consumed <= s.delivered <= |s.sent|
    && (s.server.SSend? ==> s.server.k <= |c.records|)
  }

  /** What the next recv finds. */
  function Queued(s: State): nat
    requires s.consumed <= s.delivered
  {
    s.delivered - s.consumed
  }

  predicate Enabled(c: Config, s: State, a: Actor)
    requires WellFormed(c, s)
  {
    match a
    case TheServer =>
      (match s.server
       case SRecv => (if s.served then s.client.CDone? else !s.client.CRequest?)
       case SClosed => false
       case _ => true)
    case TheClient =>
      (match s.client
       case CReply | CRecord => Queued(s) > 0
       case CDone => false
       case _ => true)
    case Network(lump) => 0 < lump <= |s.sent| - s.delivered
  }

  /** recv: what is queued, up to `max` bytes. */
  function Taken(s: State, max: nat): (r: seq<byte>)
    requires s.consumed <= s.delivered <= |s.sent|
    ensures |r| == (if Queued(s) <= max then Queued(s) else max)
  {
    s.sent[s.consumed..s.consumed + (if Queued(s) <= max then Queued(s) else max)]
  }

  /** Does the client take these bytes for the end of the data? */
  predicate SaysEof(p: nat, incoming: seq<byte>)
    requires |incoming| <= p + 3
  {
    InBounds(p, incoming) && Receive(p, incoming).eof
  }

  function ServerStep(c: Config, s: State): (s': State)
    requires WellFormed(c, s) && Enabled(c, s, TheServer)
    ensures WellFormed(c, s')
  {
    match s.server
    case SRecv => s.(server := if s.served then SClosed else SReply)
    case SReply => s.(sent := s.sent + REPLY, server := SSend(0))
    case SSend(k) =>
      if k < |c.records|
      then s.(sent := s.sent + c.records[k], server := SSend(k + 1))
      else s.(served := true, server := SRecv)
  }

  function ClientStep(c: Config, s: State): (s': State)
    requires WellFormed(c, s) && Enabled(c, s, TheClient)
    ensures WellFormed(c, s')
  {
    match s.client
    case CRequest => s.(client := CReply)
    case CReply => s.(consumed := s.consumed + |Taken(s, Server.SIZE_RCV_BUF)|, client := CRecord)
    case CRecord =>
      var incoming := Taken(s, c.packet + 3);
      s.(consumed := s.consumed + |incoming|, got := s.got + [incoming],
         client := if SaysEof(c.packet, incoming) then CClose else CRecord)
    case CClose => s.(client := CDone)
  }

  function Step(c: Config, s: State, a: Actor): (s': State)
    requires WellFormed(c, s) && Enabled(c, s, a)
    ensures WellFormed(c, s')
  {
    match a
    case TheServer => ServerStep(c, s)
    case TheClient => ClientStep(c, s)
    case Network(lump) => s.(delivered := s.delivered + lump)
  }

  function Execute(c: Config, sched: seq<Actor>): (r: Option<State>)
    ensures r.Some? ==> WellFormed(c, r.value)
  {
    if sched == [] then Some(START)
    else
      match Execute(c, sched[..|sched| - 1])
      case None => None
      case Some(s) =>
        var a := sched[|sched| - 1];
        if Enabled(c, s, a) then Some(Step(c, s, a)) else None
  }

  // ---------------------------------------------------------------- the stream

  function Flat(parts: seq<seq<byte>>): seq<byte>
  {
    if parts == [] then [] else Flat(parts[..|parts| - 1]) + parts[|parts| - 1]
  }

  lemma FlatAppend(parts: seq<seq<byte>>, part: seq<byte>)
    ensures Flat(parts + [part]) == Flat(parts) + part
  {
    assert (parts + [part])[..|parts|] == parts;
  }

  /** One more record, at least, when there are more. */
  lemma {:induction false} RowsApart(w: nat, j: nat, k: nat)
    requires j < k
    ensures Rows(w, j) + w <= Rows(w, k)
  {
    if j < k - 1 {
      RowsApart(w, j, k - 1);
    }
  }

  lemma {:induction false} FlatLength(parts: seq<seq<byte>>, w: nat)
    requires forall i :: 0 <= i < |parts| ==> |parts[i]| == w
    ensures |Flat(parts)| == Rows(w, |parts|)
  {
    if parts != [] {
      FlatLength(parts[..|parts| - 1], w);
    }
  }

  /** Part number `k` sits at its place in the stream. */
  lemma {:induction false} FlatPart(parts: seq<seq<byte>>, w: nat, k: nat, at: nat)
    requires forall i :: 0 <= i < |parts| ==> |parts[i]| == w
    requires k < |parts| && at == Rows(w, k)
    ensures at + w <= |Flat(parts)| && Flat(parts)[at..at + w] == parts[k]
  {
    var n := |parts| - 1;
    var before := Flat(parts[..n]);
    FlatLength(parts[..n], w);
    assert Flat(parts) == before + parts[n];
    if k < n {
      RowsApart(w, k, n);
      FlatPart(parts[..n], w, k, at);
      assert Flat(parts)[at..at + w] == before[at..at + w];
    }
  }

  /** How many records are in the stream. */
  function InStream(c: Config, s: State): nat
    requires WellFormed(c, s)
  {
    if s.server.SSend? then s.server.k else if s.served then |c.records| else 0
  }

  predicate ReplyIsOut(s: State)
  {
    s.server.SSend? || s.served
  }

  /** The stream is nothing, or the reply and the first records. */
  predicate StreamIs(c: Config, s: State)
    requires WellFormed(c, s)
  {
    s.sent == (if ReplyIsOut(s) then REPLY + Flat(c.records[..InStream(c, s)]) else [])
  }

  predicate Invariant(c: Config, s: State)
  {
    && WellFormed(c, s) && StreamIs(c, s)
    && (s.client in {CRequest, CReply} ==> s.consumed == 0 && s.got == [])
    && (s.client in {CRecord, CClose, CDone} ==> s.consumed > 0)
    && (s.client.CRequest? ==> s.server.SRecv? && !s.served)
    && (s.server in {SReply} ==> !s.served)
    && (s.server.SSend? ==> !s.served)
    && (s.server.SClosed? ==> s.served && s.client.CDone?)
  }

  lemma NoRecordYet(records: seq<seq<byte>>)
    ensures REPLY + Flat(records[..0]) == [] + REPLY
  {
  }

  lemma OneMoreRecord(records: seq<seq<byte>>, k: nat)
    requires k < |records|
    ensures REPLY + Flat(records[..k]) + records[k] == REPLY + Flat(records[..k + 1])
  {
    var before := Flat(records[..k]);
    assert records[..k + 1] == records[..k] + [records[k]];
    FlatAppend(records[..k], records[k]);
    assert REPLY + before + records[k] == REPLY + (before + records[k]);
  }

  /** The server appends the reply, or the next record. */
  lemma StreamGrows(c: Config, s: State)
    requires WellFormed(c, s) && StreamIs(c, s) && Enabled(c, s, TheServer)
    requires s.server.SReply? || s.server.SSend? ==> !s.served
    ensures StreamIs(c, ServerStep(c, s))
  {
    if s.server.SReply? {
      NoRecordYet(c.records);
    } else if s.server.SSend? && s.server.k < |c.records| {
      OneMoreRecord(c.records, s.server.k);
    }
  }

  lemma InvariantServer(c: Config, s: State)
    requires Invariant(c, s) && Enabled(c, s, TheServer)
    ensures Invariant(c, ServerStep(c, s))
  {
    StreamGrows(c, s);
  }

  lemma InvariantStep(c: Config, s: State, a: Actor)
    requires Invariant(c, s) && Enabled(c, s, a)
    ensures Invariant(c, Step(c, s, a))
  {
    if a.TheServer? {
      InvariantServer(c, s);
    }
  }

  lemma {:induction false} InvariantHolds(c: Config, sched: seq<Actor>)
    requires Execute(c, sched).Some?
    ensures Invariant(c, Execute(c, sched).value)
  {
    if sched != [] {
      var before := sched[..|sched| - 1];
      InvariantHolds(c, before);
      InvariantStep(c, Execute(c, before).value, sched[|sched| - 1]);
    }
  }

  // ---------------------------------------------------------------- alignment

  /** The client's recv comes at the right moment: the reply alone is queued, or a full record is. */
  predicate OnTime(c: Config, s: State, a: Actor)
    requires WellFormed(c, s)
  {
    a.TheClient? ==>
      && (s.client.CReply? ==> Queued(s) == |REPLY|)
      && (s.client.CRecord? ==> Queued(s) >= c.packet + 3)
  }

  ghost predicate OnTimeRun(c: Config, sched: seq<Actor>)
    requires Execute(c, sched).Some?
  {
    sched == [] ||
    (OnTimeRun(c, sched[..|sched| - 1]) &&
     OnTime(c, Execute(c, sched[..|sched| - 1]).value, sched[|sched| - 1]))
  }

  /** The client has consumed the reply and whole records, nothing else. */
  predicate Aligned(c: Config, s: State)
  {
    s.consumed == (if s.client in {CRequest, CReply} then 0 else |REPLY| + Rows(c.packet + 3, |s.got|))
  }

  ghost predicate AlignedRun(c: Config, sched: seq<Actor>)
    requires Execute(c, sched).Some?
  {
    Aligned(c, Execute(c, sched).value) && (sched == [] || AlignedRun(c, sched[..|sched| - 1]))
  }

  /** One step keeps alignment exactly when it is on time. */
  lemma AlignedStep(c: Config, s: State, a: Actor)
    requires Invariant(c, s) && Enabled(c, s, a) && Aligned(c, s)
    ensures Aligned(c, Step(c, s, a)) <==> OnTime(c, s, a)
  {
  }

  /** A run stays aligned throughout if and only if every recv came on time. */
  lemma {:induction false} AlignmentIsExact(c: Config, sched: seq<Actor>)
    requires Execute(c, sched).Some?
    ensures AlignedRun(c, sched) <==> OnTimeRun(c, sched)
  {
    if sched != [] {
      var before := sched[..|sched| - 1];
      AlignmentIsExact(c, before);
      InvariantHolds(c, before);
      if OnTimeRun(c, before) {
        AlignedStep(c, Execute(c, before).value, sched[|sched| - 1]);
      }
    }
  }

  lemma {:induction false} After(c: Config, sched: seq<Actor>, a: Actor) returns (longer: seq<Actor>)
    requires Execute(c, sched).Some? && Enabled(c, Execute(c, sched).value, a)
    ensures Execute(c, longer) == Some(Step(c, Execute(c, sched).value, a))
  {
    longer := sched + [a];
    assert longer[..|longer| - 1] == sched;
  }

  lemma StartOfStream(c: Config, s: State, extra: nat)
    requires WellFormed(c, s) && StreamIs(c, s) && ReplyIsOut(s) && |c.records| > 0
    requires extra <= c.packet + 3 <= |Flat(c.records[..InStream(c, s)])|
    requires Flat(c.records[..InStream(c, s)])[0..c.packet + 3] == c.records[0]
    ensures |REPLY| + extra <= |s.sent| && s.sent[0..|REPLY| + extra] == REPLY + c.records[0][..extra]
  {
    var stream := Flat(c.records[..InStream(c, s)]);
    assert stream[0..c.packet + 3][..extra] == stream[..extra];
    assert (REPLY + stream)[0..|REPLY| + extra] == REPLY + stream[..extra];
  }

  /** Whenever the recv of the reply finds more than the reply, it swallows the start of the first
      record too: everything queued up to the size of its buffer, which is 193 bytes of the record
      if that much has arrived. */
  lemma EarlyDataMisaligns(c: Config, sched: seq<Actor>)
    requires ConfigOk(c) && Execute(c, sched).Some?
    requires var s := Execute(c, sched).value; s.client.CReply? && Queued(s) > |REPLY|
    ensures var s := Execute(c, sched).value; var s' := Step(c, s, TheClient);
      var extra := if Queued(s) >= Server.SIZE_RCV_BUF then 193 else Queued(s) - |REPLY|;
      && c.records != []
      && Taken(s, Server.SIZE_RCV_BUF) == REPLY + c.records[0][..extra]
      && s'.consumed == |REPLY| + extra && !Aligned(c, s')
  {
    InvariantHolds(c, sched);
    var s := Execute(c, sched).value;
    var extra := |Taken(s, Server.SIZE_RCV_BUF)| - |REPLY|;
    RecordInStream(c, InStream(c, s), 0, 0);
    StartOfStream(c, s, extra);
  }

  /** Without the pause before the data that can happen to every transfer. */
  lemma EarlyDataCanArrive(c: Config) returns (sched: seq<Actor>)
    requires ConfigOk(c) && c.records != []
    ensures Execute(c, sched).Some?
    ensures var s := Execute(c, sched).value; s.client.CReply? && Queued(s) >= Server.SIZE_RCV_BUF
  {
    sched := [];
    sched := After(c, sched, TheClient);
    sched := After(c, sched, TheServer);
    sched := After(c, sched, TheServer);
    sched := After(c, sched, TheServer);
    sched := After(c, sched, Network(|REPLY| + |c.records[0]|));
  }

  // ---------------------------------------------------------------- on-time runs

  ghost predicate EofAt(c: Config, k: nat)
    requires ConfigOk(c) && k < |c.records|
  {
    SaysEof(c.packet, c.records[k])
  }

  /** The client holds the first records, and is still reading exactly if none of them said EOF. */
  ghost predicate HoldsRecords(c: Config, s: State)
    requires ConfigOk(c)
  {
    && |s.got| <= |c.records|
    && s.got == c.records[..|s.got|]
    && (s.client in {CRequest, CReply, CRecord} ==> forall k :: 0 <= k < |s.got| ==> !EofAt(c, k))
    && (s.client in {CClose, CDone} ==> |s.got| > 0 && EofAt(c, |s.got| - 1))
  }

  /** Whole parts that fit into a stretch of the stream are in the stream. */
  lemma PartInStream(parts: seq<seq<byte>>, w: nat, k: nat, at: nat)
    requires w > 0 && forall i :: 0 <= i < |parts| ==> |parts[i]| == w
    requires at == Rows(w, k) && at + w <= |Flat(parts)|
    ensures k < |parts| && Flat(parts)[at..at + w] == parts[k]
  {
    FlatLength(parts, w);
    if k > |parts| {
      RowsApart(w, |parts|, k);
    }
    FlatPart(parts, w, k, at);
  }

  /** The same for the first `n` records of a transfer. */
  lemma RecordInStream(c: Config, n: nat, k: nat, at: nat)
    requires ConfigOk(c) && n <= |c.records| && at == Rows(c.packet + 3, k)
    requires at + (c.packet + 3) <= |Flat(c.records[..n])|
    ensures k < n && Flat(c.records[..n])[at..at + (c.packet + 3)] == c.records[k]
  {
    var recs := c.records[..n];
    PartInStream(recs, c.packet + 3, k, at);
    assert recs[k] == c.records[k];
  }

  lemma TakenIsPart(c: Config, s: State, k: nat, at: nat)
    requires WellFormed(c, s) && StreamIs(c, s) && ReplyIsOut(s)
    requires s.consumed == |REPLY| + at && Queued(s) >= c.packet + 3 && k < InStream(c, s)
    requires var sent := Flat(c.records[..InStream(c, s)]);
      at + c.packet + 3 <= |sent| && sent[at..at + (c.packet + 3)] == c.records[k]
    ensures Taken(s, c.packet + 3) == c.records[k]
  {
    var sent := Flat(c.records[..InStream(c, s)]);
    assert s.sent[|REPLY| + at..|REPLY| + at + (c.packet + 3)] == sent[at..at + (c.packet + 3)];
  }

  /** A recv that is on time returns exactly the next record. */
  lemma NextRecordTaken(c: Config, s: State, k: nat)
    requires ConfigOk(c) && Invariant(c, s) && Aligned(c, s)
    requires s.client.CRecord? && Queued(s) >= c.packet + 3
    requires k == |s.got|
    ensures k < InStream(c, s) <= |c.records|
    ensures Taken(s, c.packet + 3) == c.records[k]
  {
    var at := s.consumed - |REPLY|;
    assert |s.sent| == |REPLY| + |Flat(c.records[..InStream(c, s)])|;
    RecordInStream(c, InStream(c, s), k, at);
    TakenIsPart(c, s, k, at);
  }

  /** Receiving the next record keeps what the client holds in order. */
  lemma RecordKept(c: Config, s: State, k: nat)
    requires ConfigOk(c) && WellFormed(c, s) && Enabled(c, s, TheClient) && s.client.CRecord? && HoldsRecords(c, s)
    requires k == |s.got| < |c.records| && Taken(s, c.packet + 3) == c.records[k]
    ensures HoldsRecords(c, ClientStep(c, s))
  {
    var recs := c.records;
    assert recs[..k] + [recs[k]] == recs[..k + 1];
    assert SaysEof(c.packet, recs[k]) == EofAt(c, k);
  }

  lemma HoldsRecordsStep(c: Config, s: State, a: Actor)
    requires ConfigOk(c) && Invariant(c, s) && Enabled(c, s, a)
    requires Aligned(c, s) && OnTime(c, s, a) && HoldsRecords(c, s)
    ensures HoldsRecords(c, Step(c, s, a))
  {
    if a.TheClient? && s.client.CRecord? {
      NextRecordTaken(c, s, |s.got|);
      RecordKept(c, s, |s.got|);
    } else {
      assert Step(c, s, a).got == s.got;
    }
  }

  /** In every on-time run the k-th record received is the k-th record sent. */
  lemma {:induction false} RecordsArriveInOrder(c: Config, sched: seq<Actor>)
    requires ConfigOk(c) && Execute(c, sched).Some? && OnTimeRun(c, sched)
    ensures HoldsRecords(c, Execute(c, sched).value)
    ensures Aligned(c, Execute(c, sched).value)
  {
    if sched != [] {
      var before := sched[..|sched| - 1];
      RecordsArriveInOrder(c, before);
      InvariantHolds(c, before);
      AlignedStep(c, Execute(c, before).value, sched[|sched| - 1]);
      HoldsRecordsStep(c, Execute(c, before).value, sched[|sched| - 1]);
    }
  }

  /** The bytes consumed are those of the reply and of `cnt` whole records. */
  lemma BytesConsumed(c: Config, sched: seq<Actor>, cnt: nat)
    requires ConfigOk(c) && Execute(c, sched).Some? && OnTimeRun(c, sched)
    requires var s := Execute(c, sched).value; s.client !in {CRequest, CReply} && cnt == |s.got|
    ensures Execute(c, sched).value.consumed == |REPLY| + cnt * (c.packet + 3)
  {
    RecordsArriveInOrder(c, sched);
    RowsAreMultiples(c.packet + 3, cnt);
  }

  // ---------------------------------------------------------------- every run ends

  ghost function Total(c: Config): nat
  {
    |REPLY| + |Flat(c.records)|
  }

  /** What is still to be delivered, to be consumed, and to be done by either end. */
  ghost function Left(c: Config, s: State): int
  {
    var server :=
      match s.server
      case SRecv => if s.served then 1 else |c.records| + 4
      case SReply => |c.records| + 3
      case SSend(k) => |c.records| - k + 2
      case SClosed => 0;
    var client :=
      match s.client
      case CRequest => 2
      case CReply | CRecord | CClose => 1
      case CDone => 0;
    (Total(c) - s.delivered) + (Total(c) - s.consumed) + server + client
  }

  lemma {:induction false} FlatPrefix(parts: seq<seq<byte>>, k: nat)
    requires k <= |parts|
    ensures |Flat(parts[..k])| <= |Flat(parts)|
  {
    if k < |parts| {
      FlatPrefix(parts[..|parts| - 1], k);
      assert parts[..|parts| - 1][..k] == parts[..k];
    } else {
      assert parts[..k] == parts;
    }
  }

  lemma StreamIsBounded(c: Config, s: State)
    requires Invariant(c, s)
    ensures |s.sent| <= Total(c)
  {
    FlatPrefix(c.records, InStream(c, s));
  }

  lemma StepShrinks(c: Config, s: State, a: Actor)
    requires Invariant(c, s) && Enabled(c, s, a)
    ensures Left(c, Step(c, s, a)) < Left(c, s)
  {
  }

  /** No run, on time or not, takes more steps than this. */
  lemma {:induction false} RunsAreBounded(c: Config, sched: seq<Actor>)
    requires Execute(c, sched).Some?
    ensures |sched| <= 2 * Total(c) + |c.records| + 6 - Left(c, Execute(c, sched).value)
    ensures Left(c, Execute(c, sched).value) >= 0
  {
    InvariantHolds(c, sched);
    StreamIsBounded(c, Execute(c, sched).value);
    if sched != [] {
      var before := sched[..|sched| - 1];
      RunsAreBounded(c, before);
      InvariantHolds(c, before);
      StepShrinks(c, Execute(c, before).value, sched[|sched| - 1]);
    }
  }

  // ---------------------------------------------------------------- how timely runs end

  /** The timing the code counts on: recv comes on time, and no record is delivered before the
      client has read the reply. */
  predicate Timely(c: Config, s: State, a: Actor)
    requires WellFormed(c, s)
  {
    && OnTime(c, s, a)
    && (a.Network? && s.client in {CRequest, CReply} ==> s.delivered + a.lump <= |REPLY|)
  }

  ghost predicate TimelyRun(c: Config, sched: seq<Actor>)
    requires Execute(c, sched).Some?
  {
    sched == [] ||
    (TimelyRun(c, sched[..|sched| - 1]) &&
     Timely(c, Execute(c, sched[..|sched| - 1]).value, sched[|sched| - 1]))
  }

  lemma {:induction false} TimelyIsOnTime(c: Config, sched: seq<Actor>)
    requires Execute(c, sched).Some? && TimelyRun(c, sched)
    ensures OnTimeRun(c, sched)
    ensures var s := Execute(c, sched).value;
      s.client in {CRequest, CReply} ==> s.delivered <= |REPLY|
  {
    if sched != [] {
      TimelyIsOnTime(c, sched[..|sched| - 1]);
    }
  }

  /** Nobody can take a step that keeps to the timing. */
  ghost predicate AtRest(c: Config, s: State)
    requires WellFormed(c, s)
  {
    forall a :: Enabled(c, s, a) ==> !Timely(c, s, a)
  }

  /** Both ends have closed. */
  predicate Finished(s: State)
  {
    s.client.CDone? && s.server.SClosed?
  }

  /** The client waits for a record, the server for a request, and nothing is under way. */
  predicate Deadlocked(c: Config, s: State)
    requires WellFormed(c, s)
  {
    s.client.CRecord? && s.server.SRecv? && s.served && s.consumed == |s.sent|
  }

  /** In time or not, nobody can take any step out of it. */
  lemma DeadlockIsFinal(c: Config, s: State)
    requires WellFormed(c, s)
    ensures Deadlocked(c, s) ==> forall a :: !Enabled(c, s, a)
  {
  }

  /** The server has sent everything, the network has delivered it, and the client has closed or
      finds less than a record. */
  predicate Settled(c: Config, s: State)
    requires WellFormed(c, s)
  {
    && s.served && s.delivered == |s.sent|
    && ((s.client.CDone? && s.server.SClosed?) ||
        (s.client.CRecord? && s.server.SRecv? && Queued(s) < c.packet + 3))
  }

  /** Until then somebody can take a step that keeps to the timing. */
  lemma TimelyMove(c: Config, s: State) returns (a: Actor)
    requires Invariant(c, s) && !Settled(c, s)
    requires s.client in {CRequest, CReply} ==> s.delivered <= |REPLY|
    ensures Enabled(c, s, a) && Timely(c, s, a)
  {
    if Enabled(c, s, TheServer) {
      a := TheServer;
    } else if Enabled(c, s, TheClient) && OnTime(c, s, TheClient) {
      a := TheClient;
    } else if s.client.CReply? {
      a := Network(|REPLY| - s.delivered);
    } else {
      a := Network(|s.sent| - s.delivered);
    }
  }

  lemma RestIsSettled(c: Config, s: State)
    requires Invariant(c, s) && AtRest(c, s)
    requires s.client in {CRequest, CReply} ==> s.delivered <= |REPLY|
    ensures Settled(c, s)
  {
    if !Settled(c, s) {
      var a := TimelyMove(c, s);
    }
  }

  lemma SettledIsRest(c: Config, s: State)
    requires WellFormed(c, s) && Settled(c, s)
    ensures AtRest(c, s)
  {
  }

  /** Every timely run can be continued, in time, until it comes to rest. */
  lemma {:induction false} TimelyRunsComeToRest(c: Config, sched: seq<Actor>) returns (longer: seq<Actor>)
    requires Execute(c, sched).Some? && TimelyRun(c, sched)
    ensures sched <= longer && Execute(c, longer).Some? && TimelyRun(c, longer)
    ensures AtRest(c, Execute(c, longer).value)
    decreases 2 * Total(c) + |c.records| + 6 - |sched|
  {
    longer := sched;
    var s := Execute(c, sched).value;
    InvariantHolds(c, sched);
    TimelyIsOnTime(c, sched);
    if Settled(c, s) {
      SettledIsRest(c, s);
    } else {
      var a := TimelyMove(c, s);
      longer := sched + [a];
      assert longer[..|longer| - 1] == sched;
      RunsAreBounded(c, longer);
      longer := TimelyRunsComeToRest(c, longer);
    }
  }

  /** A client still reading at rest has every record. */
  lemma RestingClientHasAll(c: Config, s: State)
    requires ConfigOk(c) && Invariant(c, s) && Aligned(c, s) && HoldsRecords(c, s)
    requires Settled(c, s) && s.client.CRecord?
    ensures |s.got| == |c.records| && s.consumed == |s.sent|
  {
    var w := c.packet + 3;
    assert c.records[..|c.records|] == c.records;
    FlatLength(c.records, w);
    if |s.got| < |c.records| {
      RowsApart(w, |s.got|, |c.records|);
    }
  }

  /** Every timely run that has come to rest has delivered every record in order; it is finished if
      the last size leaves no 'C' in the trailer, and deadlocked otherwise (or if there is nothing
      to send). */
  lemma OutcomeIsExact(p: nat, data: seq<byte>, sched: seq<Actor>)
    requires PacketSize(p) && Execute(Config(p, RecordsOf(p, data)), sched).Some?
    requires TimelyRun(Config(p, RecordsOf(p, data)), sched)
    requires AtRest(Config(p, RecordsOf(p, data)), Execute(Config(p, RecordsOf(p, data)), sched).value)
    ensures var c := Config(p, RecordsOf(p, data)); var s := Execute(c, sched).value;
      && s.got == RecordsOf(p, data)
      && (Finished(s) <==> data != [] && TrailerSafe(LastSize(p, |data|)))
      && (Deadlocked(c, s) <==> !(data != [] && TrailerSafe(LastSize(p, |data|))))
      && (Deadlocked(c, s) ==> forall a :: !Enabled(c, s, a))
  {
    var c := Config(p, RecordsOf(p, data));
    var safe := data != [] && TrailerSafe(LastSize(p, |data|));
    ConfigIsOk(p, data);
    RestOutcome(c, sched);
    if data != [] {
      LastRecordDecides(p, data);
    }
    DecidedByLast(c, Execute(c, sched).value, safe);
    DeadlockIsFinal(c, Execute(c, sched).value);
  }

  /** If only the last record can say EOF, the outcome depends on it alone. */
  lemma DecidedByLast(c: Config, s: State, safe: bool)
    requires ConfigOk(c) && WellFormed(c, s) && Outcome(c, s)
    requires safe ==> c.records != []
    requires forall k :: 0 <= k < |c.records| ==> (EofAt(c, k) <==> k == |c.records| - 1 && safe)
    ensures s.got == c.records && (Finished(s) <==> safe) && (Deadlocked(c, s) <==> !safe)
  {
    if safe {
      assert EofAt(c, |c.records| - 1);
    }
    assert c.records[..|c.records|] == c.records;
  }

  lemma ConfigIsOk(p: nat, data: seq<byte>)
    requires PacketSize(p)
    ensures ConfigOk(Config(p, RecordsOf(p, data)))
  {
    SliceCount(p, 0, |data|);
    forall k | 0 <= k < |RecordsOf(p, data)| ensures |RecordsOf(p, data)[k]| == p + 3 {
      assert RecordsOf(p, data)[k] == RecordNumber(p, data, k);
    }
  }

  /** Only the last record can say EOF, and it does exactly when its trailer is safe. */
  lemma LastRecordDecides(p: nat, data: seq<byte>)
    requires PacketSize(p) && data != []
    ensures var c := Config(p, RecordsOf(p, data));
      ConfigOk(c) && |c.records| > 0 &&
      forall k :: 0 <= k < |c.records| ==>
        (EofAt(c, k) <==> k == |c.records| - 1 && TrailerSafe(LastSize(p, |data|)))
  {
    var c := Config(p, RecordsOf(p, data));
    ConfigIsOk(p, data);
    PacketsPositive(p, |data|);
    forall k | 0 <= k < |c.records|
      ensures EofAt(c, k) <==> k == |c.records| - 1 && TrailerSafe(LastSize(p, |data|))
    {
      EndOfRecord(p, data, k);
    }
  }

  /** At rest the client has either stopped on a record that said EOF, or holds all of them. */
  ghost predicate Outcome(c: Config, s: State)
    requires ConfigOk(c) && WellFormed(c, s)
  {
    && HoldsRecords(c, s)
    && (Finished(s) || (Deadlocked(c, s) && |s.got| == |c.records|))
    && (Finished(s) ==> |s.got| > 0 && EofAt(c, |s.got| - 1))
    && (Deadlocked(c, s) ==> forall k :: 0 <= k < |c.records| ==> !EofAt(c, k))
  }

  lemma SettledOutcome(c: Config, s: State)
    requires ConfigOk(c) && Invariant(c, s) && Aligned(c, s) && HoldsRecords(c, s) && Settled(c, s)
    ensures Outcome(c, s)
  {
    if s.client.CRecord? {
      RestingClientHasAll(c, s);
    }
  }

  lemma RestOutcome(c: Config, sched: seq<Actor>)
    requires ConfigOk(c) && Execute(c, sched).Some? && TimelyRun(c, sched)
    requires AtRest(c, Execute(c, sched).value)
    ensures Outcome(c, Execute(c, sched).value)
  {
    var s := Execute(c, sched).value;
    InvariantHolds(c, sched);
    TimelyIsOnTime(c, sched);
    RecordsArriveInOrder(c, sched);
    RestIsSettled(c, s);
    SettledOutcome(c, s);
  }
}
