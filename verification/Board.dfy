/** The tasks around the debouncer, under every interleaving: swTask polls, ledTask reads
    s_bfStart and then drives the LED (two separate steps), mainTask prints while the flag is up. */
module Board {
  import opened Debounce

  datatype LedPc = Reading | Writing(value: bool)

  /** One step of one task. An LED pass takes two steps: read the flag, then set the pin. */
  datatype Event = SwPass(now: bool) | LedStep | ClockPass

  /** `writes` holds every value ledTask has driven, `prints` counts the lines of mainTask. */
  datatype State = State(sw: Switch, led: LedPc, writes: seq<bool>, prints: nat)

  function Boot(sw: Switch): State
  {
    State(sw, Reading, [], 0)
  }

  function Step(s: State, e: Event): State
  {
    match e
    case SwPass(now) => s.(sw := Poll(s.sw, now))
    case LedStep =>
      (match s.led
       case Reading => s.(led := Writing(s.sw.bfStart))
       case Writing(v) => s.(led := Reading, writes := s.writes + [v]))
    case ClockPass => if s.sw.bfStart then s.(prints := s.prints + 1) else s
  }

  /** The state after any interleaving of the tasks. */
  function Execute(sw: Switch, events: seq<Event>): State
  {
    if events == [] then Boot(sw)
    else Step(Execute(sw, events[..|events| - 1]), events[|events| - 1])
  }

  /** What the switch delivered along the way. */
  function Trace(events: seq<Event>): seq<bool>
  {
    if events == [] then []
    else if events[|events| - 1].SwPass? then Trace(events[..|events| - 1]) + [events[|events| - 1].now]
    else Trace(events[..|events| - 1])
  }

  /** The LED is dark before the first write. */
  function Driven(writes: seq<bool>): bool
  {
    if writes == [] then false else writes[|writes| - 1]
  }

  /** How often the driven value changes, counted from the dark LED. */
  function Changes(writes: seq<bool>): nat
  {
    if writes == [] then 0
    else
      var earlier := writes[..|writes| - 1];
      Changes(earlier) + (if Driven(earlier) != Driven(writes) then 1 else 0)
  }

  /** The flag value ledTask saw last. */
  function Seen(s: State): bool
  {
    if s.led.Writing? then s.led.value else Driven(s.writes)
  }

  /** Flag changes that are still on their way to the pin. */
  function Lag(s: State): nat
  {
    (if Driven(s.writes) != Seen(s) then 1 else 0) + (if Seen(s) != s.sw.bfStart then 1 else 0)
  }

  /** Switch samples since ledTask last read the flag (or since the start). */
  ghost function SinceRead(sw: Switch, events: seq<Event>): nat
  {
    if events == [] then 0
    else
      var n := |events| - 1;
      match events[n]
      case SwPass(_) => SinceRead(sw, events[..n]) + 1
      case LedStep => if Execute(sw, events[..n]).led.Reading? then 0 else SinceRead(sw, events[..n])
      case ClockPass => SinceRead(sw, events[..n])
  }

  /** ledTask reads the flag at least once in every `gap` samples. */
  ghost predicate Frequent(sw: Switch, events: seq<Event>, gap: nat)
  {
    forall k :: 0 <= k <= |events| ==> SinceRead(sw, events[..k]) <= gap
  }

  lemma {:induction false} TasksDoNotDisturbTheSwitch(sw: Switch, events: seq<Event>)
    ensures Execute(sw, events).sw == PollAll(sw, Trace(events))
  {
    if events != [] {
      var n := |events| - 1;
      TasksDoNotDisturbTheSwitch(sw, events[..n]);
      if events[n].SwPass? {
        SampleFlips(sw, Trace(events[..n]), events[n].now);
      }
    }
  }

  lemma ChangesAppend(writes: seq<bool>, v: bool)
    ensures Driven(writes + [v]) == v
    ensures Changes(writes + [v]) == Changes(writes) + (if Driven(writes) != v then 1 else 0)
  {
    assert (writes + [v])[..|writes|] == writes;
  }

  /** One more sample adds a flip exactly when it changes the flag. */
  lemma SampleFlips(sw: Switch, trace: seq<bool>, now: bool)
    ensures var longer := trace + [now];
      && PollAll(sw, longer) == Poll(PollAll(sw, trace), now)
      && (FlipsAt(sw, longer, |trace|) <==> PollAll(sw, longer).bfStart != PollAll(sw, trace).bfStart)
      && Flips(sw, longer) == Flips(sw, trace) + (if FlipsAt(sw, longer, |trace|) then 1 else 0)
  {
    var longer := trace + [now];
    assert longer[..|longer| - 1] == trace && longer[..|trace| + 1] == longer;
  }

  /** In every interleaving the LED changes no more often than the flag flips, even counting
      the changes still on their way to the pin. */
  lemma {:induction false} LedNeverOvercounts(sw: Switch, events: seq<Event>)
    requires sw.pos == 0 && !sw.bfStart
    ensures var s := Execute(sw, events);
      Changes(s.writes) + Lag(s) <= Flips(sw, Trace(events))
  {
    if events != [] {
      var n := |events| - 1;
      var s := Execute(sw, events[..n]);
      LedNeverOvercounts(sw, events[..n]);
      match events[n]
      case SwPass(now) =>
        TasksDoNotDisturbTheSwitch(sw, events[..n]);
        SampleFlips(sw, Trace(events[..n]), now);
      case LedStep =>
        ChangesAppend(s.writes, Seen(s));
      case ClockPass =>
    }
  }

  /** Some sample since the last LED read flipped the flag. */
  ghost predicate RecentFlip(sw: Switch, trace: seq<bool>, since: nat)
  {
    exists i: nat :: i >= |trace| - since && FlipsAt(sw, trace, i)
  }

  /** What the LED has shown plus what is on its way is everything that happened, and a change
      ledTask has not seen yet is recent. */
  ghost predicate NothingLost(s: State, sw: Switch, trace: seq<bool>, since: nat)
  {
    && Changes(s.writes) + Lag(s) == Flips(sw, trace)
    && (Seen(s) != s.sw.bfStart ==> RecentFlip(sw, trace, since))
  }

  lemma NothingLostOnSample(s: State, sw: Switch, trace: seq<bool>, since: nat, now: bool)
    requires sw.pos == 0 && s.sw == PollAll(sw, trace) && since + 1 <= 4
    requires NothingLost(s, sw, trace, since)
    ensures NothingLost(Step(s, SwPass(now)), sw, trace + [now], since + 1)
  {
    SampleFlips(sw, trace, now);
    RecentFlipStep(sw, trace, now, since, Seen(s));
  }

  lemma NothingLostOnLed(s: State, sw: Switch, trace: seq<bool>, since: nat)
    requires NothingLost(s, sw, trace, since)
    ensures NothingLost(Step(s, LedStep), sw, trace, if s.led.Reading? then 0 else since)
  {
    ChangesAppend(s.writes, Seen(s));
  }

  /** If ledTask reads at least once in every four samples, no flip is ever lost. */
  lemma {:induction false} FrequentReadsLoseNothing(sw: Switch, events: seq<Event>)
    requires sw.pos == 0 && !sw.bfStart && Frequent(sw, events, 4)
    ensures NothingLost(Execute(sw, events), sw, Trace(events), SinceRead(sw, events))
  {
    if events != [] {
      var before := events[..|events| - 1];
      var s := Execute(sw, before);
      FrequentPrefix(sw, events, 4);
      FrequentReadsLoseNothing(sw, before);
      match events[|events| - 1]
      case SwPass(now) =>
        TasksDoNotDisturbTheSwitch(sw, before);
        NothingLostOnSample(s, sw, Trace(before), SinceRead(sw, before), now);
      case LedStep => NothingLostOnLed(s, sw, Trace(before), SinceRead(sw, before));
      case ClockPass =>
    }
  }

  lemma FrequentPrefix(sw: Switch, events: seq<Event>, gap: nat)
    requires events != [] && Frequent(sw, events, gap)
    ensures Frequent(sw, events[..|events| - 1], gap)
    ensures SinceRead(sw, events) <= gap
  {
    var n := |events| - 1;
    assert events[..n + 1] == events;
    forall k | 0 <= k <= n ensures SinceRead(sw, events[..n][..k]) <= gap {
      assert events[..n][..k] == events[..k];
    }
  }

  /** One sample later: at most one of any four consecutive samples flips. */
  lemma RecentFlipStep(sw: Switch, trace: seq<bool>, now: bool, since: nat, seen: bool)
    requires sw.pos == 0 && since + 1 <= 4
    requires seen != PollAll(sw, trace).bfStart ==> RecentFlip(sw, trace, since)
    ensures var longer := trace + [now];
      && (FlipsAt(sw, longer, |trace|) ==> seen == PollAll(sw, trace).bfStart)
      && (seen != PollAll(sw, longer).bfStart ==> RecentFlip(sw, longer, since + 1))
  {
    var longer := trace + [now];
    SampleFlips(sw, trace, now);
    assert longer[..|trace|] == trace;
    if seen != PollAll(sw, trace).bfStart {
      var i: nat :| i >= |trace| - since && FlipsAt(sw, trace, i);
      FlipsAtPrefix(sw, longer, |trace|, i);
      if FlipsAt(sw, longer, |trace|) {
        FlipSpacing(sw, longer, i, |trace|);
      }
    }
  }

  /** Whenever nothing is on its way, the LED has changed exactly as often as the flag flipped. */
  ghost predicate AllFlipsShown(sw: Switch, gap: nat)
  {
    forall events: seq<Event> :: Frequent(sw, events, gap) && Lag(Execute(sw, events)) == 0 ==>
      Changes(Execute(sw, events).writes) == Flips(sw, Trace(events))
  }

  /** Everything about an interleaving, one event later. */
  lemma OneMore(sw: Switch, events: seq<Event>, e: Event, gap: nat) returns (longer: seq<Event>)
    requires Frequent(sw, events, gap)
    requires e.SwPass? ==> SinceRead(sw, events) < gap
    ensures Execute(sw, longer) == Step(Execute(sw, events), e)
    ensures Trace(longer) == (if e.SwPass? then Trace(events) + [e.now] else Trace(events))
    ensures SinceRead(sw, longer) == (
      if e.SwPass? then SinceRead(sw, events) + 1
      else if e.LedStep? && Execute(sw, events).led.Reading? then 0
      else SinceRead(sw, events))
    ensures Frequent(sw, longer, gap)
  {
    longer := events + [e];
    assert longer[..|events|] == events;
    assert longer[..|longer|] == longer && events[..|events|] == events;
    forall k | 0 <= k <= |events| ensures longer[..k] == events[..k] {
    }
  }

  /** Two low samples and a high one. */
  lemma HiddenPressStart(sw: Switch) returns (events: seq<Event>)
    requires sw.pos == 0 && !sw.bfStart
    ensures Frequent(sw, events, 5) && SinceRead(sw, events) == 3
    ensures Execute(sw, events) == State(Switch(false, false, true, 3, false), Reading, [], 0)
    ensures Trace(events) == [false, false, true]
  {
    events := [];
    events := OneMore(sw, events, SwPass(false), 5);
    events := OneMore(sw, events, SwPass(false), 5);
    events := OneMore(sw, events, SwPass(true), 5);
  }

  /** The LED pass, and the first high sample after it. */
  lemma HiddenPressFirst(sw: Switch) returns (events: seq<Event>)
    requires sw.pos == 0 && !sw.bfStart
    ensures Frequent(sw, events, 5) && SinceRead(sw, events) == 1
    ensures Execute(sw, events) == State(Switch(false, true, true, 3, true), Reading, [false], 0)
    ensures Trace(events) == [false, false, true, true]
  {
    events := HiddenPressStart(sw);
    events := OneMore(sw, events, LedStep, 5);
    events := OneMore(sw, events, LedStep, 5);
    events := OneMore(sw, events, SwPass(true), 5);
  }

  /** The switch goes low ... */
  lemma HiddenPressGap(sw: Switch) returns (events: seq<Event>)
    requires sw.pos == 0 && !sw.bfStart
    ensures Frequent(sw, events, 5) && SinceRead(sw, events) == 3
    ensures Execute(sw, events) == State(Switch(true, false, false, 3, true), Reading, [false], 0)
    ensures Trace(events) == [false, false, true, true, false, false]
  {
    events := HiddenPressFirst(sw);
    events := OneMore(sw, events, SwPass(false), 5);
    events := OneMore(sw, events, SwPass(false), 5);
  }

  /** ... and is pressed a second time before the LED task reads again. */
  lemma HiddenPressSamples(sw: Switch) returns (events: seq<Event>)
    requires sw.pos == 0 && !sw.bfStart
    ensures Frequent(sw, events, 5)
    ensures Execute(sw, events) == State(Switch(false, true, true, 3, false), Reading, [false], 0)
    ensures Trace(events) == [false, false, true, true, false, false, true, true]
  {
    events := HiddenPressGap(sw);
    events := OneMore(sw, events, SwPass(true), 5);
    events := OneMore(sw, events, SwPass(true), 5);
  }

  /** Five samples between two LED reads can press the switch twice without the LED ever lighting. */
  lemma {:induction false} FiveSampleGapHidesAPress(sw: Switch) returns (events: seq<Event>)
    requires sw.pos == 0 && !sw.bfStart
    ensures Frequent(sw, events, 5)
    ensures Lag(Execute(sw, events)) == 0 && Changes(Execute(sw, events).writes) == 0
    ensures Flips(sw, Trace(events)) == 2
  {
    events := HiddenPressSamples(sw);
    TwoBursts(sw);
    events := OneMore(sw, events, LedStep, 5);
    events := OneMore(sw, events, LedStep, 5);
    ChangesAppend([], false);
    ChangesAppend([false], false);
    assert [] + [false] == [false];
  }

  lemma TwoBursts(sw: Switch)
    requires sw.pos == 0
    ensures Flips(sw, [false, false, true, true, false, false, true, true]) == 2
  {
    FlipBoundIsTight(sw, 2);
    assert PressTrain(2) == PressTrain(1) + [false, false, true, true];
    assert PressTrain(1) == [false, false, true, true];
    assert PressTrain(2) == [false, false, true, true, false, false, true, true];
  }

  /** The exact condition: every flip is shown, in every interleaving, if and only if the LED task
      reads at least once in every four samples. */
  lemma FourSampleGapIsExact(sw: Switch, gap: nat)
    requires sw.pos == 0 && !sw.bfStart
    ensures AllFlipsShown(sw, gap) <==> gap <= 4
  {
    if gap <= 4 {
      forall events: seq<Event> | Frequent(sw, events, gap) && Lag(Execute(sw, events)) == 0
        ensures Changes(Execute(sw, events).writes) == Flips(sw, Trace(events))
      {
        assert Frequent(sw, events, 4);
        FrequentReadsLoseNothing(sw, events);
      }
    } else {
      var events := FiveSampleGapHidesAPress(sw);
      assert Frequent(sw, events, gap);
    }
  }

  /** mainTask prints on a pass exactly when the number of presses so far is odd. */
  lemma ClockPrintsAfterOddPresses(sw: Switch, events: seq<Event>, runs: seq<Run>)
    requires sw.pos == 0 && !sw.bfStart && Encodes(runs, Trace(events))
    ensures Step(Execute(sw, events), ClockPass).prints ==
      Execute(sw, events).prints + (if Presses(runs) % 2 == 1 then 1 else 0)
  {
    TasksDoNotDisturbTheSwitch(sw, events);
    DebouncerIsRunParity(sw.h0, sw.h1, sw.h2, Trace(events), runs);
  }

  // ---------------------------------------------------------------- every value driven, every line printed

  function LedSteps(events: seq<Event>): nat
  {
    if events == [] then 0
    else LedSteps(events[..|events| - 1]) + if events[|events| - 1].LedStep? then 1 else 0
  }

  /** An odd number of presses in the samples of the first `n` events. */
  predicate OddPresses(events: seq<Event>, n: nat)
    requires n <= |events|
  {
    Presses(Encode(Trace(events[..n]))) % 2 == 1
  }

  /** The flag after a beginning of the run is the parity of the presses in its samples. */
  lemma FlagIsOddPresses(sw: Switch, events: seq<Event>, n: nat)
    requires sw.pos == 0 && !sw.bfStart && n <= |events|
    ensures Execute(sw, events[..n]).sw.bfStart <==> OddPresses(events, n)
  {
    var trace := Trace(events[..n]);
    TasksDoNotDisturbTheSwitch(sw, events[..n]);
    EncodeEncodes(trace);
    DebouncerIsRunParity(sw.h0, sw.h1, sw.h2, trace, Encode(trace));
  }

  /** What ledTask finds at every other of its steps, from the first on, where it tests the flag: the
      parity of the presses in the samples before that step. */
  function ReadValues(events: seq<Event>): (r: seq<bool>)
    ensures |r| == (LedSteps(events) + 1) / 2
  {
    if events == [] then []
    else
      var n := |events| - 1;
      var earlier := ReadValues(events[..n]);
      if events[n].LedStep? && LedSteps(events[..n]) % 2 == 0 then earlier + [OddPresses(events, n)] else earlier
  }

  lemma ReadOrWrite(sw: Switch, events: seq<Event>, n: nat)
    requires sw.pos == 0 && !sw.bfStart && |events| == n + 1 && events[n].LedStep?
    requires var s := Execute(sw, events[..n]);
      && (s.led.Reading? <==> LedSteps(events[..n]) % 2 == 0)
      && s.writes + (if s.led.Writing? then [s.led.value] else []) == ReadValues(events[..n])
    ensures var s := Execute(sw, events);
      s.writes + (if s.led.Writing? then [s.led.value] else []) == ReadValues(events)
  {
    FlagIsOddPresses(sw, events, n);
  }

  /** In every interleaving ledTask drives, in order, every value it has read, one in each second
      step, whether or not the LED already has it. */
  lemma {:induction false} LedDrivesWhatItRead(sw: Switch, events: seq<Event>)
    requires sw.pos == 0 && !sw.bfStart
    ensures var s := Execute(sw, events);
      && (s.led.Reading? <==> LedSteps(events) % 2 == 0)
      && s.writes + (if s.led.Writing? then [s.led.value] else []) == ReadValues(events)
      && |s.writes| == LedSteps(events) / 2 && s.writes <= ReadValues(events)
  {
    if events != [] {
      var n := |events| - 1;
      LedDrivesWhatItRead(sw, events[..n]);
      if events[n].LedStep? {
        ReadOrWrite(sw, events, n);
      }
    }
  }

  /** How many passes of mainTask come after an odd number of presses. */
  function OddPasses(events: seq<Event>): nat
  {
    if events == [] then 0
    else
      var n := |events| - 1;
      OddPasses(events[..n]) + if events[n].ClockPass? && OddPresses(events, n) then 1 else 0
  }

  /** In every interleaving mainTask has printed once for each of them. */
  lemma {:induction false} ClockLinesAreExact(sw: Switch, events: seq<Event>)
    requires sw.pos == 0 && !sw.bfStart
    ensures Execute(sw, events).prints == OddPasses(events)
  {
    if events != [] {
      ClockLinesAreExact(sw, events[..|events| - 1]);
      FlagIsOddPresses(sw, events, |events| - 1);
    }
  }

  // ---------------------------------------------------------------- the tasks in place

  /** The shared flag and the tasks' own variables, updated in place. */
  class Tasks {
    var hist: array<bool>
    var pos: nat
    var bfStart: bool
    var led: LedPc
    var writes: seq<bool>
    var prints: nat

    ghost predicate Valid()
      reads this
    {
      hist.Length == 3
    }

    ghost function Snapshot(): State
      reads this, hist
      requires Valid()
    {
      State(Switch(hist[0], hist[1], hist[2], pos, bfStart), led, writes, prints)
    }

    constructor ()
      ensures Valid() && fresh(hist) && Snapshot() == Boot(Fresh(false, false, false))
    {
      hist := new bool[3](_ => false);
      pos := 0;
      bfStart := false;
      led := Reading;
      writes := [];
      prints := 0;
    }

    /** One pass of the swTask loop. */
    method SwTaskPass(now: bool)
      requires Valid()
      modifies this`pos, this`bfStart, hist
      ensures Valid() && Snapshot() == Step(old(Snapshot()), SwPass(now))
    {
      if pos < 3 {
        hist[0] := hist[1];
        hist[1] := hist[2];
        hist[2] := now;
        pos := pos + 1;
        return;
      }
      if !hist[0] && !hist[1] && hist[2] && now {
        bfStart := !bfStart;
      }
      hist[0] := hist[1];
      hist[1] := hist[2];
      hist[2] := now;
    }

    /** Half a pass of the ledTask loop: test the flag, or drive the pin. */
    method LedTaskStep()
      requires Valid()
      modifies this`led, this`writes
      ensures Valid() && Snapshot() == Step(old(Snapshot()), LedStep)
    {
      match led
      case Reading => led := Writing(bfStart);
      case Writing(v) =>
        writes := writes + [v];
        led := Reading;
    }

    /** One pass of the mainTask loop. */
    method MainTaskPass()
      requires Valid()
      modifies this`prints
      ensures Valid() && Snapshot() == Step(old(Snapshot()), ClockPass)
    {
      if bfStart {
        prints := prints + 1;
      }
    }

    /** The tasks under an arbitrary interleaving, from the start of the program: the flag ends as
        the parity of the presses in the samples, the LED never changed more often than it, and
        what was driven and printed follows from the events alone. */
    method Run(events: seq<Event>, ghost runs: seq<Debounce.Run>)
      requires Valid() && Snapshot() == Boot(Fresh(false, false, false))
      requires Encodes(runs, Trace(events))
      modifies this, hist
      ensures Valid() && Snapshot() == Execute(Fresh(false, false, false), events)
      ensures bfStart <==> Presses(runs) % 2 == 1
      ensures Changes(writes) <= Presses(runs)
      ensures writes == ReadValues(events)[..LedSteps(events) / 2] && prints == OddPasses(events)
    {
      ghost var sw := Fresh(false, false, false);
      for i := 0 to |events|
        invariant Valid() && hist == old(hist)
        invariant Snapshot() == Execute(sw, events[..i])
      {
        assert events[..i + 1][..i] == events[..i];
        match events[i]
        case SwPass(now) => SwTaskPass(now);
        case LedStep => LedTaskStep();
        case ClockPass => MainTaskPass();
      }
      assert events[..|events|] == events;
      TasksDoNotDisturbTheSwitch(sw, events);
      DebouncerIsRunParity(false, false, false, Trace(events), runs);
      LedNeverOvercounts(sw, events);
      LedDrivesWhatItRead(sw, events);
      ClockLinesAreExact(sw, events);
    }
  }
}
