/** What single wake-ups and signals do to whole runs of the start handshake: who can move when,
    what a signal reaches, which numbers a thread can read, and what the log holds. */
module HandshakeRuns {
  import opened Basics
  import opened Handshake

  // ---------------------------------------------------------------- who can move

  /** Some thread is at a point of the code between locking and unlocking s_m1. */
  ghost predicate ThreadAtStart(c: Config, s: State)
    requires WellFormed(c, s)
  {
    exists j :: 0 <= j < c.threads && s.threads[j].pc in {TSignal, TUnlockStart}
  }

  /** Some thread is between locking and unlocking s_m2. */
  ghost predicate ThreadAtGate(c: Config, s: State)
    requires WellFormed(c, s)
  {
    exists j :: 0 <= j < c.threads && s.threads[j].pc.TUnlockGate?
  }

  /** Who can move, told from program counters alone. Main never finds a mutex taken on its way in. */
  ghost predicate CanMove(c: Config, s: State, a: Actor)
    requires WellFormed(c, s)
  {
    match a
    case Main =>
      && (s.main.MWoken? ==> !ThreadAtStart(c, s))
      && (s.main.MJoin? && s.loop < c.threads ==> s.threads[s.loop].pc.TExited?)
      && s.main !in {MWaiting, MDone}
    case Worker(i) =>
      && i < c.threads && s.threads[i].pc !in {TUnborn, TExited}
      && (s.threads[i].pc.TLockStart? ==> !MainOwnsStart(s.main) && !ThreadAtStart(c, s))
      && (s.threads[i].pc.TLockGate? ==> !MainOwnsGate(s.main) && !ThreadAtGate(c, s))
    case Spurious => c.spurious && s.main.MWaiting?
  }

  /** s_m1 is free exactly if nobody is between locking and unlocking it; likewise s_m2. */
  lemma FreeMeansNobodyThere(c: Config, s: State)
    requires Sound(c, s)
    ensures s.m1.Nobody? <==> !MainOwnsStart(s.main) && !ThreadAtStart(c, s)
    ensures s.m2.Nobody? <==> !MainOwnsGate(s.main) && !ThreadAtGate(c, s)
  {
    OwnersAreThere(c, s);
    if j :| 0 <= j < c.threads && s.threads[j].pc in {TSignal, TUnlockStart} {
      assert ThreadSound(c, s, j);
    }
    if j :| 0 <= j < c.threads && s.threads[j].pc.TUnlockGate? {
      assert ThreadSound(c, s, j);
    }
  }

  lemma NoThreadYet(c: Config, s: State)
    requires Sound(c, s) && s.main in {MLockGate, MLockStart}
    ensures !ThreadAtStart(c, s) && !ThreadAtGate(c, s)
  {
    forall j | 0 <= j < c.threads ensures s.threads[j].pc.TUnborn? {
      assert ThreadSound(c, s, j);
    }
  }

  lemma WorkerMovesAreExact(c: Config, s: State, i: nat)
    requires Sound(c, s)
    ensures Enabled(c, s, Worker(i)) <==> CanMove(c, s, Worker(i))
  {
    FreeMeansNobodyThere(c, s);
  }

  lemma MainMovesAreExact(c: Config, s: State)
    requires Sound(c, s)
    ensures Enabled(c, s, Main) <==> CanMove(c, s, Main)
  {
    FreeMeansNobodyThere(c, s);
    if s.main in {MLockGate, MLockStart} {
      NoThreadYet(c, s);
    }
  }

  /** In every run an actor can move exactly if the code has nothing to wait for there. */
  lemma MovesAreExact(c: Config, sched: seq<Actor>, a: Actor)
    requires Execute(c, sched).Some?
    ensures Enabled(c, Execute(c, sched).value, a) <==> CanMove(c, Execute(c, sched).value, a)
  {
    SoundHolds(c, sched);
    match a
    case Main => MainMovesAreExact(c, Execute(c, sched).value);
    case Worker(i) => WorkerMovesAreExact(c, Execute(c, sched).value, i);
    case Spurious =>
  }

  // ---------------------------------------------------------------- signals

  /** In every run the wait of main ends with the next signal, whichever thread sends it, or with a
      spurious wake-up, and with nothing else. */
  lemma WaitEndsExactly(c: Config, sched: seq<Actor>, a: Actor)
    requires Execute(c, sched).Some? && Enabled(c, Execute(c, sched).value, a)
    requires Execute(c, sched).value.main.MWaiting?
    ensures var s := Execute(c, sched).value; var s' := Step(c, s, a);
      && (s'.main.MWoken? <==> a.Spurious? || (a.Worker? && s.threads[a.i].pc.TSignal?))
      && (s'.main.MWoken? || s'.main.MWaiting?)
  {
  }

  /** A signal changes main only if main is waiting for one. */
  lemma SignalWithoutWaiterIsLost(c: Config, sched: seq<Actor>, i: nat)
    requires Execute(c, sched).Some? && i < c.threads
    requires Execute(c, sched).value.threads[i].pc.TSignal? && !Execute(c, sched).value.main.MWaiting?
    ensures Step(c, Execute(c, sched).value, Worker(i)).main == Execute(c, sched).value.main
  {
  }

  /** Main in front of its test with threads 0 to `k` - 1 created: all but the last of them have
      read the number after their own and are parked at the gate, the last has yet to read. */
  predicate Shifted(c: Config, s: State, k: nat)
    requires WellFormed(c, s)
  {
    && 1 <= k <= c.threads && s.main.MTest? && s.loop == k && s.m1.ByMain?
    && forall i :: 0 <= i < c.threads ==>
      && s.threads[i].pc == (if i < k - 1 then TLockGate else if i == k - 1 then TReadArg else TUnborn)
      && (i < k - 1 ==> s.threads[i].index == i + 1)
  }

  /** Thread `i` reads the loop variable and signals. */
  lemma ReadsAndSignals(c: Config, sched: seq<Actor>, i: nat) returns (longer: seq<Actor>)
    requires Execute(c, sched).Some? && i < c.threads
    requires var s := Execute(c, sched).value;
      s.main.MWaiting? && s.m1.Nobody? && s.threads[i].pc.TReadArg?
    ensures Wakes(longer) == Wakes(sched)
    ensures var s := Execute(c, sched).value;
      Execute(c, longer) == Some(s.(m1 := ByThread(i), main := MWoken, threads :=
        s.threads[i := s.threads[i].(index := s.loop, cell := Allocated, pc := TUnlockStart)]))
  {
    var s := Execute(c, sched).value;
    longer := After(c, sched, Worker(i));
    longer := After(c, longer, Worker(i));
    longer := After(c, longer, Worker(i));
    assert Execute(c, longer).value.threads ==
      s.threads[i := s.threads[i].(index := s.loop, cell := Allocated, pc := TUnlockStart)];
  }

  /** Thread `i` reads the loop variable and signals; main wakes up and goes on to the next number. */
  lemma LateSignal(c: Config, sched: seq<Actor>, i: nat) returns (longer: seq<Actor>)
    requires Execute(c, sched).Some? && i < c.threads
    requires var s := Execute(c, sched).value;
      s.main.MWaiting? && s.m1.Nobody? && s.threads[i].pc.TReadArg?
    ensures Wakes(longer) == Wakes(sched)
    ensures var s := Execute(c, sched).value;
      Execute(c, longer) == Some(s.(m1 := ByMain, main := MTest, loop := s.loop + 1, threads :=
        s.threads[i := s.threads[i].(index := s.loop, cell := Allocated, pc := TLockGate)]))
  {
    var s := Execute(c, sched).value;
    longer := ReadsAndSignals(c, sched, i);
    longer := After(c, longer, Worker(i));
    assert Execute(c, longer).value.threads ==
      s.threads[i := s.threads[i].(index := s.loop, cell := Allocated, pc := TLockGate)];
    longer := After(c, longer, Main);
    longer := After(c, longer, Main);
  }

  /** One spurious wake-up, and every thread so far signals main out of the wait for the next one. */
  lemma {:induction false} ShiftedAfter(c: Config, k: nat) returns (sched: seq<Actor>)
    requires c.spurious && 1 <= k <= c.threads
    ensures Execute(c, sched).Some? && Shifted(c, Execute(c, sched).value, k) && Wakes(sched) == 1
  {
    if k == 1 {
      sched := AllWakesSpurious(c, 1);
    } else {
      sched := ShiftedAfter(c, k - 1);
      sched := NextCreated(c, sched, k - 1);
      sched := LateSignal(c, sched, k - 2);
    }
  }

  /** One spurious wake-up is enough to spoil every hand-over: in some finished run with no other,
      every thread has read the number after its own. */
  lemma {:induction false} OneWakeUpSpoilsAll(c: Config) returns (sched: seq<Actor>)
    requires c.spurious && c.threads > 0
    ensures Execute(c, sched).Some? && Finished(Execute(c, sched).value) && Wakes(sched) == 1
    ensures forall k :: 0 <= k < c.threads ==> Execute(c, sched).value.threads[k].index == k + 1
  {
    var n := c.threads;
    var shifted := ShiftedAfter(c, n);
    shifted := After(c, shifted, Worker(n - 1));
    sched := Completed(c, shifted);
    assert sched[..|shifted|] == shifted;
    forall k | 0 <= k < n ensures Execute(c, sched).value.threads[k].index == k + 1 {
      WhatStays(c, sched, |shifted|, k);
    }
  }

  // ---------------------------------------------------------------- what later steps keep

  lemma StepKeeps(c: Config, s: State, a: Actor, j: nat)
    requires Sound(c, s) && Enabled(c, s, a) && j < c.threads
    ensures var s' := Step(c, s, a);
      && s.out <= s'.out
      && (HasRead(s.threads[j]) ==> HasRead(s'.threads[j]) && s'.threads[j].index == s.threads[j].index)
      && s.threads[j].count <= s'.threads[j].count
  {
    if a.Main? {
      assert s.main.MCreate? ==> ThreadSound(c, s, s.loop);
    }
  }

  /** At every moment of every run the log is a beginning of the later log, and a thread that has
      read its argument keeps that number. */
  lemma {:induction false} WhatStays(c: Config, sched: seq<Actor>, k: nat, j: nat)
    requires Execute(c, sched).Some? && k <= |sched| && j < c.threads
    ensures Execute(c, sched[..k]).Some?
    ensures var s := Execute(c, sched[..k]).value; var s' := Execute(c, sched).value;
      && s.out <= s'.out
      && (HasRead(s.threads[j]) ==> HasRead(s'.threads[j]) && s'.threads[j].index == s.threads[j].index)
      && s.threads[j].count <= s'.threads[j].count
    decreases |sched|
  {
    if k == |sched| {
      assert sched[..k] == sched;
    } else {
      var before := sched[..|sched| - 1];
      WhatStays(c, before, k, j);
      assert before[..k] == sched[..k];
      SoundHolds(c, before);
      StepKeeps(c, Execute(c, before).value, sched[|sched| - 1], j);
    }
  }

  // ---------------------------------------------------------------- what a thread reads

  function MainSteps(sched: seq<Actor>): nat
  {
    if sched == [] then 0
    else MainSteps(sched[..|sched| - 1]) + if sched[|sched| - 1].Main? then 1 else 0
  }

  /** The loop variable after `m` steps of main: a round of the first loop takes five, then come four
      that leave the variable alone, and then the three later loops, one step for each round and one
      to leave. */
  function LoopAfter(c: Config, m: nat): int
  {
    var n := c.threads;
    if m < 3 then 0
    else if m < 5 * n + 3 then (m - 3) / 5
    else if m < 5 * n + 7 then n
    else if m < 6 * n + 8 then m - (5 * n + 7)
    else if m < 7 * n + 9 then m - (6 * n + 8)
    else if m < 8 * n + 10 then m - (7 * n + 9)
    else n
  }

  lemma MainLeftStep(c: Config, s: State, a: Actor)
    requires Sound(c, s) && Enabled(c, s, a)
    ensures MainLeft(c, Step(c, s, a)) + (if a.Main? then 1 else 0) == MainLeft(c, s)
  {
    if a.Main? {
      MainLeftDrops(c, s);
    } else if a.Worker? {
      assert ThreadSound(c, s, a.i);
      WorkerLeftDrops(c, s, a.i);
    }
  }

  lemma {:induction false} MainStepsTaken(c: Config, sched: seq<Actor>)
    requires Execute(c, sched).Some?
    ensures MainSteps(sched) + MainLeft(c, Execute(c, sched).value) == 8 * c.threads + 10
  {
    if sched != [] {
      var before := sched[..|sched| - 1];
      MainStepsTaken(c, before);
      SoundHolds(c, before);
      MainLeftStep(c, Execute(c, before).value, sched[|sched| - 1]);
    }
  }

  lemma LoopFromLeft(c: Config, s: State, m: nat)
    requires Sound(c, s) && m + MainLeft(c, s) == 8 * c.threads + 10
    requires s.main in {MLockGate, MLockStart, MInit} ==> s.loop == 0
    ensures s.loop == LoopAfter(c, m)
  {
  }

  lemma {:induction false} LoopStartsAtZero(c: Config, sched: seq<Actor>)
    requires Execute(c, sched).Some?
    ensures Execute(c, sched).value.main in {MLockGate, MLockStart, MInit} ==> Execute(c, sched).value.loop == 0
  {
    if sched != [] {
      LoopStartsAtZero(c, sched[..|sched| - 1]);
    }
  }

  /** In every run the loop variable depends on the number of steps main has taken, and on nothing the
      threads have done. */
  lemma LoopIsMainsOwn(c: Config, sched: seq<Actor>)
    requires Execute(c, sched).Some?
    ensures Execute(c, sched).value.loop == LoopAfter(c, MainSteps(sched))
  {
    SoundHolds(c, sched);
    MainStepsTaken(c, sched);
    LoopStartsAtZero(c, sched);
    LoopFromLeft(c, Execute(c, sched).value, MainSteps(sched));
  }

  /** Step `k` is the first of thread `j`. */
  predicate FirstStepAt(sched: seq<Actor>, j: nat, k: nat)
  {
    k < |sched| && sched[k] == Worker(j) && Worker(j) !in sched[..k]
  }

  lemma {:induction false} UnreadHasNotMoved(c: Config, sched: seq<Actor>, j: nat)
    requires Execute(c, sched).Some? && j < c.threads
    ensures !HasRead(Execute(c, sched).value.threads[j]) <==> Worker(j) !in sched
  {
    if sched != [] {
      var before, a := sched[..|sched| - 1], sched[|sched| - 1];
      UnreadHasNotMoved(c, before, j);
      SoundHolds(c, before);
      assert sched == before + [a];
      assert ThreadSound(c, Execute(c, before).value, j);
      StepKeeps(c, Execute(c, before).value, a, j);
    }
  }

  /** In every run the number a thread has is what the loop variable was when it took its first step,
      which is told from the steps main had taken by then. */
  lemma {:induction false} NumberIsLoopThen(c: Config, sched: seq<Actor>, j: nat) returns (k: nat)
    requires Execute(c, sched).Some? && j < c.threads && HasRead(Execute(c, sched).value.threads[j])
    ensures FirstStepAt(sched, j, k)
    ensures Execute(c, sched).value.threads[j].index == LoopAfter(c, MainSteps(sched[..k]))
  {
    k := |sched| - 1;
    var before := sched[..k];
    var s := Execute(c, before).value;
    SoundHolds(c, before);
    UnreadHasNotMoved(c, before, j);
    if HasRead(s.threads[j]) {
      StepKeeps(c, s, sched[k], j);
      k := NumberIsLoopThen(c, before, j);
      assert before[..k] == sched[..k];
    } else {
      LoopIsMainsOwn(c, before);
    }
  }

  // ---------------------------------------------------------------- the numbers a thread can read

  ghost predicate CanRead(c: Config, j: nat, v: int)
    requires j < c.threads
  {
    exists sched :: Execute(c, sched).Some? &&
      HasRead(Execute(c, sched).value.threads[j]) && Execute(c, sched).value.threads[j].index == v
  }

  lemma {:induction false} NumbersInRange(c: Config, sched: seq<Actor>, j: nat)
    requires Execute(c, sched).Some? && j < c.threads && HasRead(Execute(c, sched).value.threads[j])
    ensures 0 <= Execute(c, sched).value.threads[j].index <= c.threads
  {
    if sched != [] {
      var before := sched[..|sched| - 1];
      var s := Execute(c, before).value;
      if HasRead(s.threads[j]) {
        NumbersInRange(c, before, j);
        SoundHolds(c, before);
        StepKeeps(c, s, sched[|sched| - 1], j);
      }
    }
  }

  /** Thread `i` runs alone from its argument to its end. */
  lemma {:induction false} RunsToEnd(c: Config, sched: seq<Actor>, i: nat) returns (longer: seq<Actor>)
    requires Execute(c, sched).Some? && i < c.threads
    requires var s := Execute(c, sched).value;
      s.m1.Nobody? && s.m2.Nobody? && s.main.MJoin? && s.threads[i].pc.TReadArg?
    ensures Execute(c, longer).Some?
    ensures var s := Execute(c, sched).value; var s' := Execute(c, longer).value;
      && s' == s.(threads := s.threads[i := s'.threads[i]], out := s'.out) && s'.threads[i].pc.TExited?
  {
    longer := After(c, sched, Worker(i));
    longer := After(c, longer, Worker(i));
    longer := After(c, longer, Worker(i));
    longer := After(c, longer, Worker(i));
    longer := After(c, longer, Worker(i));
    longer := After(c, longer, Worker(i));
    longer := CountsToEnd(c, longer, i);
  }

  lemma {:induction false} CountsToEnd(c: Config, sched: seq<Actor>, i: nat) returns (longer: seq<Actor>)
    requires Execute(c, sched).Some? && i < c.threads && Execute(c, sched).value.threads[i].pc.TCount?
    ensures Execute(c, longer).Some?
    ensures var s := Execute(c, sched).value; var s' := Execute(c, longer).value;
      && s' == s.(threads := s.threads[i := s'.threads[i]], out := s'.out) && s'.threads[i].pc.TExited?
    decreases c.loops - Execute(c, sched).value.threads[i].count
  {
    longer := After(c, sched, Worker(i));
    if Execute(c, longer).value.threads[i].pc.TCount? {
      longer := CountsToEnd(c, longer, i);
    } else {
      longer := After(c, longer, Worker(i));
    }
  }

  /** Main has joined the first `v` threads; the others exist, but have not moved. */
  predicate JoinedOnly(c: Config, s: State, v: nat)
    requires WellFormed(c, s)
  {
    && s.main.MJoin? && s.loop == v && s.m1.Nobody? && s.m2.Nobody?
    && forall i :: v <= i < c.threads ==> s.threads[i].pc.TReadArg?
  }

  lemma {:induction false} JoinedAfter(c: Config, v: nat) returns (sched: seq<Actor>)
    requires c.spurious && v < c.threads
    ensures Execute(c, sched).Some? && JoinedOnly(c, Execute(c, sched).value, v)
  {
    if v == 0 {
      sched := AllWakesSpurious(c, c.threads);
      SoundHolds(c, sched);
      sched := After(c, sched, Main);
      sched := After(c, sched, Main);
      sched := After(c, sched, Main);
      sched := After(c, sched, Main);
    } else {
      sched := JoinedAfter(c, v - 1);
      sched := RunsToEnd(c, sched, v - 1);
      sched := After(c, sched, Main);
    }
  }

  lemma ReadByThread(c: Config, sched: seq<Actor>, j: nat)
    requires Execute(c, sched).Some? && j < c.threads && Execute(c, sched).value.threads[j].pc.TReadArg?
    ensures CanRead(c, j, Execute(c, sched).value.loop)
  {
    var longer := After(c, sched, Worker(j));
    assert HasRead(Execute(c, longer).value.threads[j]);
  }

  /** Before, while and after main waits for it, and as late as in the join loop. */
  lemma SpuriousNumbers(c: Config, j: nat, v: nat)
    requires c.spurious && j < c.threads && v <= c.threads
    ensures CanRead(c, j, v)
  {
    var sched: seq<Actor>;
    if v < j {
      sched := JoinedAfter(c, v);
    } else {
      sched := AllWakesSpurious(c, v);
      if v == j {
        sched := NextCreated(c, sched, j);
      }
    }
    ReadByThread(c, sched, j);
  }

  /** Thread `j` can read its own number and no other if every wake-up follows a signal, and every
      number from 0 to the number of threads otherwise. */
  lemma NumbersAreExact(c: Config, j: nat, v: int)
    requires j < c.threads
    ensures CanRead(c, j, v) <==> if c.spurious then 0 <= v <= c.threads else v == j
  {
    if CanRead(c, j, v) {
      var sched :| Execute(c, sched).Some? &&
        HasRead(Execute(c, sched).value.threads[j]) && Execute(c, sched).value.threads[j].index == v;
      NumbersInRange(c, sched, j);
      if !c.spurious {
        InvariantHolds(c, sched);
        assert ThreadQuiet(c, Execute(c, sched).value, j);
      }
    }
    if c.spurious && 0 <= v <= c.threads {
      SpuriousNumbers(c, j, v);
    } else if !c.spurious && v == j {
      var sched := Completed(c, []);
      FinishedRuns(c, sched, j);
    }
  }

  // ---------------------------------------------------------------- the log

  /** Has a thread printed this line? */
  function PrintedBy(line: Line): Thread -> nat
  {
    (t: Thread) => if t.index == line.index && 1 <= line.thousands <= t.count / 1000 then 1 else 0
  }

  lemma PrintedByStep(c: Config, s: State, i: nat, line: Line)
    requires Sound(c, s) && Enabled(c, s, Worker(i))
    ensures var s' := WorkerStep(c, s, i);
      multiset(s'.out)[line] + PrintedBy(line)(s.threads[i]) == multiset(s.out)[line] + PrintedBy(line)(s'.threads[i])
  {
    assert ThreadSound(c, s, i);
    CountStepIs(c, s, i, i);
    NextThousand(s.threads[i].count);
  }

  lemma StepKeepsLines(c: Config, s: State, a: Actor, line: Line)
    requires Sound(c, s) && Enabled(c, s, a) && multiset(s.out)[line] == Sum(s.threads, PrintedBy(line))
    ensures multiset(Step(c, s, a).out)[line] == Sum(Step(c, s, a).threads, PrintedBy(line))
  {
    var s' := Step(c, s, a);
    if a.Worker? {
      PrintedByStep(c, s, a.i, line);
      SumUpdate(s.threads, a.i, s'.threads[a.i], PrintedBy(line));
    } else if a.Main? && s.loop < c.threads {
      SumUpdate(s.threads, s.loop, s'.threads[s.loop], PrintedBy(line));
    }
  }

  /** Every run has printed each line once for each thread that has read its number and counted that
      far, and no other line; so a thread with a wrong number prints under that number. */
  lemma {:induction false} LinesAreExact(c: Config, sched: seq<Actor>, line: Line)
    requires Execute(c, sched).Some?
    ensures var s := Execute(c, sched).value;
      multiset(s.out)[line] == Sum(s.threads, PrintedBy(line))
  {
    if sched == [] {
      SumConstant(Init(c).threads, 0, PrintedBy(line));
    } else {
      var before := sched[..|sched| - 1];
      LinesAreExact(c, before, line);
      SoundHolds(c, before);
      StepKeepsLines(c, Execute(c, before).value, sched[|sched| - 1], line);
    }
  }
}
