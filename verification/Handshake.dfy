/** The start handshake of posix_thread_4fifo.c: main hands every thread the address of its own
    loop variable, and relies on s_m1, s_c1 and s_m2 for each thread to read it in time.
    One Step is one access to shared state; every interleaving of the steps is a run. */
module Handshake {
  import opened Basics

  /** `threads` threads that count to `loops`; `spurious` says whether pthread_cond_wait may also
      return without a signal. */
  datatype Config = Config(threads: nat, loops: nat, spurious: bool)

  datatype MainPc =
    | MLockGate | MLockStart | MInit | MTest | MCreate | MWait | MWaiting | MWoken | MNext
    | MUnlockStart | MUnlockGate | MJoinInit | MJoin | MPrint | MFree | MDone

  datatype ThreadPc =
    | TUnborn | TReadArg | TLockStart | TSignal | TUnlockStart | TLockGate | TUnlockGate
    | TCount | TFinish | TExited

  /** The heap cell a thread returns its time in. */
  datatype Cell = NoCell | Allocated | Filled | Freed

  datatype Thread = Thread(pc: ThreadPc, index: int, count: nat, cell: Cell)

  datatype Owner = Nobody | ByMain | ByThread(i: nat)

  /** One progress line of the counting loop. */
  datatype Line = Line(index: int, thousands: nat)

  datatype State = State(
    m1: Owner, m2: Owner, main: MainPc, loop: nat, threads: seq<Thread>, out: seq<Line>)

  datatype Actor = Main | Worker(i: nat) | Spurious

  function Init(c: Config): State
  {
    State(Nobody, Nobody, MLockGate, 0, seq(c.threads, _ => Thread(TUnborn, -1, 0, NoCell)), [])
  }

  /** The loop variable stays where the code may use it as a thread number. */
  predicate WellFormed(c: Config, s: State)
  {
    && |s.threads| == c.threads
    && s.loop <= c.threads
    && (s.main in {MCreate, MWait, MWaiting, MWoken, MNext} ==> s.loop < c.threads)
  }

  predicate Enabled(c: Config, s: State, a: Actor)
    requires WellFormed(c, s)
  {
    match a
    case Main =>
      (match s.main
       case MLockGate => s.m2.Nobody?
       case MLockStart => s.m1.Nobody?
       case MWaiting => false
       case MWoken => s.m1.Nobody?
       case MJoin => s.loop < c.threads ==> s.threads[s.loop].pc.TExited?
       case MDone => false
       case _ => true)
    case Worker(i) =>
      i < c.threads &&
      (match s.threads[i].pc
       case TUnborn => false
       case TLockStart => s.m1.Nobody?
       case TLockGate => s.m2.Nobody?
       case TExited => false
       case _ => true)
    case Spurious => c.spurious && s.main.MWaiting?
  }

  function MainStep(c: Config, s: State): State
    requires WellFormed(c, s) && Enabled(c, s, Main)
  {
    match s.main
    case MLockGate => s.(m2 := ByMain, main := MLockStart)
    case MLockStart => s.(m1 := ByMain, main := MInit)
    case MInit => s.(loop := 0, main := MTest)
    case MTest => s.(main := if s.loop < c.threads then MCreate else MUnlockStart)
    case MCreate =>
      s.(threads := s.threads[s.loop := s.threads[s.loop].(pc := TReadArg)], main := MWait)
    case MWait => s.(m1 := Nobody, main := MWaiting)  // joins the wait set and unlocks, atomically
    case MWoken => s.(m1 := ByMain, main := MNext)
    case MNext => s.(loop := s.loop + 1, main := MTest)
    case MUnlockStart => s.(m1 := Nobody, main := MUnlockGate)
    case MUnlockGate => s.(m2 := Nobody, main := MJoinInit)
    case MJoinInit => s.(loop := 0, main := MJoin)
    case MJoin => if s.loop < c.threads then s.(loop := s.loop + 1) else s.(loop := 0, main := MPrint)
    case MPrint => if s.loop < c.threads then s.(loop := s.loop + 1) else s.(loop := 0, main := MFree)
    case MFree =>
      if s.loop < c.threads
      then s.(threads := s.threads[s.loop := s.threads[s.loop].(cell := Freed)], loop := s.loop + 1)
      else s.(main := MDone)
  }

  function WorkerStep(c: Config, s: State, i: nat): State
    requires WellFormed(c, s) && Enabled(c, s, Worker(i))
  {
    var t := s.threads[i];
    match t.pc
    case TReadArg => s.(threads := s.threads[i := t.(index := s.loop, cell := Allocated, pc := TLockStart)])
    case TLockStart => s.(m1 := ByThread(i), threads := s.threads[i := t.(pc := TSignal)])
    case TSignal =>
      s.(main := if s.main.MWaiting? then MWoken else s.main,
         threads := s.threads[i := t.(pc := TUnlockStart)])
    case TUnlockStart => s.(m1 := Nobody, threads := s.threads[i := t.(pc := TLockGate)])
    case TLockGate => s.(m2 := ByThread(i), threads := s.threads[i := t.(pc := TUnlockGate)])
    case TUnlockGate => s.(m2 := Nobody, threads := s.threads[i := t.(pc := TCount)])
    case TCount =>
      if t.count < c.loops then
        var count := t.count + 1;
        s.(threads := s.threads[i := t.(count := count)],
           out := if count % 1000 == 0 then s.out + [Line(t.index, count / 1000)] else s.out)
      else s.(threads := s.threads[i := t.(pc := TFinish)])
    case TFinish => s.(threads := s.threads[i := t.(cell := Filled, pc := TExited)])
  }

  function Step(c: Config, s: State, a: Actor): (s': State)
    requires WellFormed(c, s) && Enabled(c, s, a)
    ensures WellFormed(c, s')
  {
    match a
    case Main => MainStep(c, s)
    case Worker(i) => WorkerStep(c, s, i)
    case Spurious => s.(main := MWoken)
  }

  /** The state a schedule leads to, if every step of it was possible. */
  function Execute(c: Config, sched: seq<Actor>): (r: Option<State>)
    ensures r.Some? ==> WellFormed(c, r.value)
  {
    if sched == [] then Some(Init(c))
    else
      match Execute(c, sched[..|sched| - 1])
      case None => None
      case Some(s) =>
        var a := sched[|sched| - 1];
        if Enabled(c, s, a) then Some(Step(c, s, a)) else None
  }

  // ---------------------------------------------------------------- the invariant

  /** Main owns s_m1 at these points, ... */
  predicate MainOwnsStart(pc: MainPc)
  {
    pc in {MInit, MTest, MCreate, MWait, MNext, MUnlockStart}
  }

  /** ... and s_m2 at these. */
  predicate MainOwnsGate(pc: MainPc)
  {
    pc in {MLockStart, MInit, MTest, MCreate, MWait, MWaiting, MWoken, MNext, MUnlockStart, MUnlockGate}
  }

  predicate HasRead(t: Thread)
  {
    !t.pc.TUnborn? && !t.pc.TReadArg?
  }

  predicate PastGate(t: Thread)
  {
    t.pc in {TUnlockGate, TCount, TFinish, TExited}
  }

  /** Main has created thread `j`. */
  predicate Created(s: State, j: nat)
  {
    match s.main
    case MLockGate | MLockStart | MInit => false
    case MTest | MCreate => j < s.loop
    case MWait | MWaiting | MWoken | MNext => j <= s.loop
    case _ => true
  }

  /** Main has joined thread `j`. */
  predicate Joined(s: State, j: nat)
  {
    s.main in {MPrint, MFree, MDone} || (s.main.MJoin? && j < s.loop)
  }

  /** The thread main waits for still has to signal. */
  predicate YetToSignal(main: MainPc, pc: ThreadPc)
  {
    && (main.MWait? ==> pc in {TReadArg, TLockStart})
    && (main.MWaiting? ==> pc in {TReadArg, TLockStart, TSignal})
  }

  /** What holds of thread `j` in every run, spurious wake-ups or not. */
  predicate ThreadSound(c: Config, s: State, j: nat)
    requires WellFormed(c, s) && j < c.threads
  {
    var t := s.threads[j];
    && (t.pc.TUnborn? <==> !Created(s, j))
    && (Joined(s, j) ==> t.pc.TExited?)
    && (j == s.loop ==> YetToSignal(s.main, t.pc))
    && (s.m1 == ByThread(j) <==> t.pc in {TSignal, TUnlockStart})
    && (s.m2 == ByThread(j) <==> t.pc.TUnlockGate?)
    && t.count <= c.loops
    && (t.count > 0 ==> t.pc in {TCount, TFinish, TExited})
    && (t.pc in {TFinish, TExited} ==> t.count == c.loops)
    && t.cell == (
         if !HasRead(t) then NoCell
         else if !t.pc.TExited? then Allocated
         else if s.main.MDone? || (s.main.MFree? && j < s.loop) then Freed
         else Filled)
  }

  predicate Sound(c: Config, s: State)
  {
    && WellFormed(c, s)
    && (s.m1.ByMain? <==> MainOwnsStart(s.main))
    && (s.m2.ByMain? <==> MainOwnsGate(s.main))
    && (s.m1.ByThread? ==> s.m1.i < c.threads)
    && (s.m2.ByThread? ==> s.m2.i < c.threads)
    && (s.main in {MUnlockStart, MUnlockGate, MJoinInit, MDone} ==> s.loop == c.threads)
    && (forall j :: 0 <= j < c.threads ==> ThreadSound(c, s, j))
  }

  /** Where thread `j` can be, given where main is, as long as main wakes up only on a signal. */
  predicate InStep(c: Config, s: State, j: nat)
    requires WellFormed(c, s) && j < c.threads
  {
    var pc := s.threads[j].pc;
    match s.main
    case MLockGate | MLockStart | MInit => pc.TUnborn?
    case MTest | MCreate => if j < s.loop then pc.TLockGate? else pc.TUnborn?
    case MWait =>
      if j < s.loop then pc.TLockGate? else if j == s.loop then pc in {TReadArg, TLockStart} else pc.TUnborn?
    case MWaiting =>
      if j < s.loop then pc.TLockGate?
      else if j == s.loop then pc in {TReadArg, TLockStart, TSignal} else pc.TUnborn?
    case MWoken =>
      if j < s.loop then pc.TLockGate?
      else if j == s.loop then pc in {TUnlockStart, TLockGate} else pc.TUnborn?
    case MNext => if j <= s.loop then pc.TLockGate? else pc.TUnborn?
    case MUnlockStart | MUnlockGate => pc.TLockGate?
    case MJoinInit => pc.TLockGate? || PastGate(s.threads[j])
    case MJoin => if j < s.loop then pc.TExited? else pc.TLockGate? || PastGate(s.threads[j])
    case MPrint | MFree | MDone => pc.TExited?
  }

  /** What only the signals give: thread `j` is in step with main and has its own number. */
  predicate ThreadQuiet(c: Config, s: State, j: nat)
    requires WellFormed(c, s) && j < c.threads
  {
    InStep(c, s, j) && (HasRead(s.threads[j]) ==> s.threads[j].index == j)
  }

  predicate Invariant(c: Config, s: State)
  {
    Sound(c, s) && forall j :: 0 <= j < c.threads ==> ThreadQuiet(c, s, j)
  }

  lemma MainKeepsThread(c: Config, s: State, j: nat)
    requires Sound(c, s) && Enabled(c, s, Main) && j < c.threads
    ensures ThreadSound(c, MainStep(c, s), j)
  {
    assert ThreadSound(c, s, j);
  }

  lemma SoundMain(c: Config, s: State)
    requires Sound(c, s) && Enabled(c, s, Main)
    ensures Sound(c, MainStep(c, s))
  {
    forall j | 0 <= j < c.threads ensures ThreadSound(c, MainStep(c, s), j) {
      MainKeepsThread(c, s, j);
    }
  }

  /** Main waking up, on a signal or without, leaves a thread sound if its own part stays. */
  lemma WakeUpKeepsThread(c: Config, s: State, s': State, j: nat)
    requires WellFormed(c, s) && WellFormed(c, s') && j < c.threads && ThreadSound(c, s, j)
    requires s'.threads[j] == s.threads[j] && s'.loop == s.loop
    requires s'.main == s.main || (s.main.MWaiting? && s'.main.MWoken?)
    requires (s'.m1 == ByThread(j) <==> s.m1 == ByThread(j)) && (s'.m2 == ByThread(j) <==> s.m2 == ByThread(j))
    ensures ThreadSound(c, s', j)
  {
  }

  lemma WorkerKeepsItself(c: Config, s: State, i: nat)
    requires Sound(c, s) && Enabled(c, s, Worker(i))
    ensures ThreadSound(c, WorkerStep(c, s, i), i)
  {
    assert ThreadSound(c, s, i);
  }

  lemma WorkerLeavesThread(c: Config, s: State, i: nat, j: nat)
    requires WellFormed(c, s) && Enabled(c, s, Worker(i)) && ThreadSound(c, s, i)
    requires j < c.threads && j != i && ThreadSound(c, s, j)
    ensures ThreadSound(c, WorkerStep(c, s, i), j)
  {
    WakeUpKeepsThread(c, s, WorkerStep(c, s, i), j);
  }

  lemma SoundWorker(c: Config, s: State, i: nat)
    requires Sound(c, s) && Enabled(c, s, Worker(i))
    ensures Sound(c, WorkerStep(c, s, i))
  {
    assert ThreadSound(c, s, i);
    forall j | 0 <= j < c.threads ensures ThreadSound(c, WorkerStep(c, s, i), j) {
      if j == i {
        WorkerKeepsItself(c, s, i);
      } else {
        WorkerLeavesThread(c, s, i, j);
      }
    }
  }

  lemma SoundSpurious(c: Config, s: State)
    requires Sound(c, s) && Enabled(c, s, Spurious)
    ensures Sound(c, Step(c, s, Spurious))
  {
    forall j | 0 <= j < c.threads ensures ThreadSound(c, Step(c, s, Spurious), j) {
      WakeUpKeepsThread(c, s, Step(c, s, Spurious), j);
    }
  }

  /** Mutex owners, creation, joining, counts and cells are right in every run of every configuration. */
  lemma {:induction false} SoundHolds(c: Config, sched: seq<Actor>)
    requires Execute(c, sched).Some?
    ensures Sound(c, Execute(c, sched).value)
  {
    if sched != [] {
      var before := sched[..|sched| - 1];
      SoundHolds(c, before);
      match sched[|sched| - 1]
      case Main => SoundMain(c, Execute(c, before).value);
      case Worker(i) => SoundWorker(c, Execute(c, before).value, i);
      case Spurious => SoundSpurious(c, Execute(c, before).value);
    }
  }

  lemma MainKeepsQuiet(c: Config, s: State, j: nat)
    requires Invariant(c, s) && Enabled(c, s, Main) && j < c.threads
    ensures ThreadQuiet(c, MainStep(c, s), j)
  {
    assert ThreadQuiet(c, s, j) && ThreadSound(c, s, j);
  }

  /** A step of one thread leaves every other thread in step with main. */
  lemma WorkerKeepsOther(c: Config, s: State, i: nat, j: nat)
    requires Invariant(c, s) && Enabled(c, s, Worker(i)) && j < c.threads && i != j
    ensures ThreadQuiet(c, WorkerStep(c, s, i), j)
  {
    var s' := WorkerStep(c, s, i);
    assert ThreadQuiet(c, s, j);
    assert s'.threads[j] == s.threads[j] && s'.loop == s.loop;
    if s.threads[i].pc.TSignal? {
      assert ThreadQuiet(c, s, i);
    } else {
      assert s'.main == s.main;
    }
  }

  lemma WorkerKeepsOwn(c: Config, s: State, i: nat)
    requires Invariant(c, s) && Enabled(c, s, Worker(i))
    ensures ThreadQuiet(c, WorkerStep(c, s, i), i)
  {
    assert ThreadQuiet(c, s, i) && ThreadSound(c, s, i);
  }

  /** Without spurious wake-ups the threads stay in step with main and read their own numbers. */
  lemma {:induction false} InvariantHolds(c: Config, sched: seq<Actor>)
    requires !c.spurious && Execute(c, sched).Some?
    ensures Invariant(c, Execute(c, sched).value)
  {
    SoundHolds(c, sched);
    if sched != [] {
      var before := sched[..|sched| - 1];
      InvariantHolds(c, before);
      var s, s' := Execute(c, before).value, Execute(c, sched).value;
      forall j | 0 <= j < c.threads ensures ThreadQuiet(c, s', j) {
        match sched[|sched| - 1]
        case Main => MainKeepsQuiet(c, s, j);
        case Worker(i) =>
          if i == j {
            WorkerKeepsOwn(c, s, i);
          } else {
            WorkerKeepsOther(c, s, i, j);
          }
        case Spurious =>
      }
    }
  }

  // ---------------------------------------------------------------- how long a run is

  /** Steps thread `t` still has to take. */
  function ThreadLeft(c: Config, t: Thread): nat
  {
    match t.pc
    case TUnborn | TReadArg => c.loops + 8
    case TLockStart => c.loops + 7
    case TSignal => c.loops + 6
    case TUnlockStart => c.loops + 5
    case TLockGate => c.loops + 4
    case TUnlockGate => c.loops + 3
    case TCount => if t.count <= c.loops then c.loops - t.count + 2 else 2
    case TFinish => 1
    case TExited => 0
  }

  function LeftOf(c: Config): Thread -> nat
  {
    t => ThreadLeft(c, t)
  }

  /** Steps main still has to take. */
  function MainLeft(c: Config, s: State): nat
    requires WellFormed(c, s)
  {
    var n := c.threads;
    var k := n - s.loop;
    match s.main
    case MLockGate => 8 * n + 10
    case MLockStart => 8 * n + 9
    case MInit => 8 * n + 8
    case MTest => 5 * k + 3 * n + 7
    case MCreate => 5 * k + 3 * n + 6
    case MWait => 5 * k + 3 * n + 5
    case MWaiting | MWoken => 5 * k + 3 * n + 4
    case MNext => 5 * k + 3 * n + 3
    case MUnlockStart => 3 * n + 6
    case MUnlockGate => 3 * n + 5
    case MJoinInit => 3 * n + 4
    case MJoin => k + 2 * n + 3
    case MPrint => k + n + 2
    case MFree => k + 1
    case MDone => 0
  }

  ghost function Left(c: Config, s: State): nat
    requires WellFormed(c, s)
  {
    MainLeft(c, s) + Sum(s.threads, LeftOf(c))
  }

  /** The steps of main and the threads in a complete run. */
  function RunLength(c: Config): nat
  {
    c.threads * (c.loops + 16) + 10
  }

  /** The number of spurious wake-ups in a schedule. */
  function Wakes(sched: seq<Actor>): nat
  {
    if sched == [] then 0
    else Wakes(sched[..|sched| - 1]) + if sched[|sched| - 1].Spurious? then 1 else 0
  }

  /** Waits main still has to come out of. */
  function WaitsLeft(c: Config, s: State): nat
    requires WellFormed(c, s)
  {
    match s.main
    case MLockGate | MLockStart | MInit => c.threads
    case MTest | MCreate | MWait | MWaiting => c.threads - s.loop
    case MWoken | MNext => c.threads - s.loop - 1
    case _ => 0
  }

  lemma MainLeftDrops(c: Config, s: State)
    requires WellFormed(c, s) && Enabled(c, s, Main)
    ensures MainLeft(c, MainStep(c, s)) == MainLeft(c, s) - 1
  {
  }

  lemma MainStepIsProgress(c: Config, s: State)
    requires Sound(c, s) && Enabled(c, s, Main)
    ensures Left(c, MainStep(c, s)) == Left(c, s) - 1
  {
    var s' := MainStep(c, s);
    MainLeftDrops(c, s);
    if s.main in {MCreate, MFree} && s.loop < c.threads {
      assert ThreadSound(c, s, s.loop);
      SumUpdate(s.threads, s.loop, s'.threads[s.loop], LeftOf(c));
    } else {
      assert s'.threads == s.threads;
    }
  }

  lemma WorkerLeftDrops(c: Config, s: State, i: nat)
    requires WellFormed(c, s) && Enabled(c, s, Worker(i)) && ThreadSound(c, s, i)
    ensures var s' := WorkerStep(c, s, i);
      && MainLeft(c, s') == MainLeft(c, s)
      && ThreadLeft(c, s'.threads[i]) == ThreadLeft(c, s.threads[i]) - 1
      && s'.threads == s.threads[i := s'.threads[i]]
  {
  }

  lemma WorkerStepIsProgress(c: Config, s: State, i: nat)
    requires Sound(c, s) && Enabled(c, s, Worker(i))
    ensures Left(c, WorkerStep(c, s, i)) == Left(c, s) - 1
  {
    var t' := WorkerStep(c, s, i).threads[i];
    assert ThreadSound(c, s, i);
    WorkerLeftDrops(c, s, i);
    SumUpdate(s.threads, i, t', LeftOf(c));
  }

  lemma SpuriousIsNoProgress(c: Config, s: State)
    requires WellFormed(c, s) && Enabled(c, s, Spurious)
    ensures Left(c, Step(c, s, Spurious)) == Left(c, s)
  {
  }

  lemma LeftAtStart(c: Config)
    ensures Left(c, Init(c)) == RunLength(c)
  {
    var n, k := c.threads, c.loops + 8;
    SumConstant(Init(c).threads, k, LeftOf(c));
    assert n * k + 8 * n == n * (k + 8);
  }

  /** Every step but a spurious wake-up brings the end one step nearer. */
  lemma {:induction false} StepsTaken(c: Config, sched: seq<Actor>)
    requires Execute(c, sched).Some?
    ensures |sched| + Left(c, Execute(c, sched).value) == RunLength(c) + Wakes(sched)
  {
    if sched == [] {
      LeftAtStart(c);
    } else {
      var before := sched[..|sched| - 1];
      var s := Execute(c, before).value;
      StepsTaken(c, before);
      SoundHolds(c, before);
      match sched[|sched| - 1]
      case Main => MainStepIsProgress(c, s);
      case Worker(i) => WorkerStepIsProgress(c, s, i);
      case Spurious => SpuriousIsNoProgress(c, s);
    }
  }

  lemma StepKeepsWaits(c: Config, s: State, a: Actor)
    requires WellFormed(c, s) && Enabled(c, s, a)
    ensures WaitsLeft(c, Step(c, s, a)) + (if a.Spurious? then 1 else 0) <= WaitsLeft(c, s)
  {
  }

  /** A wait ends once, so there is at most one spurious wake-up for each thread. */
  lemma {:induction false} WakesAreBounded(c: Config, sched: seq<Actor>)
    requires Execute(c, sched).Some?
    ensures Wakes(sched) + WaitsLeft(c, Execute(c, sched).value) <= c.threads
    ensures !c.spurious ==> Wakes(sched) == 0
  {
    if sched != [] {
      var before := sched[..|sched| - 1];
      WakesAreBounded(c, before);
      StepKeepsWaits(c, Execute(c, before).value, sched[|sched| - 1]);
    }
  }

  /** Main has finished and joined everyone. */
  predicate Finished(s: State)
  {
    s.main.MDone?
  }

  /** Whoever owns a mutex is at the point of the code that holds it. */
  lemma OwnersAreThere(c: Config, s: State)
    requires Sound(c, s)
    ensures s.m1.ByThread? ==> s.threads[s.m1.i].pc in {TSignal, TUnlockStart} && !Finished(s)
    ensures s.m2.ByThread? ==> s.threads[s.m2.i].pc.TUnlockGate? && !Finished(s)
  {
    if s.m1.ByThread? {
      assert s.m1 == ByThread(s.m1.i) && ThreadSound(c, s, s.m1.i);
    }
    if s.m2.ByThread? {
      assert s.m2 == ByThread(s.m2.i) && ThreadSound(c, s, s.m2.i);
    }
  }

  /** Main or some thread can move. */
  ghost predicate CanProgress(c: Config, s: State)
    requires WellFormed(c, s)
  {
    Enabled(c, s, Main) || exists i :: 0 <= i < c.threads && Enabled(c, s, Worker(i))
  }

  /** No reachable state is stuck, whatever wake-ups main has seen. */
  lemma NeverStuck(c: Config, s: State)
    requires Sound(c, s) && !Finished(s)
    ensures CanProgress(c, s)
  {
    OwnersAreThere(c, s);
    if !Enabled(c, s, Main) {
      if s.m1.ByThread? {
        assert Enabled(c, s, Worker(s.m1.i));
      } else if s.m2.ByThread? {
        assert Enabled(c, s, Worker(s.m2.i));
      } else {
        assert ThreadSound(c, s, s.loop);
        assert Enabled(c, s, Worker(s.loop));
      }
    }
  }

  lemma NothingLeft(c: Config, s: State)
    requires Sound(c, s) && Finished(s)
    ensures Left(c, s) == 0
  {
    forall i | 0 <= i < c.threads ensures LeftOf(c)(s.threads[i]) == 0 {
      assert ThreadSound(c, s, i);
    }
    SumConstant(s.threads, 0, LeftOf(c));
  }

  // ---------------------------------------------------------------- what every run keeps

  /** Whoever has read its argument has read its own creation number. */
  predicate ArgumentsRight(s: State)
  {
    forall i :: 0 <= i < |s.threads| ==> HasRead(s.threads[i]) ==> s.threads[i].index == i
  }

  /** No signal is sent while main is not waiting for exactly that thread. */
  lemma NoSignalIsLost(c: Config, sched: seq<Actor>, i: nat)
    requires !c.spurious && Execute(c, sched).Some? && i < c.threads
    ensures var s := Execute(c, sched).value;
      s.threads[i].pc.TSignal? ==>
        s.main.MWaiting? && s.loop == i && Step(c, s, Worker(i)).main.MWoken?
  {
    InvariantHolds(c, sched);
    assert ThreadQuiet(c, Execute(c, sched).value, i);
  }

  /** The start gate: once any thread is past s_m2, every thread exists and has read its number. */
  lemma GateHoldsUntilAllHaveRead(c: Config, sched: seq<Actor>, i: nat, j: nat)
    requires !c.spurious && Execute(c, sched).Some? && i < c.threads && j < c.threads
    ensures var s := Execute(c, sched).value;
      PastGate(s.threads[i]) ==> HasRead(s.threads[j]) && s.threads[j].index == j
  {
    InvariantHolds(c, sched);
    var s := Execute(c, sched).value;
    assert ThreadQuiet(c, s, i) && ThreadQuiet(c, s, j);
  }

  /** Main finds every result filled by its thread when it reads and when it frees it, and at the
      end all of them are freed. */
  lemma ResultsOwned(c: Config, sched: seq<Actor>)
    requires Execute(c, sched).Some?
    ensures var s := Execute(c, sched).value;
      && (s.main in {MPrint, MFree} && s.loop < c.threads ==> s.threads[s.loop].cell.Filled?)
      && (s.main.MDone? ==> forall i :: 0 <= i < c.threads ==> s.threads[i].cell.Freed?)
  {
    SoundHolds(c, sched);
    var s := Execute(c, sched).value;
    if s.main in {MPrint, MFree} && s.loop < c.threads {
      assert ThreadSound(c, s, s.loop);
    }
    forall i | 0 <= i < c.threads && s.main.MDone? ensures s.threads[i].cell.Freed? {
      assert ThreadSound(c, s, i);
    }
  }

  // ---------------------------------------------------------------- progress lines

  /** The progress values printed under number `i`, in order. */
  function LinesOf(out: seq<Line>, i: int): seq<int>
  {
    if out == [] then []
    else
      var last := out[|out| - 1];
      var earlier := LinesOf(out[..|out| - 1], i);
      if last.index == i then earlier + [last.thousands] else earlier
  }

  lemma LinesAppend(out: seq<Line>, line: Line, i: int)
    ensures LinesOf(out + [line], i) ==
      (if line.index == i then LinesOf(out, i) + [line.thousands] else LinesOf(out, i))
  {
    assert (out + [line])[..|out|] == out;
  }

  lemma NextThousand(k: nat)
    ensures (k + 1) / 1000 == (if (k + 1) % 1000 == 0 then k / 1000 + 1 else k / 1000)
  {
  }

  /** The count goes from `count` to the next under number `j`; the lines of `i` keep up. */
  lemma LinesKeepUp(out: seq<Line>, j: int, count: nat, i: int)
    ensures var next := count + 1;
      var out' := if next % 1000 == 0 then out + [Line(j, next / 1000)] else out;
      && (i != j ==> LinesOf(out', i) == LinesOf(out, i))
      && (i == j && LinesOf(out, i) == Ramp(count / 1000) ==> LinesOf(out', i) == Ramp(next / 1000))
  {
    NextThousand(count);
    RampExtends(count / 1000);
    LinesAppend(out, Line(j, (count + 1) / 1000), i);
  }

  /** What a step of thread `j` prints, and what it does to the count of thread `i`. */
  lemma CountStepIs(c: Config, s: State, j: nat, i: nat)
    requires WellFormed(c, s) && Enabled(c, s, Worker(j)) && i < c.threads
    ensures var s' := WorkerStep(c, s, j); var t := s.threads[j];
      if t.pc.TCount? && t.count < c.loops then
        && s'.out == (if (t.count + 1) % 1000 == 0 then s.out + [Line(t.index, (t.count + 1) / 1000)] else s.out)
        && s'.threads[i].count == s.threads[i].count + (if i == j then 1 else 0)
      else s'.out == s.out && s'.threads[i].count == s.threads[i].count
  {
  }

  /** A step keeps the lines of thread `i` up with its count. */
  lemma CountStepPrints(c: Config, s: State, j: nat, i: nat)
    requires WellFormed(c, s) && Enabled(c, s, Worker(j)) && i < c.threads
    requires s.threads[j].pc.TCount? ==> s.threads[j].index == j
    requires LinesOf(s.out, i) == Ramp(s.threads[i].count / 1000)
    ensures var s' := WorkerStep(c, s, j);
      LinesOf(s'.out, i) == Ramp(s'.threads[i].count / 1000)
  {
    CountStepIs(c, s, j, i);
    if s.threads[j].pc.TCount? && s.threads[j].count < c.loops {
      LinesKeepUp(s.out, j, s.threads[j].count, i);
    }
  }

  /** Thread `i` has printed 1, 2, ... up to its count in thousands, under its own number. */
  lemma {:induction false} LinesFollowCount(c: Config, sched: seq<Actor>, i: nat)
    requires !c.spurious && Execute(c, sched).Some? && i < c.threads
    ensures var s := Execute(c, sched).value;
      LinesOf(s.out, i) == Ramp(s.threads[i].count / 1000)
  {
    if sched != [] {
      var before := sched[..|sched| - 1];
      InvariantHolds(c, before);
      LinesFollowCount(c, before, i);
      match sched[|sched| - 1]
      case Main =>
      case Spurious =>
      case Worker(j) =>
        assert ThreadQuiet(c, Execute(c, before).value, j);
        CountStepPrints(c, Execute(c, before).value, j, i);
    }
  }

  function Thousands(t: Thread): nat
  {
    t.count / 1000
  }

  lemma StepKeepsLineTotal(c: Config, s: State, a: Actor)
    requires WellFormed(c, s) && Enabled(c, s, a) && |s.out| == Sum(s.threads, Thousands)
    ensures |Step(c, s, a).out| == Sum(Step(c, s, a).threads, Thousands)
  {
    var s' := Step(c, s, a);
    if a.Worker? {
      NextThousand(s.threads[a.i].count);
      SumUpdate(s.threads, a.i, s'.threads[a.i], Thousands);
    } else if a.Main? && s.loop < c.threads {
      SumUpdate(s.threads, s.loop, s'.threads[s.loop], Thousands);
    }
  }

  /** The number of lines follows the counts even if threads print under numbers not their own. */
  lemma {:induction false} LinesAreCounted(c: Config, sched: seq<Actor>)
    requires Execute(c, sched).Some?
    ensures var s := Execute(c, sched).value;
      |s.out| == Sum(s.threads, Thousands)
  {
    if sched == [] {
      SumConstant(Init(c).threads, 0, Thousands);
    } else {
      var before := sched[..|sched| - 1];
      LinesAreCounted(c, before);
      StepKeepsLineTotal(c, Execute(c, before).value, sched[|sched| - 1]);
    }
  }

  // ---------------------------------------------------------------- the main results

  /** Every run can go on until main is done, and is finished exactly when it is RunLength steps and
      one more for each spurious wake-up long; there is at most one of those for each thread. */
  lemma EveryRunEnds(c: Config, sched: seq<Actor>)
    requires Execute(c, sched).Some?
    ensures var s := Execute(c, sched).value;
      && |sched| <= RunLength(c) + Wakes(sched)
      && (Finished(s) <==> |sched| == RunLength(c) + Wakes(sched))
      && (Finished(s) || CanProgress(c, s))
    ensures Wakes(sched) <= (if c.spurious then c.threads else 0)
  {
    StepsTaken(c, sched);
    WakesAreBounded(c, sched);
    SoundHolds(c, sched);
    var s := Execute(c, sched).value;
    if Finished(s) {
      NothingLeft(c, s);
    } else {
      NeverStuck(c, s);
    }
  }

  /** At the end of every run each thread has exited with a full count, its result cell is gone and
      both mutexes are free; if no wake-up can be spurious it also has its own number and has printed
      all its lines under it. */
  lemma FinishedRuns(c: Config, sched: seq<Actor>, i: nat)
    requires Execute(c, sched).Some? && i < c.threads
    requires Finished(Execute(c, sched).value)
    ensures var s := Execute(c, sched).value; var t := s.threads[i];
      && t.pc.TExited? && t.count == c.loops && t.cell.Freed?
      && s.m1.Nobody? && s.m2.Nobody?
      && (!c.spurious ==> t.index == i && LinesOf(s.out, i) == Ramp(c.loops / 1000))
  {
    SoundHolds(c, sched);
    var s := Execute(c, sched).value;
    assert ThreadSound(c, s, i);
    OwnersAreThere(c, s);
    if !c.spurious {
      InvariantHolds(c, sched);
      assert ThreadQuiet(c, s, i);
      LinesFollowCount(c, sched, i);
    }
  }

  /** What a finished program has done. */
  ghost predicate Complete(c: Config, s: State)
  {
    && s.main.MDone? && s.m1.Nobody? && s.m2.Nobody?
    && |s.threads| == c.threads && |s.out| == c.threads * (c.loops / 1000)
    && forall i :: 0 <= i < c.threads ==>
      && s.threads[i].pc.TExited? && s.threads[i].count == c.loops && s.threads[i].cell.Freed?
      && (!c.spurious ==> s.threads[i].index == i && LinesOf(s.out, i) == Ramp(c.loops / 1000))
  }

  /** Whatever numbers the lines carry, their total is right at the end. */
  lemma FinishedLines(c: Config, sched: seq<Actor>)
    requires Execute(c, sched).Some? && Finished(Execute(c, sched).value)
    ensures |Execute(c, sched).value.out| == c.threads * (c.loops / 1000)
  {
    SoundHolds(c, sched);
    LinesAreCounted(c, sched);
    var s := Execute(c, sched).value;
    forall i | 0 <= i < c.threads ensures Thousands(s.threads[i]) == c.loops / 1000 {
      assert ThreadSound(c, s, i);
    }
    SumConstant(s.threads, c.loops / 1000, Thousands);
  }

  lemma FinishedIsComplete(c: Config, sched: seq<Actor>)
    requires Execute(c, sched).Some? && Finished(Execute(c, sched).value)
    ensures Complete(c, Execute(c, sched).value)
  {
    SoundHolds(c, sched);
    var s := Execute(c, sched).value;
    OwnersAreThere(c, s);
    FinishedLines(c, sched);
    forall i | 0 <= i < c.threads
      ensures s.threads[i].pc.TExited? && s.threads[i].count == c.loops && s.threads[i].cell.Freed?
      ensures !c.spurious ==> s.threads[i].index == i && LinesOf(s.out, i) == Ramp(c.loops / 1000)
    {
      FinishedRuns(c, sched, i);
    }
  }

  /** Actors as numbers: the threads, then main, then the spurious wake-up. */
  function ActorOf(c: Config, who: nat): Actor
  {
    if who < c.threads then Worker(who) else if who == c.threads then Main else Spurious
  }

  lemma SomeoneCanMove(c: Config, sched: seq<Actor>)
    requires Execute(c, sched).Some? && !Finished(Execute(c, sched).value)
    ensures |sched| < RunLength(c) + Wakes(sched)
    ensures exists who: nat :: who <= c.threads && Enabled(c, Execute(c, sched).value, ActorOf(c, who))
  {
    EveryRunEnds(c, sched);
    var s := Execute(c, sched).value;
    if Enabled(c, s, Main) {
      assert Enabled(c, s, ActorOf(c, c.threads));
    } else {
      var i :| 0 <= i < c.threads && Enabled(c, s, Worker(i));
      assert Enabled(c, s, ActorOf(c, i));
    }
  }

  lemma {:induction false} After(c: Config, sched: seq<Actor>, a: Actor) returns (longer: seq<Actor>)
    requires Execute(c, sched).Some? && Enabled(c, Execute(c, sched).value, a)
    ensures longer == sched + [a] && Execute(c, longer) == Some(Step(c, Execute(c, sched).value, a))
    ensures Wakes(longer) == Wakes(sched) + if a.Spurious? then 1 else 0
  {
    longer := sched + [a];
    assert longer[..|longer| - 1] == sched;
  }

  /** Any run can be finished without another spurious wake-up. */
  lemma {:induction false} Completed(c: Config, sched: seq<Actor>) returns (longer: seq<Actor>)
    requires Execute(c, sched).Some?
    ensures sched <= longer && Execute(c, longer).Some? && Finished(Execute(c, longer).value)
    ensures Wakes(longer) == Wakes(sched)
    decreases RunLength(c) + Wakes(sched) - |sched|
  {
    longer := sched;
    if !Finished(Execute(c, sched).value) {
      SomeoneCanMove(c, sched);
      var who: nat :| who <= c.threads && Enabled(c, Execute(c, sched).value, ActorOf(c, who));
      longer := After(c, sched, ActorOf(c, who));
      longer := Completed(c, longer);
    }
  }

  /** Main creates thread `k` and waits for it. */
  lemma NextCreated(c: Config, sched: seq<Actor>, k: nat) returns (longer: seq<Actor>)
    requires Execute(c, sched).Some? && k < c.threads
    requires var s := Execute(c, sched).value; s.main.MTest? && s.loop == k
    ensures Wakes(longer) == Wakes(sched)
    ensures var s := Execute(c, sched).value;
      Execute(c, longer) ==
        Some(s.(m1 := Nobody, main := MWaiting, threads := s.threads[k := s.threads[k].(pc := TReadArg)]))
  {
    longer := After(c, sched, Main);
    longer := After(c, longer, Main);
    longer := After(c, longer, Main);
  }

  /** Main in front of the loop test with `k` threads created, none of which has moved. */
  predicate CreatedOnly(c: Config, s: State, k: nat)
  {
    && WellFormed(c, s) && s.main.MTest? && s.loop == k && s.m1.ByMain?
    && forall i :: 0 <= i < c.threads ==> s.threads[i].pc == if i < k then TReadArg else TUnborn
  }

  /** Main can run through `k` waits on spurious wake-ups alone. */
  lemma {:induction false} AllWakesSpurious(c: Config, k: nat) returns (sched: seq<Actor>)
    requires c.spurious && k <= c.threads
    ensures Execute(c, sched).Some? && CreatedOnly(c, Execute(c, sched).value, k) && Wakes(sched) == k
  {
    if k == 0 {
      sched := [];
      sched := After(c, sched, Main);
      sched := After(c, sched, Main);
      sched := After(c, sched, Main);
    } else {
      sched := AllWakesSpurious(c, k - 1);
      sched := NextCreated(c, sched, k - 1);
      sched := After(c, sched, Spurious);
      sched := After(c, sched, Main);
      sched := After(c, sched, Main);
    }
  }

  /** One spurious wake-up for each thread is possible, so the longest runs have that many more steps. */
  lemma {:induction false} WakeBoundIsTight(c: Config) returns (sched: seq<Actor>)
    requires c.spurious
    ensures Execute(c, sched).Some? && Finished(Execute(c, sched).value)
    ensures Wakes(sched) == c.threads && |sched| == RunLength(c) + c.threads
  {
    sched := AllWakesSpurious(c, c.threads);
    sched := Completed(c, sched);
    EveryRunEnds(c, sched);
  }

  /** Every run hands every thread its own number. */
  ghost predicate ArgumentsAlwaysRight(c: Config)
  {
    forall sched :: Execute(c, sched).Some? ==> ArgumentsRight(Execute(c, sched).value)
  }

  /** One spurious wake-up before thread 0 has read its argument makes it read 1. */
  lemma SpuriousWakeUpBreaksArgument(c: Config) returns (sched: seq<Actor>)
    requires c.spurious && c.threads > 0
    ensures Execute(c, sched).Some?
    ensures HasRead(Execute(c, sched).value.threads[0]) && Execute(c, sched).value.threads[0].index == 1
  {
    sched := AllWakesSpurious(c, 1);
    sched := After(c, sched, Worker(0));
  }

  /** Passing `&loop` is safe exactly when pthread_cond_wait never returns without a signal
      (or when there is no thread at all). */
  lemma ArgumentPassingIsExact(c: Config)
    ensures ArgumentsAlwaysRight(c) <==> !c.spurious || c.threads == 0
  {
    if !c.spurious {
      forall sched | Execute(c, sched).Some? ensures ArgumentsRight(Execute(c, sched).value) {
        InvariantHolds(c, sched);
        var s := Execute(c, sched).value;
        forall j | 0 <= j < c.threads ensures HasRead(s.threads[j]) ==> s.threads[j].index == j {
          assert ThreadQuiet(c, s, j);
        }
      }
    } else if c.threads > 0 {
      var sched := SpuriousWakeUpBreaksArgument(c);
      assert !ArgumentsRight(Execute(c, sched).value);
    }
  }

  // ---------------------------------------------------------------- the program in place

  /** main and its threads, with the shared variables updated in place. */
  class Process {
    const config: Config
    const threads: array<Thread>
    var m1: Owner
    var m2: Owner
    var main: MainPc
    var loop: nat
    var out: seq<Line>

    function Snapshot(): State
      reads this, threads
    {
      State(m1, m2, main, loop, threads[..], out)
    }

    constructor (config: Config)
      ensures this.config == config && fresh(threads) && Snapshot() == Init(config)
    {
      this.config := config;
      threads := new Thread[config.threads](_ => Thread(TUnborn, -1, 0, NoCell));
      m1, m2, main, loop, out := Nobody, Nobody, MLockGate, 0, [];
    }

    /** One step of main. */
    method StepMain()
      requires WellFormed(config, Snapshot()) && Enabled(config, Snapshot(), Main)
      modifies this, threads
      ensures Snapshot() == Step(config, old(Snapshot()), Main)
    {
      match main
      case MLockGate => m2 := ByMain; main := MLockStart;
      case MLockStart => m1 := ByMain; main := MInit;
      case MInit => loop := 0; main := MTest;
      case MTest =>
        if loop < config.threads {
          main := MCreate;
        } else {
          main := MUnlockStart;
        }
      case MCreate => threads[loop] := threads[loop].(pc := TReadArg); main := MWait;
      case MWait => m1 := Nobody; main := MWaiting;
      case MWoken => m1 := ByMain; main := MNext;
      case MNext => loop := loop + 1; main := MTest;
      case MUnlockStart => m1 := Nobody; main := MUnlockGate;
      case MUnlockGate => m2 := Nobody; main := MJoinInit;
      case MJoinInit => loop := 0; main := MJoin;
      case MJoin =>
        if loop < config.threads {
          loop := loop + 1;
        } else {
          loop := 0;
          main := MPrint;
        }
      case MPrint =>
        if loop < config.threads {
          loop := loop + 1;
        } else {
          loop := 0;
          main := MFree;
        }
      case MFree =>
        if loop < config.threads {
          threads[loop] := threads[loop].(cell := Freed);
          loop := loop + 1;
        } else {
          main := MDone;
        }
    }

    /** One step of thread `i`. */
    method StepWorker(i: nat)
      requires WellFormed(config, Snapshot()) && Enabled(config, Snapshot(), Worker(i))
      modifies this, threads
      ensures Snapshot() == Step(config, old(Snapshot()), Worker(i))
    {
      var t := threads[i];
      match t.pc
      case TReadArg => threads[i] := t.(index := loop, cell := Allocated, pc := TLockStart);
      case TLockStart => m1 := ByThread(i); threads[i] := t.(pc := TSignal);
      case TSignal =>
        if main == MWaiting {
          main := MWoken;
        }
        threads[i] := t.(pc := TUnlockStart);
      case TUnlockStart => m1 := Nobody; threads[i] := t.(pc := TLockGate);
      case TLockGate => m2 := ByThread(i); threads[i] := t.(pc := TUnlockGate);
      case TUnlockGate => m2 := Nobody; threads[i] := t.(pc := TCount);
      case TCount =>
        if t.count < config.loops {
          var count := t.count + 1;
          if count % 1000 == 0 {
            out := out + [Line(t.index, count / 1000)];
          }
          threads[i] := t.(count := count);
        } else {
          threads[i] := t.(pc := TFinish);
        }
      case TFinish => threads[i] := t.(cell := Filled, pc := TExited);
    }

    /** pthread_cond_wait returns without a signal. */
    method StepSpurious()
      requires WellFormed(config, Snapshot()) && Enabled(config, Snapshot(), Spurious)
      modifies `main
      ensures Snapshot() == Step(config, old(Snapshot()), Spurious)
    {
      main := MWoken;
    }

    /** The whole program: as long as main is not done, anything that can happen happens. However
        the choices fall, it ends after the fixed number of steps and one for each spurious wake-up,
        of which there are at most as many as threads. */
    method Run() returns (steps: nat, wakes: nat)
      requires Snapshot() == Init(config)
      modifies this, threads
      ensures steps == RunLength(config) + wakes && wakes <= (if config.spurious then config.threads else 0)
      ensures Complete(config, Snapshot())
    {
      steps, wakes := 0, 0;
      ghost var sched: seq<Actor> := [];
      while !main.MDone?
        invariant |sched| == steps && Wakes(sched) == wakes && Execute(config, sched) == Some(Snapshot())
        decreases RunLength(config) + config.threads - steps
      {
        SomeoneCanMove(config, sched);
        WakesAreBounded(config, sched);
        var who: nat :| who <= config.threads + 1 && Enabled(config, Snapshot(), ActorOf(config, who));
        sched := After(config, sched, ActorOf(config, who));
        if who < config.threads {
          StepWorker(who);
        } else if who == config.threads {
          StepMain();
        } else {
          StepSpurious();
          wakes := wakes + 1;
        }
        steps := steps + 1;
      }
      EveryRunEnds(config, sched);
      FinishedIsComplete(config, sched);
    }
  }
}
