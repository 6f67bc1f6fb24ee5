/** The condition loop of mutex_signal.c: main waits for `condition` in a while loop, one thread
    sets it and signals. pthread_cond_wait may return without a signal at any time. */
module ConditionLoop {
  import opened Basics

  datatype Owner = Nobody | ByMain | ByThread

  datatype MainPc =
    | MLock | MSayLocked | MCreate | MSayCreated | MTest | MWait | MWaiting | MWoken | MSaySignaled
    | MUnlock | MSayUnlocked | MJoin | MDone

  datatype ThreadPc =
    | TUnborn | TLock | TSayLocked | TSet | TSignal | TSaySignal | TUnlock | TSayUnlocked | TExited

  datatype Line =
    | MainLocked | MainCreated | MainSignaled | MainUnlocked
    | ThreadLocked | ThreadSignal | ThreadUnlocked

  /** `wakes` counts the wake-ups without a signal. */
  datatype State = State(
    lock: Owner, condition: bool, main: MainPc, thread: ThreadPc, log: seq<Line>, wakes: nat)

  datatype Actor = Main | Thread | Spurious

  const START := State(Nobody, false, MLock, TUnborn, [], 0)

  predicate Enabled(s: State, a: Actor)
  {
    match a
    case Main =>
      (match s.main
       case MLock | MWoken => s.lock.Nobody?
       case MWaiting => false
       case MJoin => s.thread.TExited?
       case MDone => false
       case _ => true)
    case Thread =>
      (match s.thread
       case TLock => s.lock.Nobody?
       case TUnborn | TExited => false
       case _ => true)
    case Spurious => s.main.MWaiting?
  }

  function Step(s: State, a: Actor): State
    requires Enabled(s, a)
  {
    match a
    case Main =>
      (match s.main
       case MLock => s.(lock := ByMain, main := MSayLocked)
       case MSayLocked => s.(log := s.log + [MainLocked], main := MCreate)
       case MCreate => s.(thread := TLock, main := MSayCreated)
       case MSayCreated => s.(log := s.log + [MainCreated], main := MTest)
       case MTest => s.(main := if !s.condition then MWait else MUnlock)
       case MWait => s.(lock := Nobody, main := MWaiting)
       case MWoken => s.(lock := ByMain, main := MSaySignaled)
       case MSaySignaled => s.(log := s.log + [MainSignaled], main := MTest)
       case MUnlock => s.(lock := Nobody, main := MSayUnlocked)
       case MSayUnlocked => s.(log := s.log + [MainUnlocked], main := MJoin)
       case MJoin => s.(main := MDone))
    case Thread =>
      (match s.thread
       case TLock => s.(lock := ByThread, thread := TSayLocked)
       case TSayLocked => s.(log := s.log + [ThreadLocked], thread := TSet)
       case TSet => s.(condition := true, thread := TSignal)
       case TSignal => s.(main := if s.main.MWaiting? then MWoken else s.main, thread := TSaySignal)
       case TSaySignal => s.(log := s.log + [ThreadSignal], thread := TUnlock)
       case TUnlock => s.(lock := Nobody, thread := TSayUnlocked)
       case TSayUnlocked => s.(log := s.log + [ThreadUnlocked], thread := TExited))
    case Spurious => s.(main := MWoken, wakes := s.wakes + 1)
  }

  function Execute(sched: seq<Actor>): Option<State>
  {
    if sched == [] then Some(START)
    else
      match Execute(sched[..|sched| - 1])
      case None => None
      case Some(s) =>
        var a := sched[|sched| - 1];
        if Enabled(s, a) then Some(Step(s, a)) else None
  }

  // ---------------------------------------------------------------- the invariant

  predicate ThreadInside(pc: ThreadPc)
  {
    pc in {TSayLocked, TSet, TSignal, TSaySignal, TUnlock}
  }

  /** Main before it has created the thread. */
  predicate Early(pc: MainPc)
  {
    pc in {MLock, MSayLocked, MCreate}
  }

  /** Who holds the lock, and how far the thread can be at every point of main. */
  predicate Invariant(s: State)
  {
    && (s.lock.ByMain? <==> s.main in {MSayLocked, MCreate, MSayCreated, MTest, MWait, MSaySignaled, MUnlock})
    && (s.lock.ByThread? <==> ThreadInside(s.thread))
    && (s.thread.TUnborn? <==> Early(s.main))
    && (s.main in {MSayCreated, MWait} ==> s.thread.TLock?)
    && (s.main in {MUnlock, MSayUnlocked, MJoin, MDone} ==> s.thread in {TSayUnlocked, TExited})
    && (s.main.MDone? ==> s.thread.TExited?)
    && (s.condition <==> s.thread in {TSignal, TSaySignal, TUnlock, TSayUnlocked, TExited})
    && (s.main.MWaiting? ==> s.thread in {TLock, TSayLocked, TSet, TSignal})
  }

  lemma {:induction false} InvariantHolds(sched: seq<Actor>)
    requires Execute(sched).Some?
    ensures Invariant(Execute(sched).value)
  {
    if sched != [] {
      InvariantHolds(sched[..|sched| - 1]);
    }
  }

  /** Main leaves its wait loop only with the lock held and the condition set. */
  lemma LoopExit(sched: seq<Actor>)
    requires Execute(sched).Some? && Execute(sched).value.main.MUnlock?
    ensures Execute(sched).value.condition && Execute(sched).value.lock.ByMain?
  {
    InvariantHolds(sched);
  }

  /** The wake-up is never lost: once the thread is past its signal, main is not waiting. */
  lemma WakeUpNotLost(sched: seq<Actor>)
    requires Execute(sched).Some?
    ensures var s := Execute(sched).value;
      s.thread in {TSaySignal, TUnlock, TSayUnlocked, TExited} ==> !s.main.MWaiting?
  {
    InvariantHolds(sched);
  }

  /** Main is between locking and unlocking. */
  predicate MainInside(pc: MainPc)
  {
    pc in {MSayLocked, MCreate, MSayCreated, MTest, MWait, MSaySignaled, MUnlock}
  }

  /** Who can move, told from the two program counters alone. */
  predicate CanMove(s: State, a: Actor)
  {
    match a
    case Main =>
      && s.main !in {MWaiting, MDone}
      && (s.main.MWoken? ==> !ThreadInside(s.thread))
      && (s.main.MJoin? ==> s.thread.TExited?)
    case Thread =>
      s.thread !in {TUnborn, TExited} && (s.thread.TLock? ==> !MainInside(s.main))
    case Spurious => s.main.MWaiting?
  }

  /** In every run main and the thread can move exactly if the code has nothing to wait for there,
      and the wait can end without a signal whatever the thread is doing. */
  lemma MovesAreExact(sched: seq<Actor>, a: Actor)
    requires Execute(sched).Some?
    ensures Enabled(Execute(sched).value, a) <==> CanMove(Execute(sched).value, a)
  {
    InvariantHolds(sched);
  }

  /** `wakes` is what it says. */
  function SpuriousSteps(sched: seq<Actor>): nat
  {
    if sched == [] then 0
    else SpuriousSteps(sched[..|sched| - 1]) + if sched[|sched| - 1].Spurious? then 1 else 0
  }

  lemma {:induction false} WakesAreCounted(sched: seq<Actor>)
    requires Execute(sched).Some?
    ensures Execute(sched).value.wakes == SpuriousSteps(sched)
  {
    if sched != [] {
      WakesAreCounted(sched[..|sched| - 1]);
    }
  }

  // ---------------------------------------------------------------- the log

  function Signaled(n: nat): (r: seq<Line>)
    ensures |r| == n
  {
    seq(n, _ => MainSignaled)
  }

  /** "main > ..." lines after the thread has unlocked. */
  function MainTail(pc: MainPc): seq<Line>
  {
    match pc
    case MTest | MUnlock | MSayUnlocked => [MainSignaled]
    case MJoin | MDone => [MainSignaled, MainUnlocked]
    case _ => []
  }

  /** Main's own lines, with "thread > unlocked" put in at position `k`. */
  function Insert(lines: seq<Line>, k: nat): seq<Line>
    requires k <= |lines|
  {
    lines[..k] + [ThreadUnlocked] + lines[k..]
  }

  /** The lines up to "main > created", and `n` wake-ups that came too early. */
  function Opening(n: nat): seq<Line>
  {
    [MainLocked, MainCreated] + Signaled(n)
  }

  /** The log in every state: `n` lines "main > signaled" before "thread > locked", and
      "thread > unlocked" at position `k` among main's last lines. */
  predicate LogIs(s: State, n: nat, k: nat)
  {
    match s.thread
    case TUnborn => n == 0 && s.log == (if s.main.MCreate? then [MainLocked] else [])
    case TLock | TSayLocked =>
      if s.main.MSayCreated? then n == 0 && s.log == [MainLocked] else s.log == Opening(n)
    case TSet | TSignal | TSaySignal => s.log == Opening(n) + [ThreadLocked]
    case TUnlock => s.log == Opening(n) + [ThreadLocked, ThreadSignal]
    case TSayUnlocked => s.log == Opening(n) + [ThreadLocked, ThreadSignal] + MainTail(s.main)
    case TExited =>
      k <= |MainTail(s.main)| &&
      s.log == Opening(n) + [ThreadLocked, ThreadSignal] + Insert(MainTail(s.main), k)
  }

  /** Every line main prints too early stands for one wake-up without a signal, and at most one
      more such wake-up stays invisible. */
  predicate WakesAre(s: State, n: nat)
  {
    if s.thread in {TSaySignal, TUnlock, TSayUnlocked, TExited} then n <= s.wakes <= n + 1
    else if s.main in {MWoken, MSaySignaled} then s.wakes == n + 1
    else s.wakes == n
  }

  lemma LogThreadStep(s: State, n: nat, k: nat) returns (k': nat)
    requires Invariant(s) && Enabled(s, Thread) && LogIs(s, n, k) && WakesAre(s, n)
    ensures LogIs(Step(s, Thread), n, k') && WakesAre(Step(s, Thread), n)
  {
    k' := |MainTail(s.main)|;
    var tail := MainTail(s.main);
    assert Insert(tail, k') == tail + [ThreadUnlocked];
    assert Opening(n) + [ThreadLocked, ThreadSignal] + tail + [ThreadUnlocked] ==
           Opening(n) + [ThreadLocked, ThreadSignal] + (tail + [ThreadUnlocked]);
  }

  /** Main prints one of its last lines. */
  lemma TailGrows(n: nat, tail: seq<Line>, line: Line, k: nat)
    requires k <= |tail|
    ensures var start := Opening(n) + [ThreadLocked, ThreadSignal];
      && start + tail + [line] == start + (tail + [line])
      && start + Insert(tail, k) + [line] == start + Insert(tail + [line], k)
  {
    assert Insert(tail + [line], k) == Insert(tail, k) + [line];
  }

  /** Main says that it was woken: too early, or for the last time. */
  lemma LogSignaled(s: State, n: nat, k: nat) returns (n': nat)
    requires Invariant(s) && s.main.MSaySignaled? && LogIs(s, n, k) && WakesAre(s, n)
    ensures LogIs(Step(s, Main), n', k) && WakesAre(Step(s, Main), n')
  {
    n' := n;
    if s.thread.TLock? {
      n' := n + 1;
      assert Opening(n) + [MainSignaled] == Opening(n + 1);
    } else {
      assert [] + [MainSignaled] == [MainSignaled];
      TailGrows(n, [], MainSignaled, if s.thread.TExited? then k else 0);
    }
  }

  lemma LogUnlocked(s: State, n: nat, k: nat)
    requires Invariant(s) && s.main.MSayUnlocked? && LogIs(s, n, k) && WakesAre(s, n)
    ensures LogIs(Step(s, Main), n, k) && WakesAre(Step(s, Main), n)
  {
    assert [MainSignaled] + [MainUnlocked] == [MainSignaled, MainUnlocked];
    TailGrows(n, [MainSignaled], MainUnlocked, if s.thread.TExited? then k else 0);
  }

  lemma LogMainStep(s: State, n: nat, k: nat) returns (n': nat)
    requires Invariant(s) && Enabled(s, Main) && LogIs(s, n, k) && WakesAre(s, n)
    ensures LogIs(Step(s, Main), n', k) && WakesAre(Step(s, Main), n')
  {
    n' := n;
    if s.main.MSaySignaled? {
      n' := LogSignaled(s, n, k);
    } else if s.main.MSayUnlocked? {
      LogUnlocked(s, n, k);
    } else if s.main.MSayCreated? {
      assert [MainLocked] + [MainCreated] == Opening(0);
    } else if s.main.MSayLocked? {
      assert [] + [MainLocked] == [MainLocked];
    } else {
      assert Step(s, Main).log == s.log;
    }
  }

  lemma {:induction false} LogHolds(sched: seq<Actor>) returns (n: nat, k: nat)
    requires Execute(sched).Some?
    ensures LogIs(Execute(sched).value, n, k) && WakesAre(Execute(sched).value, n)
  {
    if sched == [] {
      n, k := 0, 0;
    } else {
      var before := sched[..|sched| - 1];
      n, k := LogHolds(before);
      InvariantHolds(before);
      match sched[|sched| - 1]
      case Main => n := LogMainStep(Execute(before).value, n, k);
      case Thread => k := LogThreadStep(Execute(before).value, n, k);
      case Spurious =>
    }
  }

  /** The complete logs: "main > signaled" any number of times before "thread > locked", exactly
      once after "thread > signal", and "thread > unlocked" anywhere after "thread > signal". */
  function CompleteLog(n: nat, k: nat): seq<Line>
    requires k <= 2
  {
    Opening(n) + [ThreadLocked, ThreadSignal] + Insert([MainSignaled, MainUnlocked], k)
  }

  // ---------------------------------------------------------------- how long a run is

  /** Steps main and the thread still have to take if no further wake-up comes without a signal. */
  function Left(s: State): nat
  {
    var main :=
      match s.main
      case MLock => 12
      case MSayLocked => 11
      case MCreate => 10
      case MSayCreated => 9
      case MTest => if s.condition then 4 else 8
      case MWait => 7
      case MWaiting => 6
      case MWoken => if s.condition then 6 else 10
      case MSaySignaled => if s.condition then 5 else 9
      case MUnlock => 3
      case MSayUnlocked => 2
      case MJoin => 1
      case MDone => 0;
    var thread :=
      match s.thread
      case TUnborn | TLock => 7
      case TSayLocked => 6
      case TSet => 5
      case TSignal => 4
      case TSaySignal => 3
      case TUnlock => 2
      case TSayUnlocked => 1
      case TExited => 0;
    main + thread
  }

  lemma StepIsProgress(s: State, a: Actor)
    requires Invariant(s) && Enabled(s, a)
    ensures Left(Step(s, a)) <= (if a.Spurious? then Left(s) + 4 else Left(s) - 1)
  {
  }

  /** Every run is bounded by the wake-ups without a signal, and while main is not done, main or
      the thread can move. */
  lemma {:induction false} EveryRunEnds(sched: seq<Actor>)
    requires Execute(sched).Some?
    ensures var s := Execute(sched).value;
      && |sched| + Left(s) <= 19 + 5 * s.wakes
      && (s.main.MDone? || Enabled(s, Main) || Enabled(s, Thread))
  {
    InvariantHolds(sched);
    if sched != [] {
      var before := sched[..|sched| - 1];
      InvariantHolds(before);
      EveryRunEnds(before);
      StepIsProgress(Execute(before).value, sched[|sched| - 1]);
    }
  }

  // ---------------------------------------------------------------- every possible log

  lemma {:induction false} After(sched: seq<Actor>, a: Actor) returns (longer: seq<Actor>)
    requires Execute(sched).Some? && Enabled(Execute(sched).value, a)
    ensures |longer| == |sched| + 1 && Execute(longer) == Some(Step(Execute(sched).value, a))
  {
    longer := sched + [a];
    assert longer[..|longer| - 1] == sched;
  }

  /** Main can be woken for nothing any number of times. */
  lemma {:induction false} WaitingAfter(n: nat) returns (sched: seq<Actor>)
    ensures Execute(sched) == Some(State(Nobody, false, MWaiting, TLock, Opening(n), n))
  {
    if n == 0 {
      sched := [];
      sched := After(sched, Main);
      sched := After(sched, Main);
      sched := After(sched, Main);
      sched := After(sched, Main);
      sched := After(sched, Main);
      sched := After(sched, Main);
      assert [] + [MainLocked] + [MainCreated] == Opening(0);
    } else {
      sched := WaitingAfter(n - 1);
      sched := After(sched, Spurious);
      sched := After(sched, Main);
      sched := After(sched, Main);
      sched := After(sched, Main);
      sched := After(sched, Main);
      assert Opening(n - 1) + [MainSignaled] == Opening(n);
    }
  }

  /** The thread has the lock, and main still waits, or has been woken for nothing once more, but
      finds the lock taken and cannot say anything. */
  lemma LockedAfter(n: nat, hidden: bool) returns (sched: seq<Actor>)
    ensures Execute(sched) == Some(State(
      ByThread, false, if hidden then MWoken else MWaiting, TSayLocked, Opening(n), if hidden then n + 1 else n))
  {
    sched := WaitingAfter(n);
    sched := After(sched, Thread);
    if hidden {
      sched := After(sched, Spurious);
    }
  }

  /** Then the thread signals and unlocks. */
  lemma SignaledAfter(n: nat, hidden: bool) returns (sched: seq<Actor>)
    ensures Execute(sched) == Some(State(
      Nobody, true, MWoken, TSayUnlocked, Opening(n) + [ThreadLocked, ThreadSignal], if hidden then n + 1 else n))
  {
    sched := LockedAfter(n, hidden);
    sched := After(sched, Thread);
    sched := After(sched, Thread);
    sched := After(sched, Thread);
    sched := After(sched, Thread);
    sched := After(sched, Thread);
    assert Opening(n) + [ThreadLocked] + [ThreadSignal] == Opening(n) + [ThreadLocked, ThreadSignal];
  }

  /** Main is back from its last wait; the thread has printed its last line before (k = 0),
      after (k = 1), or not yet (k = 2). */
  lemma BackFromWait(n: nat, k: nat, hidden: bool) returns (sched: seq<Actor>)
    requires k <= 2
    ensures Execute(sched) == Some(State(
      ByMain, true, MTest, if k <= 1 then TExited else TSayUnlocked,
      Opening(n) + [ThreadLocked, ThreadSignal] + (if k <= 1 then Insert([MainSignaled], k) else [MainSignaled]),
      if hidden then n + 1 else n))
  {
    sched := SignaledAfter(n, hidden);
    if k == 0 {
      sched := After(sched, Thread);
    }
    sched := After(sched, Main);
    sched := After(sched, Main);
    if k == 1 {
      sched := After(sched, Thread);
    }
    if k <= 1 {
      assert Execute(sched).value.log ==
        Opening(n) + [ThreadLocked, ThreadSignal] + Insert([MainSignaled], k);
    }
  }

  /** Every complete log is the log of some run, with the wake-ups it shows and with one more. */
  lemma LogIsReached(n: nat, k: nat, hidden: bool) returns (sched: seq<Actor>)
    requires k <= 2
    ensures Execute(sched).Some? && Execute(sched).value.main.MDone?
    ensures Execute(sched).value.log == CompleteLog(n, k)
    ensures Execute(sched).value.wakes == if hidden then n + 1 else n
  {
    sched := BackFromWait(n, k, hidden);
    sched := After(sched, Main);
    sched := After(sched, Main);
    sched := After(sched, Main);
    if k == 2 {
      sched := After(sched, Thread);
    }
    sched := After(sched, Main);
    assert Execute(sched).value.log == CompleteLog(n, k);
  }

  /** Some finished run has this log and this many spurious wake-ups. */
  ghost predicate IsLogOfFinishedRun(log: seq<Line>, wakes: nat)
  {
    exists sched :: Execute(sched).Some? && Execute(sched).value.main.MDone? &&
      Execute(sched).value.log == log && SpuriousSteps(sched) == wakes
  }

  ghost predicate IsCompleteLog(log: seq<Line>, wakes: nat)
  {
    exists n: nat, k: nat :: k <= 2 && log == CompleteLog(n, k) && n <= wakes <= n + 1
  }

  /** The finished runs print exactly the complete logs, no more and no fewer; the spurious wake-ups
      are as many as the log shows, or one more. */
  lemma LogsAreExact(log: seq<Line>, wakes: nat)
    ensures IsLogOfFinishedRun(log, wakes) <==> IsCompleteLog(log, wakes)
  {
    if IsLogOfFinishedRun(log, wakes) {
      var sched :| Execute(sched).Some? && Execute(sched).value.main.MDone? &&
        Execute(sched).value.log == log && SpuriousSteps(sched) == wakes;
      var n, k := LogHolds(sched);
      InvariantHolds(sched);
      WakesAreCounted(sched);
      assert log == CompleteLog(n, k);
    }
    if IsCompleteLog(log, wakes) {
      var n: nat, k: nat :| k <= 2 && log == CompleteLog(n, k) && n <= wakes <= n + 1;
      var sched := LogIsReached(n, k, wakes == n + 1);
      WakesAreCounted(sched);
      assert Execute(sched).Some?;
    }
  }

  /** Without spurious wake-ups only three logs are possible. */
  lemma QuietLogs(sched: seq<Actor>)
    requires Execute(sched).Some? && Execute(sched).value.main.MDone? && Execute(sched).value.wakes == 0
    ensures Execute(sched).value.log in {CompleteLog(0, 0), CompleteLog(0, 1), CompleteLog(0, 2)}
  {
    var n, k := LogHolds(sched);
    InvariantHolds(sched);
    assert n == 0 && Execute(sched).value.log == CompleteLog(0, k);
  }

  // ---------------------------------------------------------------- the program in place

  /** main and its thread, with the shared variables updated in place. */
  class Program {
    var lock: Owner
    var condition: bool
    var main: MainPc
    var thread: ThreadPc
    var log: seq<Line>
    var wakes: nat

    function Snapshot(): State
      reads this
    {
      State(lock, condition, main, thread, log, wakes)
    }

    constructor ()
      ensures Snapshot() == START
    {
      lock, condition, main, thread, log, wakes := Nobody, false, MLock, TUnborn, [], 0;
    }

    method StepMain()
      requires Enabled(Snapshot(), Main)
      modifies this
      ensures Snapshot() == Step(old(Snapshot()), Main)
    {
      match main
      case MLock => lock := ByMain; main := MSayLocked;
      case MSayLocked => log := log + [MainLocked]; main := MCreate;
      case MCreate => thread := TLock; main := MSayCreated;
      case MSayCreated => log := log + [MainCreated]; main := MTest;
      case MTest =>
        if !condition {
          main := MWait;
        } else {
          main := MUnlock;
        }
      case MWait => lock := Nobody; main := MWaiting;
      case MWoken => lock := ByMain; main := MSaySignaled;
      case MSaySignaled => log := log + [MainSignaled]; main := MTest;
      case MUnlock => lock := Nobody; main := MSayUnlocked;
      case MSayUnlocked => log := log + [MainUnlocked]; main := MJoin;
      case MJoin => main := MDone;
    }

    method StepThread()
      requires Enabled(Snapshot(), Thread)
      modifies this
      ensures Snapshot() == Step(old(Snapshot()), Thread)
    {
      match thread
      case TLock => lock := ByThread; thread := TSayLocked;
      case TSayLocked => log := log + [ThreadLocked]; thread := TSet;
      case TSet => condition := true; thread := TSignal;
      case TSignal =>
        if main == MWaiting {
          main := MWoken;
        }
        thread := TSaySignal;
      case TSaySignal => log := log + [ThreadSignal]; thread := TUnlock;
      case TUnlock => lock := Nobody; thread := TSayUnlocked;
      case TSayUnlocked => log := log + [ThreadUnlocked]; thread := TExited;
    }

    /** pthread_cond_wait returns without a signal. */
    method StepSpurious()
      requires Enabled(Snapshot(), Spurious)
      modifies this
      ensures Snapshot() == Step(old(Snapshot()), Spurious)
    {
      main := MWoken;
      wakes := wakes + 1;
    }

    /** The whole program under arbitrary choices, with at most `spurious` wake-ups for nothing. */
    method Run(spurious: nat) returns (steps: nat, ghost n: nat, ghost k: nat)
      requires Snapshot() == START
      modifies this
      ensures main.MDone? && thread.TExited? && lock.Nobody?
      ensures wakes <= spurious && steps <= 19 + 5 * wakes
      ensures k <= 2 && log == CompleteLog(n, k) && n <= wakes <= n + 1
    {
      steps := 0;
      ghost var sched: seq<Actor> := [];
      while !main.MDone?
        invariant |sched| == steps && Execute(sched) == Some(Snapshot()) && wakes <= spurious
        decreases spurious - wakes, Left(Snapshot())
      {
        EveryRunEnds(sched);
        InvariantHolds(sched);
        var a: Actor :| a in {Main, Thread, Spurious} && Enabled(Snapshot(), a) && (a.Spurious? ==> wakes < spurious);
        StepIsProgress(Snapshot(), a);
        sched := After(sched, a);
        match a {
          case Main => StepMain();
          case Thread => StepThread();
          case Spurious => StepSpurious();
        }
        steps := steps + 1;
      }
      EveryRunEnds(sched);
      InvariantHolds(sched);
      n, k := LogHolds(sched);
    }
  }
}
