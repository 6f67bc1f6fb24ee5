/** The semaphore-guarded counter of semaphore_named.c and semaphore_named_blocked.c: threads
    increment g_cnt (a read and a write) and print it between sem_wait and sem_post. The probing
    variant looks at the semaphore before each sem_wait and may print "blocked". */
module SemaphoreCounter {
  import opened Basics

  datatype Config = Config(threads: nat, loops: nat, probing: bool)

  datatype MainPc = MFor | MStore | MSpawn | MJoin | MNewline | MDone

  datatype ThreadPc =
    | TUnborn | TReadArg | TTest | TProbe | TCheck | TWait | TRead | TWrite | TPrint | TPost
    | TFree | TExited

  /** `arg` is the address handed over, `tmp` the value read for g_cnt++. */
  datatype Thread = Thread(pc: ThreadPc, arg: nat, index: int, loop: nat, tmp: int, semval: nat)

  datatype Line = Count(index: int, value: int) | Blocked

  /** `heap` maps every live address to the int stored there. */
  datatype State = State(
    sem: nat, cnt: int, heap: map<nat, int>, main: MainPc, loop: nat, pint: nat,
    threads: seq<Thread>, out: seq<Line>)

  /** When main calls malloc, `addr` is what it returns: any address that is not live. */
  datatype Actor = Main(addr: nat) | Worker(i: nat)

  function Init(c: Config): State
  {
    State(1, 0, map[], MFor, 0, 0, seq(c.threads, _ => Thread(TUnborn, 0, -1, 0, 0, 0)), [])
  }

  predicate WellFormed(c: Config, s: State)
  {
    && |s.threads| == c.threads
    && s.loop <= c.threads
    && (s.main in {MStore, MSpawn} ==> s.loop < c.threads)
  }

  predicate Enabled(c: Config, s: State, a: Actor)
    requires WellFormed(c, s)
  {
    match a
    case Main(addr) =>
      (match s.main
       case MFor => s.loop < c.threads ==> addr !in s.heap
       case MJoin => s.loop < c.threads ==> s.threads[s.loop].pc.TExited?
       case MDone => false
       case _ => true)
    case Worker(i) =>
      i < c.threads &&
      (match s.threads[i].pc
       case TUnborn | TExited => false
       case TWait => s.sem > 0
       case _ => true)
  }

  function MainStep(c: Config, s: State, addr: nat): State
    requires WellFormed(c, s) && Enabled(c, s, Main(addr))
  {
    match s.main
    case MFor =>
      if s.loop < c.threads
      then s.(heap := s.heap[addr := -1], pint := addr, main := MStore)
      else s.(loop := 0, main := MJoin)
    case MStore => s.(heap := s.heap[s.pint := s.loop], main := MSpawn)
    case MSpawn =>
      s.(threads := s.threads[s.loop := s.threads[s.loop].(arg := s.pint, pc := TReadArg)],
         loop := s.loop + 1, main := MFor)
    case MJoin => if s.loop < c.threads then s.(loop := s.loop + 1) else s.(main := MNewline)
    case MNewline => s.(main := MDone)
  }

  function WorkerStep(c: Config, s: State, i: nat): State
    requires WellFormed(c, s) && Enabled(c, s, Worker(i))
  {
    var t := s.threads[i];
    match t.pc
    case TReadArg =>
      s.(threads := s.threads[i := t.(index := if t.arg in s.heap then s.heap[t.arg] else -1, pc := TTest)])
    case TTest =>
      s.(threads := s.threads[i := t.(pc :=
        if t.loop < c.loops then (if c.probing then TProbe else TWait) else TFree)])
    case TProbe => s.(threads := s.threads[i := t.(semval := s.sem, pc := TCheck)])
    case TCheck =>
      s.(out := if t.semval == 0 then s.out + [Blocked] else s.out,
         threads := s.threads[i := t.(pc := TWait)])
    case TWait => s.(sem := s.sem - 1, threads := s.threads[i := t.(pc := TRead)])
    case TRead => s.(threads := s.threads[i := t.(tmp := s.cnt, pc := TWrite)])
    case TWrite => s.(cnt := t.tmp + 1, threads := s.threads[i := t.(pc := TPrint)])
    case TPrint => s.(out := s.out + [Count(t.index, s.cnt)], threads := s.threads[i := t.(pc := TPost)])
    case TPost => s.(sem := s.sem + 1, threads := s.threads[i := t.(loop := t.loop + 1, pc := TTest)])
    case TFree => s.(heap := s.heap - {t.arg}, threads := s.threads[i := t.(pc := TExited)])
  }

  function Step(c: Config, s: State, a: Actor): (s': State)
    requires WellFormed(c, s) && Enabled(c, s, a)
    ensures WellFormed(c, s')
  {
    match a
    case Main(addr) => MainStep(c, s, addr)
    case Worker(i) => WorkerStep(c, s, i)
  }

  function Execute(c: Config, sched: seq<Actor>): (r: Option<State>)
    ensures r.Some? ==> WellFormed(c, r.value)
  {
    if sched == [] then Some(Init(c))
    else
      match Execute(c, sched[..|sched| - 1])
      case None => None
      case Some(s) =>
        var a := sched[|sched| - 1];
        if Enabled(c, s, a) then Some(Step(c, s, a)) else None
  }

  // ---------------------------------------------------------------- what is counted

  /** Between sem_wait and sem_post. */
  predicate Inside(t: Thread)
  {
    t.pc in {TRead, TWrite, TPrint, TPost}
  }

  function InsideCount(t: Thread): nat
  {
    if Inside(t) then 1 else 0
  }

  /** Incremented, but not printed yet. */
  function Unprinted(t: Thread): nat
  {
    if t.pc.TPrint? then 1 else 0
  }

  /** Lines this thread has printed. */
  function Printed(t: Thread): nat
  {
    if t.pc.TPost? then t.loop + 1 else t.loop
  }

  /** The counter values printed, in order. */
  function Values(out: seq<Line>): seq<int>
  {
    if out == [] then []
    else
      var earlier := Values(out[..|out| - 1]);
      if out[|out| - 1].Count? then earlier + [out[|out| - 1].value] else earlier
  }

  /** How many lines carry number `i`. */
  function LinesOf(out: seq<Line>, i: int): nat
  {
    if out == [] then 0
    else
      var last := out[|out| - 1];
      LinesOf(out[..|out| - 1], i) + (if last.Count? && last.index == i then 1 else 0)
  }

  lemma OutAppend(out: seq<Line>, line: Line, i: int)
    ensures Values(out + [line]) == (if line.Count? then Values(out) + [line.value] else Values(out))
    ensures LinesOf(out + [line], i) == LinesOf(out, i) + (if line.Count? && line.index == i then 1 else 0)
  {
    assert (out + [line])[..|out|] == out;
  }

  // ---------------------------------------------------------------- the invariant

  predicate Creating(pc: MainPc)
  {
    pc in {MFor, MStore, MSpawn}
  }

  /** A thread that has its argument cell and has not freed it. */
  predicate Live(t: Thread)
  {
    !t.pc.TUnborn? && !t.pc.TExited?
  }

  predicate ThreadOk(c: Config, s: State, i: nat)
    requires WellFormed(c, s) && i < c.threads
  {
    var t := s.threads[i];
    && (t.pc.TUnborn? <==> Creating(s.main) && i >= s.loop)
    && (Live(t) ==> t.arg in s.heap && s.heap[t.arg] == i && (s.main in {MStore, MSpawn} ==> t.arg != s.pint))
    && (!t.pc.TUnborn? && !t.pc.TReadArg? ==> t.index == i)
    && (t.pc in {TUnborn, TReadArg} ==> t.loop == 0)
    && (t.pc in {TProbe, TCheck} ==> c.probing)
    && t.loop <= c.loops
    && (t.pc in {TProbe, TCheck, TWait} || Inside(t) ==> t.loop < c.loops)
    && (t.pc in {TFree, TExited} ==> t.loop == c.loops)
    && (t.pc.TWrite? ==> t.tmp == s.cnt)
    && (s.main in {MNewline, MDone} ==> t.pc.TExited?)
    && (s.main.MJoin? && i < s.loop ==> t.pc.TExited?)
    && LinesOf(s.out, i) == Printed(t)
  }

  /** Every live cell belongs to main's hands or to the thread whose number it holds. */
  predicate CellOk(c: Config, s: State, a: nat)
    requires WellFormed(c, s) && a in s.heap
  {
    || (s.main in {MStore, MSpawn} && a == s.pint)
    || (0 <= s.heap[a] < c.threads && Live(s.threads[s.heap[a]]) && s.threads[s.heap[a]].arg == a)
  }

  ghost predicate Invariant(c: Config, s: State)
  {
    && WellFormed(c, s)
    && (forall i :: 0 <= i < c.threads ==> ThreadOk(c, s, i))
    && (forall a :: a in s.heap ==> CellOk(c, s, a))
    && (s.main in {MStore, MSpawn} ==> s.pint in s.heap)
    && (s.main.MSpawn? ==> s.heap[s.pint] == s.loop)
    && s.sem + Sum(s.threads, InsideCount) == 1
    && s.cnt == |Values(s.out)| + Sum(s.threads, Unprinted)
    && Values(s.out) == Ramp(|Values(s.out)|)
    && |Values(s.out)| == Sum(s.threads, Printed)
  }

  /** Only one thread is between sem_wait and sem_post. */
  lemma OneInside(c: Config, s: State, i: nat, j: nat)
    requires Invariant(c, s) && i < c.threads && j < c.threads
    requires Inside(s.threads[i]) && Inside(s.threads[j])
    ensures i == j
  {
    if i < j {
      SumAtLeastTwo(s.threads, i, j, InsideCount);
    } else if j < i {
      SumAtLeastTwo(s.threads, j, i, InsideCount);
    }
  }

  lemma MainKeepsThread(c: Config, s: State, addr: nat, j: nat)
    requires Invariant(c, s) && Enabled(c, s, Main(addr)) && j < c.threads
    ensures ThreadOk(c, MainStep(c, s, addr), j)
  {
    assert ThreadOk(c, s, j);
    if s.main.MJoin? && s.loop < c.threads {
      assert ThreadOk(c, s, s.loop);
    }
  }

  lemma MainKeepsCell(c: Config, s: State, addr: nat, a: nat)
    requires Invariant(c, s) && Enabled(c, s, Main(addr)) && a in MainStep(c, s, addr).heap
    ensures CellOk(c, MainStep(c, s, addr), a)
  {
    if a in s.heap {
      assert CellOk(c, s, a);
    }
    if s.main.MSpawn? {
      assert ThreadOk(c, s, s.loop);
    }
  }

  lemma MainKeepsSums(c: Config, s: State, addr: nat)
    requires Invariant(c, s) && Enabled(c, s, Main(addr))
    ensures var s' := MainStep(c, s, addr);
      && Sum(s'.threads, InsideCount) == Sum(s.threads, InsideCount)
      && Sum(s'.threads, Unprinted) == Sum(s.threads, Unprinted)
      && Sum(s'.threads, Printed) == Sum(s.threads, Printed)
  {
    if s.main.MSpawn? {
      assert ThreadOk(c, s, s.loop);
      var t' := MainStep(c, s, addr).threads[s.loop];
      SumUpdate(s.threads, s.loop, t', InsideCount);
      SumUpdate(s.threads, s.loop, t', Unprinted);
      SumUpdate(s.threads, s.loop, t', Printed);
    }
  }

  lemma InvariantMain(c: Config, s: State, addr: nat)
    requires Invariant(c, s) && Enabled(c, s, Main(addr))
    ensures Invariant(c, MainStep(c, s, addr))
  {
    var s' := MainStep(c, s, addr);
    forall j | 0 <= j < c.threads ensures ThreadOk(c, s', j) {
      MainKeepsThread(c, s, addr, j);
    }
    forall a | a in s'.heap ensures CellOk(c, s', a) {
      MainKeepsCell(c, s, addr, a);
    }
    MainKeepsSums(c, s, addr);
  }

  lemma WorkerKeepsItself(c: Config, s: State, i: nat)
    requires Invariant(c, s) && Enabled(c, s, Worker(i))
    ensures ThreadOk(c, WorkerStep(c, s, i), i)
  {
    assert ThreadOk(c, s, i);
    var t := s.threads[i];
    if t.pc.TPrint? {
      OutAppend(s.out, Count(t.index, s.cnt), i);
    } else if t.pc.TCheck? {
      OutAppend(s.out, Blocked, i);
    }
  }

  /** A thread prints under its own number only. */
  lemma OthersLinesStay(c: Config, s: State, i: nat, j: nat)
    requires WellFormed(c, s) && Enabled(c, s, Worker(i)) && ThreadOk(c, s, i) && j != i
    ensures LinesOf(WorkerStep(c, s, i).out, j) == LinesOf(s.out, j)
  {
    OutAppend(s.out, Count(s.threads[i].index, s.cnt), j);
    OutAppend(s.out, Blocked, j);
  }

  /** What another thread relies on: its own record, its cell, and g_cnt while it is inside. */
  lemma OthersVariablesStay(c: Config, s: State, i: nat, j: nat)
    requires Invariant(c, s) && Enabled(c, s, Worker(i)) && j < c.threads && j != i
    ensures var s' := WorkerStep(c, s, i); var t := s.threads[j];
      && s'.threads[j] == t && s'.main == s.main && s'.loop == s.loop && s'.pint == s.pint
      && (Live(t) ==> t.arg in s'.heap && s'.heap[t.arg] == s.heap[t.arg])
      && (t.pc.TWrite? ==> s'.cnt == s.cnt)
  {
    assert ThreadOk(c, s, i) && ThreadOk(c, s, j);
    if s.threads[i].pc.TWrite? && s.threads[j].pc.TWrite? {
      OneInside(c, s, i, j);
    }
  }

  lemma WorkerKeepsOther(c: Config, s: State, i: nat, j: nat)
    requires Invariant(c, s) && Enabled(c, s, Worker(i)) && j < c.threads && j != i
    ensures ThreadOk(c, WorkerStep(c, s, i), j)
  {
    assert ThreadOk(c, s, i) && ThreadOk(c, s, j);
    OthersLinesStay(c, s, i, j);
    OthersVariablesStay(c, s, i, j);
  }

  lemma WorkerKeepsCell(c: Config, s: State, i: nat, a: nat)
    requires Invariant(c, s) && Enabled(c, s, Worker(i)) && a in WorkerStep(c, s, i).heap
    ensures CellOk(c, WorkerStep(c, s, i), a)
  {
    assert CellOk(c, s, a) && ThreadOk(c, s, i);
  }

  /** Semaphore value plus threads inside stays 1. */
  lemma WorkerKeepsSemaphore(c: Config, s: State, i: nat)
    requires Invariant(c, s) && Enabled(c, s, Worker(i))
    ensures var s' := WorkerStep(c, s, i);
      s'.sem + Sum(s'.threads, InsideCount) == 1
  {
    SumUpdate(s.threads, i, WorkerStep(c, s, i).threads[i], InsideCount);
  }

  /** A thread about to print finds in g_cnt the number of lines printed so far, plus one. */
  lemma PrintsNext(c: Config, s: State, i: nat)
    requires Invariant(c, s) && i < c.threads && s.threads[i].pc.TPrint?
    ensures s.cnt == |Values(s.out)| + 1
  {
    SumMonotone(s.threads, Unprinted, InsideCount);
    SumAtLeast(s.threads, i, Unprinted);
  }

  lemma WorkerKeepsValues(c: Config, s: State, i: nat)
    requires Invariant(c, s) && Enabled(c, s, Worker(i))
    ensures var s' := WorkerStep(c, s, i);
      && |Values(s'.out)| == |Values(s.out)| + (if s.threads[i].pc.TPrint? then 1 else 0)
      && Values(s'.out) == Ramp(|Values(s'.out)|)
  {
    var t := s.threads[i];
    if t.pc.TPrint? {
      PrintsNext(c, s, i);
      OutAppend(s.out, Count(t.index, s.cnt), i);
      RampExtends(|Values(s.out)|);
    } else if t.pc.TCheck? {
      OutAppend(s.out, Blocked, i);
    } else {
      assert WorkerStep(c, s, i).out == s.out;
    }
  }

  lemma WorkerKeepsCounts(c: Config, s: State, i: nat)
    requires Invariant(c, s) && Enabled(c, s, Worker(i))
    ensures var s' := WorkerStep(c, s, i);
      && s'.cnt == |Values(s'.out)| + Sum(s'.threads, Unprinted)
      && |Values(s'.out)| == Sum(s'.threads, Printed)
  {
    var s' := WorkerStep(c, s, i);
    assert ThreadOk(c, s, i);
    WorkerKeepsValues(c, s, i);
    SumUpdate(s.threads, i, s'.threads[i], Unprinted);
    SumUpdate(s.threads, i, s'.threads[i], Printed);
  }

  lemma InvariantWorker(c: Config, s: State, i: nat)
    requires Invariant(c, s) && Enabled(c, s, Worker(i))
    ensures Invariant(c, WorkerStep(c, s, i))
  {
    var s' := WorkerStep(c, s, i);
    forall j | 0 <= j < c.threads ensures ThreadOk(c, s', j) {
      if j == i {
        WorkerKeepsItself(c, s, i);
      } else {
        WorkerKeepsOther(c, s, i, j);
      }
    }
    forall a | a in s'.heap ensures CellOk(c, s', a) {
      WorkerKeepsCell(c, s, i, a);
    }
    assert ThreadOk(c, s, i);
    WorkerKeepsSemaphore(c, s, i);
    WorkerKeepsValues(c, s, i);
    WorkerKeepsCounts(c, s, i);
  }

  lemma {:induction false} InvariantHolds(c: Config, sched: seq<Actor>)
    requires Execute(c, sched).Some?
    ensures Invariant(c, Execute(c, sched).value)
  {
    if sched == [] {
      var s := Init(c);
      SumConstant(s.threads, 0, InsideCount);
      SumConstant(s.threads, 0, Unprinted);
      SumConstant(s.threads, 0, Printed);
    } else {
      var before := sched[..|sched| - 1];
      InvariantHolds(c, before);
      match sched[|sched| - 1]
      case Main(addr) => InvariantMain(c, Execute(c, before).value, addr);
      case Worker(i) => InvariantWorker(c, Execute(c, before).value, i);
    }
  }
}
