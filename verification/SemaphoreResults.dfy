/** What every run of the semaphore-guarded counter does, with and without probing. */
module SemaphoreResults {
  import opened Basics
  import opened SemaphoreCounter

  // ---------------------------------------------------------------- how long a run is

  /** Steps of `k` passes through the thread loop. */
  function Passes(c: Config, k: nat): nat
  {
    if c.probing then 8 * k else 6 * k
  }

  /** Steps thread `t` still has to take. */
  function ThreadLeft(c: Config, t: Thread): nat
  {
    var k := if t.loop < c.loops then c.loops - t.loop else 0;
    var later := Passes(c, if k > 0 then k - 1 else 0);
    match t.pc
    case TUnborn | TReadArg => Passes(c, k) + 3
    case TTest => Passes(c, k) + 2
    case TProbe => later + 9
    case TCheck => later + 8
    case TWait => later + 7
    case TRead => later + 6
    case TWrite => later + 5
    case TPrint => later + 4
    case TPost => later + 3
    case TFree => 1
    case TExited => 0
  }

  function LeftOf(c: Config): Thread -> nat
  {
    t => ThreadLeft(c, t)
  }

  /** Steps main still has to take. */
  function MainLeft(c: Config, s: State): nat
    requires WellFormed(c, s)
  {
    var k := c.threads - s.loop;
    match s.main
    case MFor => 3 * k + c.threads + 3
    case MStore => 3 * k + c.threads + 2
    case MSpawn => 3 * k + c.threads + 1
    case MJoin => k + 2
    case MNewline => 1
    case MDone => 0
  }

  ghost function Left(c: Config, s: State): nat
    requires WellFormed(c, s)
  {
    MainLeft(c, s) + Sum(s.threads, LeftOf(c))
  }

  /** The length of every complete run. */
  function RunLength(c: Config): nat
  {
    c.threads * (Passes(c, c.loops) + 7) + 3
  }

  lemma MainStepIsProgress(c: Config, s: State, addr: nat)
    requires Invariant(c, s) && Enabled(c, s, Main(addr))
    ensures Left(c, MainStep(c, s, addr)) == Left(c, s) - 1
  {
    var s' := MainStep(c, s, addr);
    if s.main.MSpawn? {
      assert ThreadOk(c, s, s.loop);
      SumUpdate(s.threads, s.loop, s'.threads[s.loop], LeftOf(c));
    }
  }

  lemma ThreadLeftDrops(c: Config, s: State, i: nat)
    requires WellFormed(c, s) && Enabled(c, s, Worker(i)) && ThreadOk(c, s, i)
    ensures ThreadLeft(c, WorkerStep(c, s, i).threads[i]) == ThreadLeft(c, s.threads[i]) - 1
  {
  }

  lemma WorkerStepIsProgress(c: Config, s: State, i: nat)
    requires Invariant(c, s) && Enabled(c, s, Worker(i))
    ensures Left(c, WorkerStep(c, s, i)) == Left(c, s) - 1
  {
    assert ThreadOk(c, s, i);
    ThreadLeftDrops(c, s, i);
    SumUpdate(s.threads, i, WorkerStep(c, s, i).threads[i], LeftOf(c));
  }

  lemma StartLeft(c: Config)
    ensures Left(c, Init(c)) == RunLength(c)
  {
    var p := Passes(c, c.loops);
    SumConstant(Init(c).threads, p + 3, LeftOf(c));
    assert c.threads * (p + 7) == c.threads * (p + 3) + 4 * c.threads;
  }

  lemma {:induction false} StepsTaken(c: Config, sched: seq<Actor>)
    requires Execute(c, sched).Some?
    ensures |sched| + Left(c, Execute(c, sched).value) == RunLength(c)
  {
    if sched == [] {
      StartLeft(c);
    } else {
      var before := sched[..|sched| - 1];
      StepsTaken(c, before);
      InvariantHolds(c, before);
      match sched[|sched| - 1]
      case Main(addr) => MainStepIsProgress(c, Execute(c, before).value, addr);
      case Worker(i) => WorkerStepIsProgress(c, Execute(c, before).value, i);
    }
  }

  /** A finite heap never runs out of addresses. */
  lemma {:induction false} AddressesBounded(addresses: set<nat>) returns (bound: nat)
    ensures forall a :: a in addresses ==> a < bound
  {
    if addresses == {} {
      bound := 0;
    } else {
      var a :| a in addresses;
      var others := AddressesBounded(addresses - {a});
      bound := if a < others then others else a + 1;
      forall x | x in addresses ensures x < bound {
        assert x == a || x in addresses - {a};
      }
    }
  }

  predicate Finished(s: State)
  {
    s.main.MDone?
  }

  /** No reachable state is stuck: main can move, or some thread can. */
  lemma {:induction false} NeverStuck(c: Config, s: State) returns (a: Actor)
    requires Invariant(c, s) && !Finished(s)
    ensures Enabled(c, s, a)
  {
    var addr := AddressesBounded(s.heap.Keys);
    a := Main(addr);
    if !Enabled(c, s, a) {
      assert ThreadOk(c, s, s.loop);
      a := Worker(s.loop);
      if !Enabled(c, s, a) {
        var i := SumPositive(s.threads, InsideCount);
        a := Worker(i);
      }
    }
  }

  /** Every run is at most RunLength steps, can be continued until main is done, and is then
      exactly RunLength steps long. */
  lemma EveryRunEnds(c: Config, sched: seq<Actor>)
    requires Execute(c, sched).Some?
    ensures var s := Execute(c, sched).value;
      && |sched| <= RunLength(c)
      && (Finished(s) <==> |sched| == RunLength(c))
      && (!Finished(s) ==> exists a :: Enabled(c, s, a))
  {
    StepsTaken(c, sched);
    InvariantHolds(c, sched);
    var s := Execute(c, sched).value;
    if Finished(s) {
      forall i | 0 <= i < c.threads ensures LeftOf(c)(s.threads[i]) == 0 {
        assert ThreadOk(c, s, i);
      }
      SumConstant(s.threads, 0, LeftOf(c));
    } else {
      var a := NeverStuck(c, s);
    }
  }

  // ---------------------------------------------------------------- the main results

  /** At every moment of every run: semaphore value plus threads inside is 1, and the values
      printed so far are 1, 2, 3, ... in that order, never more than threads times loops. */
  lemma {:induction false} CountsInOrder(c: Config, sched: seq<Actor>)
    requires Execute(c, sched).Some?
    ensures var s := Execute(c, sched).value;
      && s.sem + Sum(s.threads, InsideCount) == 1
      && Values(s.out) == Ramp(|Values(s.out)|)
      && |Values(s.out)| <= c.threads * c.loops
      && |Values(s.out)| <= s.cnt <= |Values(s.out)| + 1
  {
    InvariantHolds(c, sched);
    var s := Execute(c, sched).value;
    forall i | 0 <= i < c.threads ensures Printed(s.threads[i]) <= c.loops {
      assert ThreadOk(c, s, i);
    }
    SumAtMost(s.threads, c.loops, Printed);
    SumMonotone(s.threads, Unprinted, InsideCount);
  }

  /** No two threads are ever inside together. */
  lemma MutualExclusion(c: Config, sched: seq<Actor>, i: nat, j: nat)
    requires Execute(c, sched).Some? && i < c.threads && j < c.threads
    requires Inside(Execute(c, sched).value.threads[i]) && Inside(Execute(c, sched).value.threads[j])
    ensures i == j
  {
    InvariantHolds(c, sched);
    OneInside(c, Execute(c, sched).value, i, j);
  }

  /** A thread's argument cell is live, and holds its own number, from its creation until it frees
      the cell; so every free hits a live cell, and no other thread's. */
  lemma {:induction false} ArgumentsAreOwned(c: Config, sched: seq<Actor>, i: nat, j: nat)
    requires Execute(c, sched).Some? && i < c.threads && j < c.threads
    ensures var s := Execute(c, sched).value; var t := s.threads[i];
      && (Live(t) ==> t.arg in s.heap && s.heap[t.arg] == i)
      && (Live(t) && Live(s.threads[j]) && t.arg == s.threads[j].arg ==> i == j)
      && (Live(t) && !t.pc.TReadArg? ==> t.index == i)
      && LinesOf(s.out, i) == Printed(t) <= c.loops
  {
    InvariantHolds(c, sched);
    var s := Execute(c, sched).value;
    assert ThreadOk(c, s, i) && ThreadOk(c, s, j);
  }

  /** What a finished program has done. */
  ghost predicate Complete(c: Config, s: State)
  {
    && s.main.MDone? && s.sem == 1 && s.heap == map[]
    && s.cnt == c.threads * c.loops
    && Values(s.out) == Ramp(c.threads * c.loops)
    && forall i :: 0 <= i < c.threads ==> LinesOf(s.out, i) == c.loops
  }

  /** Every live cell is in main's hands or in those of a thread that is not done. */
  lemma CellHasOwner(c: Config, s: State, a: nat)
    requires Invariant(c, s) && a in s.heap
    ensures s.main in {MStore, MSpawn} || exists i :: 0 <= i < c.threads && Live(s.threads[i])
  {
    assert CellOk(c, s, a);
  }

  /** Every finished run has printed exactly 1, 2, ..., threads * loops, every thread exactly
      `loops` of them under its own number, and no cell is left. */
  lemma FinishedIsComplete(c: Config, sched: seq<Actor>)
    requires Execute(c, sched).Some? && Finished(Execute(c, sched).value)
    ensures Complete(c, Execute(c, sched).value)
    ensures |sched| == RunLength(c)
  {
    EveryRunEnds(c, sched);
    InvariantHolds(c, sched);
    var s := Execute(c, sched).value;
    forall i | 0 <= i < c.threads
      ensures s.threads[i].pc.TExited? && s.threads[i].loop == c.loops && LinesOf(s.out, i) == c.loops
    {
      assert ThreadOk(c, s, i);
    }
    SumConstant(s.threads, 0, InsideCount);
    SumConstant(s.threads, 0, Unprinted);
    SumConstant(s.threads, c.loops, Printed);
    if a :| a in s.heap {
      CellHasOwner(c, s, a);
    }
  }

  lemma After(c: Config, sched: seq<Actor>, a: Actor) returns (longer: seq<Actor>)
    requires Execute(c, sched).Some? && Enabled(c, Execute(c, sched).value, a)
    ensures longer == sched + [a] && Execute(c, longer) == Some(Step(c, Execute(c, sched).value, a))
  {
    longer := sched + [a];
    assert longer[..|longer| - 1] == sched;
  }

  /** Actors as numbers: the threads, and main after them. */
  function ActorOf(c: Config, who: nat, addr: nat): Actor
  {
    if who < c.threads then Worker(who) else Main(addr)
  }

  lemma {:induction false} SomeoneCanMove(c: Config, sched: seq<Actor>, addr: nat)
    requires Execute(c, sched).Some? && !Finished(Execute(c, sched).value)
    requires addr !in Execute(c, sched).value.heap
    ensures |sched| < RunLength(c)
    ensures exists who: nat :: who <= c.threads && Enabled(c, Execute(c, sched).value, ActorOf(c, who, addr))
  {
    EveryRunEnds(c, sched);
    InvariantHolds(c, sched);
    var s := Execute(c, sched).value;
    var a := NeverStuck(c, s);
    var who := if a.Worker? then a.i else c.threads;
    assert Enabled(c, s, ActorOf(c, who, addr));
  }

  // ---------------------------------------------------------------- the program in place

  /** main and its threads, with the semaphore, the counter and the heap updated in place. */
  class Process {
    const config: Config
    const threads: array<Thread>
    var sem: nat
    var cnt: int
    var heap: map<nat, int>
    var main: MainPc
    var loop: nat
    var pint: nat
    var out: seq<Line>

    function Snapshot(): State
      reads this, threads
    {
      State(sem, cnt, heap, main, loop, pint, threads[..], out)
    }

    constructor (config: Config)
      ensures this.config == config && fresh(threads) && Snapshot() == Init(config)
    {
      this.config := config;
      threads := new Thread[config.threads](_ => Thread(TUnborn, 0, -1, 0, 0, 0));
      sem, cnt, heap, main, loop, pint, out := 1, 0, map[], MFor, 0, 0, [];
    }

    /** malloc: some address that is not live. */
    method FreshAddress() returns (addr: nat)
      ensures addr !in heap
    {
      addr := 0;
      ghost var below: set<nat> := {};
      while addr in heap
        invariant below <= heap.Keys && (forall a: nat :: a in below <==> a < addr)
        decreases heap.Keys - below
      {
        below := below + {addr};
        addr := addr + 1;
      }
    }

    /** One step of main. */
    method StepMain(addr: nat)
      requires WellFormed(config, Snapshot()) && Enabled(config, Snapshot(), Main(addr))
      modifies this, threads
      ensures Snapshot() == Step(config, old(Snapshot()), Main(addr))
    {
      match main
      case MFor =>
        if loop < config.threads {
          heap := heap[addr := -1];
          pint := addr;
          main := MStore;
        } else {
          loop := 0;
          main := MJoin;
        }
      case MStore => heap := heap[pint := loop]; main := MSpawn;
      case MSpawn =>
        threads[loop] := threads[loop].(arg := pint, pc := TReadArg);
        loop := loop + 1;
        main := MFor;
      case MJoin =>
        if loop < config.threads {
          loop := loop + 1;
        } else {
          main := MNewline;
        }
      case MNewline => main := MDone;
    }

    /** One step of testFunc in thread `i`. */
    method StepWorker(i: nat)
      requires WellFormed(config, Snapshot()) && Enabled(config, Snapshot(), Worker(i))
      modifies this, threads
      ensures Snapshot() == Step(config, old(Snapshot()), Worker(i))
    {
      var t := threads[i];
      match t.pc
      case TReadArg => threads[i] := t.(index := if t.arg in heap then heap[t.arg] else -1, pc := TTest);
      case TTest =>
        if t.loop < config.loops {
          threads[i] := t.(pc := if config.probing then TProbe else TWait);
        } else {
          threads[i] := t.(pc := TFree);
        }
      case TProbe => threads[i] := t.(semval := sem, pc := TCheck);
      case TCheck =>
        if t.semval == 0 {
          out := out + [Blocked];
        }
        threads[i] := t.(pc := TWait);
      case TWait => sem := sem - 1; threads[i] := t.(pc := TRead);
      case TRead => threads[i] := t.(tmp := cnt, pc := TWrite);
      case TWrite => cnt := t.tmp + 1; threads[i] := t.(pc := TPrint);
      case TPrint => out := out + [Count(t.index, cnt)]; threads[i] := t.(pc := TPost);
      case TPost => sem := sem + 1; threads[i] := t.(loop := t.loop + 1, pc := TTest);
      case TFree => heap := heap - {t.arg}; threads[i] := t.(pc := TExited);
    }

    /** The whole program under arbitrary scheduling. */
    method Run() returns (steps: nat)
      requires Snapshot() == Init(config)
      modifies this, threads
      ensures steps == RunLength(config) && Complete(config, Snapshot())
    {
      steps := 0;
      ghost var sched: seq<Actor> := [];
      while !main.MDone?
        invariant |sched| == steps && Execute(config, sched) == Some(Snapshot())
        decreases RunLength(config) - steps
      {
        var addr := FreshAddress();
        SomeoneCanMove(config, sched, addr);
        var who: nat :| who <= config.threads && Enabled(config, Snapshot(), ActorOf(config, who, addr));
        sched := After(config, sched, ActorOf(config, who, addr));
        if who < config.threads {
          StepWorker(who);
        } else {
          StepMain(addr);
        }
        steps := steps + 1;
      }
      FinishedIsComplete(config, sched);
    }
  }
}
