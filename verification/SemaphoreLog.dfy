/** The log of the semaphore-guarded counter: who can move when, which step printed a line and what
    stood before it, and which logs are possible at all. */
module SemaphoreLog {
  import opened Basics
  import opened SemaphoreCounter
  import opened SemaphoreResults
  import opened BlockedProbe

  // ---------------------------------------------------------------- who can move

  /** Some thread is between sem_wait and sem_post. */
  ghost predicate SomebodyInside(s: State)
  {
    exists j :: 0 <= j < |s.threads| && Inside(s.threads[j])
  }

  /** Who can move, told without semaphore and heap: malloc may return any address that no thread
      holds, and sem_wait waits only for a thread that is inside. */
  ghost predicate CanMove(c: Config, s: State, a: Actor)
    requires WellFormed(c, s)
  {
    match a
    case Main(addr) =>
      && !s.main.MDone?
      && (s.main.MFor? && s.loop < c.threads ==>
            forall i :: 0 <= i < c.threads && Live(s.threads[i]) ==> s.threads[i].arg != addr)
      && (s.main.MJoin? && s.loop < c.threads ==> s.threads[s.loop].pc.TExited?)
    case Worker(i) =>
      && i < c.threads && s.threads[i].pc !in {TUnborn, TExited}
      && (s.threads[i].pc.TWait? ==> !SomebodyInside(s))
  }

  lemma FreeMeansNobodyInside(c: Config, s: State)
    requires Invariant(c, s)
    ensures s.sem > 0 <==> !SomebodyInside(s)
  {
    if s.sem == 0 {
      var j := SumPositive(s.threads, InsideCount);
    }
    if j :| 0 <= j < |s.threads| && Inside(s.threads[j]) {
      SumAtLeast(s.threads, j, InsideCount);
    }
  }

  /** While main asks for memory, the live addresses are those the threads hold. */
  lemma LiveMeansHeld(c: Config, s: State, addr: nat)
    requires Invariant(c, s) && s.main.MFor?
    ensures addr in s.heap <==> exists i :: 0 <= i < c.threads && Live(s.threads[i]) && s.threads[i].arg == addr
  {
    if addr in s.heap {
      assert CellOk(c, s, addr);
    }
    if i :| 0 <= i < c.threads && Live(s.threads[i]) && s.threads[i].arg == addr {
      assert ThreadOk(c, s, i);
    }
  }

  lemma MainMovesAreExact(c: Config, s: State, addr: nat)
    requires Invariant(c, s)
    ensures Enabled(c, s, Main(addr)) <==> CanMove(c, s, Main(addr))
  {
    if s.main.MFor? {
      LiveMeansHeld(c, s, addr);
    }
  }

  lemma WorkerMovesAreExact(c: Config, s: State, i: nat)
    requires Invariant(c, s)
    ensures Enabled(c, s, Worker(i)) <==> CanMove(c, s, Worker(i))
  {
    FreeMeansNobodyInside(c, s);
  }

  /** In every run an actor can move exactly if the code has nothing to wait for there. */
  lemma MovesAreExact(c: Config, sched: seq<Actor>, a: Actor)
    requires Execute(c, sched).Some?
    ensures Enabled(c, Execute(c, sched).value, a) <==> CanMove(c, Execute(c, sched).value, a)
  {
    InvariantHolds(c, sched);
    match a
    case Main(addr) => MainMovesAreExact(c, Execute(c, sched).value, addr);
    case Worker(i) => WorkerMovesAreExact(c, Execute(c, sched).value, i);
  }

  // ---------------------------------------------------------------- where a line stands

  /** At every moment of every run the log is a beginning of the later log. */
  lemma {:induction false} LogGrows(c: Config, sched: seq<Actor>, k: nat)
    requires Execute(c, sched).Some? && k <= |sched|
    ensures Execute(c, sched[..k]).Some?
    ensures Execute(c, sched[..k]).value.out <= Execute(c, sched).value.out
    decreases |sched|
  {
    if k == |sched| {
      assert sched[..k] == sched;
    } else {
      LogGrows(c, sched[..|sched| - 1], k);
      assert sched[..|sched| - 1][..k] == sched[..k];
    }
  }

  /** Step `a` printed `line`, as the code does at that point. */
  ghost predicate Prints(c: Config, s: State, a: Actor, line: Line)
    requires WellFormed(c, s)
  {
    a.Worker? && a.i < c.threads &&
    match line
    case Blocked => AboutToSayBlocked(c, s, a.i)
    case Count(index, value) => s.threads[a.i].pc.TPrint? && index == a.i && value == |Values(s.out)| + 1
  }

  lemma NewLine(c: Config, s: State, a: Actor)
    requires Invariant(c, s) && Enabled(c, s, a)
    ensures var out' := Step(c, s, a).out;
      out' == s.out || (|out'| == |s.out| + 1 && s.out <= out' && Prints(c, s, a, out'[|s.out|]))
  {
    if a.Worker? {
      assert ThreadOk(c, s, a.i);
      if s.threads[a.i].pc.TPrint? {
        PrintsNext(c, s, a.i);
      }
    }
  }

  /** Line number `b` was printed at step `k`, when the log was what stands before it. */
  ghost predicate PrintedAt(c: Config, sched: seq<Actor>, b: nat, k: nat)
    requires Execute(c, sched).Some? && b < |Execute(c, sched).value.out|
  {
    && k < |sched| && Execute(c, sched[..k]).Some?
    && Execute(c, sched[..k]).value.out == Execute(c, sched).value.out[..b]
    && Prints(c, Execute(c, sched[..k]).value, sched[k], Execute(c, sched).value.out[b])
  }

  /** Every line of every run was printed by one step of a thread, behind all earlier lines: a count
      by a thread inside, as the next number, and a "blocked" by a thread that saw the semaphore 0. */
  lemma {:induction false} LineOrigin(c: Config, sched: seq<Actor>, b: nat) returns (k: nat)
    requires Execute(c, sched).Some? && b < |Execute(c, sched).value.out|
    ensures PrintedAt(c, sched, b, k)
  {
    k := |sched| - 1;
    var before := sched[..k];
    var s := Execute(c, before).value;
    InvariantHolds(c, before);
    NewLine(c, s, sched[k]);
    if b < |s.out| {
      k := LineOrigin(c, before, b);
      assert before[..k] == sched[..k];
      assert s.out[..b] == Execute(c, sched).value.out[..b];
    } else {
      assert s.out == Execute(c, sched).value.out[..b];
    }
  }

  /** Where a "blocked" stands: behind the counts 1, 2, ..., m that were out when its thread tested
      the semaphore, which it had read earlier, while another thread was inside. */
  lemma {:induction false} BlockedStands(c: Config, sched: seq<Actor>, b: nat) returns (k: nat, q: nat, j: nat)
    requires Execute(c, sched).Some? && b < |Execute(c, sched).value.out|
    requires Execute(c, sched).value.out[b].Blocked?
    ensures PrintedAt(c, sched, b, k) && sched[k].Worker? && sched[k].i < c.threads
    ensures var earlier := Execute(c, sched).value.out[..b]; Values(earlier) == Ramp(|Values(earlier)|)
    ensures ProbedAt(c, sched[..k], sched[k].i, q)
    ensures q < k && j < c.threads && j != sched[k].i
    ensures Execute(c, sched[..q]).Some? && Inside(Execute(c, sched[..q]).value.threads[j])
    ensures Execute(c, sched[..q]).value.out <= Execute(c, sched).value.out[..b]
  {
    k := LineOrigin(c, sched, b);
    q, j := BlockedMeansHeld(c, sched[..k], sched[k].i);
    CountsInOrder(c, sched[..k]);
    LogGrows(c, sched[..k], q);
    assert sched[..k][..q] == sched[..q];
  }

  // ---------------------------------------------------------------- which logs are possible

  /** 1, 2, ... printed by the threads of `order` in turn. */
  function Printout(order: seq<nat>): (r: seq<Line>)
    ensures |r| == |order|
  {
    seq(|order|, m requires 0 <= m < |order| => Count(order[m], m + 1))
  }

  /** Every thread comes up as often as it goes round. */
  ghost predicate IsOrder(c: Config, order: seq<nat>)
  {
    && (forall m :: 0 <= m < |order| ==> order[m] < c.threads)
    && (forall i: nat :: i < c.threads ==> multiset(order)[i] == c.loops)
  }

  /** The counts of every run, "blocked" aside, are the printout of some order. */
  ghost predicate CountsFollow(c: Config, s: State, order: seq<nat>)
  {
    && (forall m :: 0 <= m < |order| ==> order[m] < c.threads)
    && WithoutBlocked(s.out) == Printout(order) && Values(s.out) == Ramp(|order|)
    && (forall i: nat :: i < c.threads ==> multiset(order)[i] == LinesOf(s.out, i))
  }

  lemma PrintoutExtends(order: seq<nat>, i: nat)
    ensures Printout(order + [i]) == Printout(order) + [Count(i, |order| + 1)]
    ensures multiset(order + [i]) == multiset(order) + multiset{i}
  {
  }

  lemma CountsFollowStep(c: Config, s: State, a: Actor, order: seq<nat>) returns (order': seq<nat>)
    requires Invariant(c, s) && Enabled(c, s, a) && CountsFollow(c, s, order)
    ensures CountsFollow(c, Step(c, s, a), order')
  {
    order' := order;
    NewLine(c, s, a);
    var out' := Step(c, s, a).out;
    if out' != s.out {
      var line := out'[|s.out|];
      assert out' == s.out + [line];
      WithoutBlockedAppend(s.out, line);
      forall i: int ensures LinesOf(out', i) == LinesOf(s.out, i) + (if line.Count? && line.index == i then 1 else 0) {
        OutAppend(s.out, line, i);
      }
      OutAppend(s.out, line, 0);
      if line.Count? {
        order' := order + [a.i];
        PrintoutExtends(order, a.i);
        RampExtends(|order|);
      }
    }
  }

  lemma {:induction false} CountsHaveAnOrder(c: Config, sched: seq<Actor>) returns (order: seq<nat>)
    requires Execute(c, sched).Some?
    ensures CountsFollow(c, Execute(c, sched).value, order)
  {
    order := [];
    if sched != [] {
      var before := sched[..|sched| - 1];
      order := CountsHaveAnOrder(c, before);
      InvariantHolds(c, before);
      order := CountsFollowStep(c, Execute(c, before).value, sched[|sched| - 1], order);
    }
  }

  /** The semaphore is free, no thread is under way, and the passes of `order` have been made. */
  ghost predicate PassesMade(c: Config, s: State, order: seq<nat>)
    requires WellFormed(c, s)
  {
    && s.sem == 1 && s.cnt == |order| && s.out == Printout(order)
    && forall i: nat :: i < c.threads ==>
      s.threads[i].pc.TTest? && s.threads[i].index == i && s.threads[i].loop == multiset(order)[i]
  }

  /** Thread `i` goes to its sem_wait while the semaphore is free, probing or not. */
  lemma WalksToWait(c: Config, sched: seq<Actor>, i: nat) returns (longer: seq<Actor>)
    requires Execute(c, sched).Some? && i < c.threads && Execute(c, sched).value.sem > 0
    requires var t := Execute(c, sched).value.threads[i]; t.pc.TTest? && t.loop < c.loops
    ensures Execute(c, longer).Some?
    ensures var s := Execute(c, sched).value; var s' := Execute(c, longer).value; var t' := s'.threads[i];
      && s' == s.(threads := s.threads[i := t'])
      && t' == s.threads[i].(pc := TWait, semval := t'.semval)
  {
    longer := After(c, sched, Worker(i));
    if c.probing {
      longer := After(c, longer, Worker(i));
      longer := After(c, longer, Worker(i));
    }
  }

  /** Thread `i` waits, increments, prints and posts. */
  lemma MakesPass(c: Config, sched: seq<Actor>, i: nat) returns (longer: seq<Actor>)
    requires Execute(c, sched).Some? && i < c.threads
    requires var s := Execute(c, sched).value; s.sem == 1 && s.threads[i].pc.TWait? && s.cnt >= 0
    ensures Execute(c, longer).Some?
    ensures var s := Execute(c, sched).value; var s' := Execute(c, longer).value; var t' := s'.threads[i];
      && s' == s.(cnt := s.cnt + 1, out := s.out + [Count(s.threads[i].index, s.cnt + 1)],
                  threads := s.threads[i := t'])
      && t' == s.threads[i].(pc := TTest, loop := s.threads[i].loop + 1, tmp := t'.tmp)
  {
    longer := After(c, sched, Worker(i));
    longer := Increments(c, longer, i);
    longer := After(c, longer, Worker(i));
    longer := After(c, longer, Worker(i));
    assert Execute(c, longer).value.threads ==
      Execute(c, sched).value.threads[i := Execute(c, longer).value.threads[i]];
  }

  lemma NextPass(c: Config, sched: seq<Actor>, order: seq<nat>, i: nat) returns (longer: seq<Actor>)
    requires Execute(c, sched).Some? && PassesMade(c, Execute(c, sched).value, order)
    requires i < c.threads && multiset(order)[i] < c.loops
    ensures Execute(c, longer).Some? && PassesMade(c, Execute(c, longer).value, order + [i])
  {
    longer := WalksToWait(c, sched, i);
    longer := MakesPass(c, longer, i);
    PrintoutExtends(order, i);
  }

  /** All threads are ready, with their own numbers. */
  lemma {:induction false} AllWithNumbers(c: Config) returns (sched: seq<Actor>)
    ensures Execute(c, sched).Some? && PassesMade(c, Execute(c, sched).value, [])
  {
    sched := AllReady(c, c.threads);
    InvariantHolds(c, sched);
    var s := Execute(c, sched).value;
    forall i: nat | i < c.threads ensures s.threads[i].index == i {
      assert ThreadOk(c, s, i);
    }
    SumConstant(s.threads, 0, Unprinted);
  }

  /** Nobody comes up more often than it goes round. */
  ghost predicate FitsOrder(c: Config, order: seq<nat>)
  {
    && (forall m :: 0 <= m < |order| ==> order[m] < c.threads)
    && (forall i: nat :: i < c.threads ==> multiset(order)[i] <= c.loops)
  }

  lemma FitsShorter(c: Config, order: seq<nat>, i: nat)
    requires FitsOrder(c, order + [i])
    ensures i < c.threads && FitsOrder(c, order) && multiset(order)[i] < c.loops
  {
    var longer := order + [i];
    assert longer[|order|] == i && multiset(longer) == multiset(order) + multiset{i};
    forall m | 0 <= m < |order| ensures order[m] < c.threads {
      assert longer[m] == order[m];
    }
    forall x: nat | x < c.threads
      ensures multiset(order)[x] + (if x == i then 1 else 0) <= c.loops
    {
      assert multiset(longer)[x] <= c.loops;
    }
  }

  /** The threads can make their passes in any order. */
  lemma {:induction false} AnyOrderIsMade(c: Config, order: seq<nat>) returns (sched: seq<Actor>)
    requires FitsOrder(c, order)
    ensures Execute(c, sched).Some? && PassesMade(c, Execute(c, sched).value, order)
  {
    if order == [] {
      sched := AllWithNumbers(c);
    } else {
      var n := |order| - 1;
      assert order == order[..n] + [order[n]];
      FitsShorter(c, order[..n], order[n]);
      sched := AnyOrderIsMade(c, order[..n]);
      sched := NextPass(c, sched, order[..n], order[n]);
    }
  }

  /** Every run can be continued until main is done. */
  lemma {:induction false} Completed(c: Config, sched: seq<Actor>) returns (longer: seq<Actor>)
    requires Execute(c, sched).Some?
    ensures sched <= longer && Execute(c, longer).Some? && Finished(Execute(c, longer).value)
    decreases RunLength(c) - |sched|
  {
    longer := sched;
    EveryRunEnds(c, sched);
    if !Finished(Execute(c, sched).value) {
      var a :| Enabled(c, Execute(c, sched).value, a);
      longer := After(c, sched, a);
      longer := Completed(c, longer);
    }
  }

  lemma {:induction false} WithoutBlockedPrefix(out: seq<Line>, longer: seq<Line>)
    requires out <= longer
    ensures WithoutBlocked(out) <= WithoutBlocked(longer)
    decreases |longer|
  {
    if out != longer {
      WithoutBlockedPrefix(out, longer[..|longer| - 1]);
    } else {
      assert out == longer;
    }
  }

  lemma {:induction false} PrintoutHasNoBlocked(order: seq<nat>)
    ensures WithoutBlocked(Printout(order)) == Printout(order)
  {
    if order != [] {
      var n := |order| - 1;
      PrintoutHasNoBlocked(order[..n]);
      assert order == order[..n] + [order[n]];
      PrintoutExtends(order[..n], order[n]);
      WithoutBlockedAppend(Printout(order[..n]), Count(order[n], n + 1));
    }
  }

  /** Some finished run has printed exactly these counts. */
  ghost predicate IsPrintedBySomeRun(c: Config, counts: seq<Line>)
  {
    exists sched :: Execute(c, sched).Some? && Finished(Execute(c, sched).value) &&
      WithoutBlocked(Execute(c, sched).value.out) == counts
  }

  /** A finished run prints an order. */
  lemma FinishedOrder(c: Config, sched: seq<Actor>) returns (order: seq<nat>)
    requires Execute(c, sched).Some? && Finished(Execute(c, sched).value)
    ensures IsOrder(c, order) && WithoutBlocked(Execute(c, sched).value.out) == Printout(order)
    ensures |order| == c.threads * c.loops
  {
    order := CountsHaveAnOrder(c, sched);
    FinishedIsComplete(c, sched);
  }

  /** Every order is printed by a finished run, which says nothing else. */
  lemma OrderIsPrinted(c: Config, order: seq<nat>) returns (sched: seq<Actor>)
    requires IsOrder(c, order)
    ensures Execute(c, sched).Some? && Finished(Execute(c, sched).value)
    ensures WithoutBlocked(Execute(c, sched).value.out) == Printout(order)
  {
    var made := AnyOrderIsMade(c, order);
    AllPassesMade(c, made, order);
    sched := Completed(c, made);
    LogGrows(c, sched, |made|);
    assert sched[..|made|] == made;
    var last := FinishedOrder(c, sched);
    WithoutBlockedPrefix(Printout(order), Execute(c, sched).value.out);
    PrintoutHasNoBlocked(order);
  }

  lemma AllPassesMade(c: Config, sched: seq<Actor>, order: seq<nat>)
    requires IsOrder(c, order) && Execute(c, sched).Some? && PassesMade(c, Execute(c, sched).value, order)
    ensures |order| == c.threads * c.loops
  {
    var s := Execute(c, sched).value;
    InvariantHolds(c, sched);
    SumConstant(s.threads, c.loops, Printed);
    SumConstant(s.threads, 0, Unprinted);
  }

  /** The finished runs print exactly the sequences 1, 2, ..., threads * loops in which every thread
      prints `loops` of the numbers: whichever order the threads come up in, some run has it. */
  lemma CountsAreExact(c: Config, counts: seq<Line>)
    ensures IsPrintedBySomeRun(c, counts) <==> exists order :: IsOrder(c, order) && counts == Printout(order)
  {
    if IsPrintedBySomeRun(c, counts) {
      var sched :| Execute(c, sched).Some? && Finished(Execute(c, sched).value) &&
        WithoutBlocked(Execute(c, sched).value.out) == counts;
      var order := FinishedOrder(c, sched);
    }
    if order :| IsOrder(c, order) && counts == Printout(order) {
      var sched := OrderIsPrinted(c, order);
      assert IsPrintedBySomeRun(c, counts);
    }
  }
}
