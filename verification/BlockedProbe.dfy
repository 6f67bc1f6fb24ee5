/** The probing variant (semaphore_named_blocked.c) against the plain one (semaphore_named.c):
    it refines it, its "blocked" lines mean what they say, and their greatest number is known. */
module BlockedProbe {
  import opened Basics
  import opened SemaphoreCounter
  import opened SemaphoreResults

  // ---------------------------------------------------------------- refinement

  function Plain(c: Config): Config
  {
    c.(probing := false)
  }

  /** Forget the probe: a thread that is probing is, to the plain program, about to wait. */
  function PlainThread(t: Thread): Thread
  {
    t.(pc := if t.pc in {TProbe, TCheck} then TWait else t.pc, semval := 0)
  }

  function WithoutBlocked(out: seq<Line>): seq<Line>
  {
    if out == [] then []
    else
      var earlier := WithoutBlocked(out[..|out| - 1]);
      if out[|out| - 1].Blocked? then earlier else earlier + [out[|out| - 1]]
  }

  function PlainState(s: State): State
  {
    s.(threads := seq(|s.threads|, i requires 0 <= i < |s.threads| => PlainThread(s.threads[i])),
       out := WithoutBlocked(s.out))
  }

  /** sem_getvalue, or the test of what it returned. */
  predicate IsProbing(s: State, a: Actor)
  {
    a.Worker? && a.i < |s.threads| && s.threads[a.i].pc in {TProbe, TCheck}
  }

  /** The schedule without its probing steps. */
  function Erase(c: Config, sched: seq<Actor>): seq<Actor>
    requires Execute(c, sched).Some?
  {
    if sched == [] then []
    else
      var before := sched[..|sched| - 1];
      var a := sched[|sched| - 1];
      if IsProbing(Execute(c, before).value, a) then Erase(c, before) else Erase(c, before) + [a]
  }

  lemma WithoutBlockedAppend(out: seq<Line>, line: Line)
    ensures WithoutBlocked(out + [line]) ==
      (if line.Blocked? then WithoutBlocked(out) else WithoutBlocked(out) + [line])
  {
    assert (out + [line])[..|out|] == out;
  }

  /** A probing step changes nothing the plain program knows about. */
  lemma ProbingIsInvisible(c: Config, s: State, i: nat)
    requires WellFormed(c, s) && Enabled(c, s, Worker(i)) && IsProbing(s, Worker(i))
    ensures PlainState(WorkerStep(c, s, i)) == PlainState(s)
  {
    WithoutBlockedAppend(s.out, Blocked);
    var s' := WorkerStep(c, s, i);
    assert PlainState(s').threads == PlainState(s).threads;
  }

  lemma MainIsSimulated(c: Config, s: State, addr: nat)
    requires WellFormed(c, s) && Enabled(c, s, Main(addr))
    ensures WellFormed(Plain(c), PlainState(s)) && Enabled(Plain(c), PlainState(s), Main(addr))
    ensures MainStep(Plain(c), PlainState(s), addr) == PlainState(MainStep(c, s, addr))
  {
    assert MainStep(Plain(c), PlainState(s), addr).threads == PlainState(MainStep(c, s, addr)).threads;
  }

  lemma WorkerIsSimulated(c: Config, s: State, i: nat)
    requires WellFormed(c, s) && Enabled(c, s, Worker(i)) && !IsProbing(s, Worker(i))
    ensures WellFormed(Plain(c), PlainState(s)) && Enabled(Plain(c), PlainState(s), Worker(i))
    ensures WorkerStep(Plain(c), PlainState(s), i) == PlainState(WorkerStep(c, s, i))
  {
    if s.threads[i].pc.TPrint? {
      WithoutBlockedAppend(s.out, Count(s.threads[i].index, s.cnt));
    }
    assert WorkerStep(Plain(c), PlainState(s), i).threads == PlainState(WorkerStep(c, s, i)).threads;
  }

  /** Erasing the probing steps of any run gives a run of the plain program, which prints the same
      counts and ends in the same state of semaphore, counter, heap and main. */
  lemma {:induction false} ProbingRefinesPlain(c: Config, sched: seq<Actor>)
    requires Execute(c, sched).Some?
    ensures Execute(Plain(c), Erase(c, sched)) == Some(PlainState(Execute(c, sched).value))
  {
    if sched == [] {
      assert PlainState(Init(c)).threads == Init(Plain(c)).threads;
    } else {
      var before := sched[..|sched| - 1];
      var a := sched[|sched| - 1];
      var s := Execute(c, before).value;
      ProbingRefinesPlain(c, before);
      if IsProbing(s, a) {
        ProbingIsInvisible(c, s, a.i);
      } else {
        var erased := Erase(c, sched);
        assert erased[..|erased| - 1] == Erase(c, before);
        match a
        case Main(addr) => MainIsSimulated(c, s, addr);
        case Worker(i) => WorkerIsSimulated(c, s, i);
      }
    }
  }

  predicate NobodyProbes(s: State)
  {
    forall i :: 0 <= i < |s.threads| ==> s.threads[i].pc !in {TProbe, TCheck}
  }

  lemma EraseAfter(c: Config, sched: seq<Actor>, a: Actor) returns (longer: seq<Actor>)
    requires Execute(c, sched).Some? && Enabled(c, Execute(c, sched).value, a)
    ensures Execute(c, longer) == Some(Step(c, Execute(c, sched).value, a))
    ensures Erase(c, longer) ==
      (if IsProbing(Execute(c, sched).value, a) then Erase(c, sched) else Erase(c, sched) + [a])
  {
    longer := sched + [a];
    assert longer[..|longer| - 1] == sched;
  }

  /** A thread that has just decided to go round again runs its probe and its test at once. */
  lemma FinishProbe(c: Config, sched: seq<Actor>, i: nat) returns (longer: seq<Actor>)
    requires Execute(c, sched).Some? && i < c.threads
    requires var s := Execute(c, sched).value;
      forall j :: 0 <= j < |s.threads| && j != i ==> s.threads[j].pc !in {TProbe, TCheck}
    requires !Execute(c, sched).value.threads[i].pc.TCheck?
    ensures Execute(c, longer).Some? && NobodyProbes(Execute(c, longer).value)
    ensures PlainState(Execute(c, longer).value) == PlainState(Execute(c, sched).value)
    ensures Erase(c, longer) == Erase(c, sched)
  {
    longer := sched;
    if Execute(c, sched).value.threads[i].pc.TProbe? {
      ProbingIsInvisible(c, Execute(c, longer).value, i);
      longer := EraseAfter(c, longer, Worker(i));
      ProbingIsInvisible(c, Execute(c, longer).value, i);
      longer := EraseAfter(c, longer, Worker(i));
    }
  }

  /** A step of the plain program is open to the probing one as well, unless a probe is pending. */
  lemma PlainStepIsOpen(c: Config, s: State, a: Actor)
    requires WellFormed(c, s) && NobodyProbes(s)
    requires WellFormed(Plain(c), PlainState(s)) && Enabled(Plain(c), PlainState(s), a)
    ensures Enabled(c, s, a) && !IsProbing(s, a)
  {
  }

  /** One plain step, followed by the probe it may lead to. */
  lemma PlainStepIsMatched(c: Config, sched: seq<Actor>, a: Actor) returns (longer: seq<Actor>)
    requires Execute(c, sched).Some? && NobodyProbes(Execute(c, sched).value)
    requires var s := PlainState(Execute(c, sched).value); WellFormed(Plain(c), s) && Enabled(Plain(c), s, a)
    ensures Execute(c, longer).Some? && NobodyProbes(Execute(c, longer).value)
    ensures PlainState(Execute(c, longer).value) == Step(Plain(c), PlainState(Execute(c, sched).value), a)
    ensures Erase(c, longer) == Erase(c, sched) + [a]
  {
    var s := Execute(c, sched).value;
    PlainStepIsOpen(c, s, a);
    longer := EraseAfter(c, sched, a);
    match a
    case Main(addr) => MainIsSimulated(c, s, addr);
    case Worker(i) =>
      WorkerIsSimulated(c, s, i);
      longer := FinishProbe(c, longer, i);
  }

  /** Conversely, every run of the plain program is what erasing leaves of some probing run. */
  lemma {:induction false} EveryPlainRunIsAnErasure(c: Config, plain: seq<Actor>) returns (sched: seq<Actor>)
    requires Execute(Plain(c), plain).Some?
    ensures Execute(c, sched).Some? && NobodyProbes(Execute(c, sched).value)
    ensures PlainState(Execute(c, sched).value) == Execute(Plain(c), plain).value
    ensures Erase(c, sched) == plain
  {
    if plain == [] {
      sched := [];
      assert PlainState(Init(c)).threads == Init(Plain(c)).threads;
    } else {
      var before, a := plain[..|plain| - 1], plain[|plain| - 1];
      assert plain == before + [a];
      var matched := EveryPlainRunIsAnErasure(c, before);
      sched := PlainStepIsMatched(c, matched, a);
      assert Erase(c, sched) == before + [a];
    }
  }

  // ---------------------------------------------------------------- what "blocked" means

  /** Thread `i` is about to print "blocked". */
  predicate AboutToSayBlocked(c: Config, s: State, i: nat)
    requires WellFormed(c, s)
  {
    i < c.threads && s.threads[i].pc.TCheck? && s.threads[i].semval == 0
  }

  /** At step `q` thread `i` probed the semaphore, and did nothing since. */
  ghost predicate ProbedAt(c: Config, sched: seq<Actor>, i: nat, q: nat)
    requires i < c.threads
  {
    && q < |sched| && sched[q] == Worker(i)
    && (forall k :: q < k < |sched| ==> sched[k] != Worker(i))
    && Execute(c, sched[..q]).Some?
    && Execute(c, sched[..q]).value.threads[i].pc.TProbe?
  }

  /** A thread gets to its test of semval only by probing. */
  lemma CheckIsReachedByProbing(c: Config, s: State, a: Actor, i: nat)
    requires WellFormed(c, s) && Enabled(c, s, a) && i < c.threads
    requires Step(c, s, a).threads[i].pc.TCheck?
    ensures if a == Worker(i)
      then s.threads[i].pc.TProbe? && Step(c, s, a).threads[i].semval == s.sem
      else Step(c, s, a).threads[i] == s.threads[i]
  {
  }

  lemma {:induction false} CheckFollowsProbe(c: Config, sched: seq<Actor>, i: nat) returns (q: nat)
    requires Execute(c, sched).Some? && i < c.threads
    requires Execute(c, sched).value.threads[i].pc.TCheck?
    ensures ProbedAt(c, sched, i, q)
    ensures Execute(c, sched[..q]).value.sem == Execute(c, sched).value.threads[i].semval
  {
    var n := |sched| - 1;
    var before := sched[..n];
    CheckIsReachedByProbing(c, Execute(c, before).value, sched[n], i);
    q := n;
    if sched[n] != Worker(i) {
      q := CheckFollowsProbe(c, before, i);
      assert before[..q] == sched[..q];
      forall k | q < k < |sched| ensures sched[k] != Worker(i) {
        assert k < n ==> before[k] == sched[k];
      }
    }
  }

  /** Every "blocked" comes from a probe made while some other thread held the semaphore. */
  lemma BlockedMeansHeld(c: Config, sched: seq<Actor>, i: nat) returns (q: nat, j: nat)
    requires Execute(c, sched).Some? && AboutToSayBlocked(c, Execute(c, sched).value, i)
    ensures ProbedAt(c, sched, i, q)
    ensures j < c.threads && j != i && Inside(Execute(c, sched[..q]).value.threads[j])
  {
    q := CheckFollowsProbe(c, sched, i);
    InvariantHolds(c, sched[..q]);
    j := SumPositive(Execute(c, sched[..q]).value.threads, InsideCount);
  }

  function BlockedCount(out: seq<Line>): nat
  {
    if out == [] then 0
    else BlockedCount(out[..|out| - 1]) + (if out[|out| - 1].Blocked? then 1 else 0)
  }

  lemma BlockedAppend(out: seq<Line>, line: Line)
    ensures BlockedCount(out + [line]) == BlockedCount(out) + (if line.Blocked? then 1 else 0)
  {
    assert (out + [line])[..|out|] == out;
  }

  /** A "blocked" that is still to be printed. */
  function Pending(t: Thread): nat
  {
    if t.pc.TCheck? && t.semval == 0 then 1 else 0
  }

  /** How often the thread has probed. */
  function Probes(t: Thread): nat
  {
    if t.pc in {TCheck, TWait} || Inside(t) then t.loop + 1 else t.loop
  }

  /** Every "blocked" is a probe, and the very first probe is not one of them. */
  ghost predicate FewerBlockedThanProbes(s: State)
  {
    BlockedCount(s.out) + Sum(s.threads, Pending) + (if Sum(s.threads, Probes) > 0 then 1 else 0)
      <= Sum(s.threads, Probes)
  }

  lemma MainKeepsProbes(c: Config, s: State, addr: nat)
    requires Invariant(c, s) && Enabled(c, s, Main(addr)) && FewerBlockedThanProbes(s)
    ensures FewerBlockedThanProbes(MainStep(c, s, addr))
  {
    if s.main.MSpawn? {
      assert ThreadOk(c, s, s.loop);
      var t' := MainStep(c, s, addr).threads[s.loop];
      SumUpdate(s.threads, s.loop, t', Pending);
      SumUpdate(s.threads, s.loop, t', Probes);
    }
  }

  /** While the semaphore is taken, somebody has probed. */
  lemma HolderHasProbed(c: Config, s: State)
    requires Invariant(c, s) && s.sem == 0
    ensures Sum(s.threads, Probes) > 0
  {
    var j := SumPositive(s.threads, InsideCount);
    SumAtLeast(s.threads, j, Probes);
  }

  /** A step prints "blocked" exactly if one was pending in the thread that takes it. */
  lemma BlockedCountStep(c: Config, s: State, i: nat)
    requires WellFormed(c, s) && Enabled(c, s, Worker(i))
    ensures BlockedCount(WorkerStep(c, s, i).out) == BlockedCount(s.out) + Pending(s.threads[i])
  {
    var t, out' := s.threads[i], WorkerStep(c, s, i).out;
    if t.pc.TCheck? && t.semval == 0 {
      assert out' == s.out + [Blocked];
      BlockedAppend(s.out, Blocked);
    } else if t.pc.TPrint? {
      assert out' == s.out + [Count(t.index, s.cnt)];
      BlockedAppend(s.out, Count(t.index, s.cnt));
    } else {
      assert out' == s.out;
    }
  }

  /** What one step does to the three counts. */
  lemma WorkerProbeCounts(c: Config, s: State, i: nat)
    requires c.probing && WellFormed(c, s) && Enabled(c, s, Worker(i)) && ThreadOk(c, s, i)
    ensures var s' := WorkerStep(c, s, i); var t := s.threads[i]; var t' := s'.threads[i];
      && BlockedCount(s'.out) + Pending(t') ==
           BlockedCount(s.out) + Pending(t) + (if t.pc.TProbe? && s.sem == 0 then 1 else 0)
      && Probes(t') == Probes(t) + (if t.pc.TProbe? then 1 else 0)
  {
    BlockedCountStep(c, s, i);
  }

  lemma WorkerKeepsProbes(c: Config, s: State, i: nat)
    requires c.probing && Invariant(c, s) && Enabled(c, s, Worker(i)) && FewerBlockedThanProbes(s)
    ensures FewerBlockedThanProbes(WorkerStep(c, s, i))
  {
    var t' := WorkerStep(c, s, i).threads[i];
    assert ThreadOk(c, s, i);
    WorkerProbeCounts(c, s, i);
    SumUpdate(s.threads, i, t', Pending);
    SumUpdate(s.threads, i, t', Probes);
    if s.sem == 0 {
      HolderHasProbed(c, s);
    }
  }

  lemma {:induction false} ProbesCovered(c: Config, sched: seq<Actor>)
    requires c.probing && Execute(c, sched).Some?
    ensures FewerBlockedThanProbes(Execute(c, sched).value)
  {
    if sched == [] {
      SumConstant(Init(c).threads, 0, Pending);
      SumConstant(Init(c).threads, 0, Probes);
    } else {
      var before := sched[..|sched| - 1];
      ProbesCovered(c, before);
      InvariantHolds(c, before);
      match sched[|sched| - 1]
      case Main(addr) => MainKeepsProbes(c, Execute(c, before).value, addr);
      case Worker(i) => WorkerKeepsProbes(c, Execute(c, before).value, i);
    }
  }

  /** The plain program prints no "blocked". */
  lemma {:induction false} PlainIsNeverBlocked(c: Config, sched: seq<Actor>)
    requires !c.probing && Execute(c, sched).Some?
    ensures BlockedCount(Execute(c, sched).value.out) == 0
  {
    if sched != [] {
      var before, a := sched[..|sched| - 1], sched[|sched| - 1];
      var s := Execute(c, before).value;
      PlainIsNeverBlocked(c, before);
      if a.Worker? {
        InvariantHolds(c, before);
        assert ThreadOk(c, s, a.i);
        BlockedCountStep(c, s, a.i);
      }
    }
  }

  /** A single thread is never blocked. */
  lemma {:induction false} AloneIsNeverBlocked(c: Config, sched: seq<Actor>)
    requires c.threads <= 1 && Execute(c, sched).Some?
    ensures BlockedCount(Execute(c, sched).value.out) == 0
  {
    if sched != [] {
      var before, a := sched[..|sched| - 1], sched[|sched| - 1];
      var s := Execute(c, before).value;
      AloneIsNeverBlocked(c, before);
      if a.Worker? {
        BlockedCountStep(c, s, a.i);
        if AboutToSayBlocked(c, s, a.i) {
          var q, j := BlockedMeansHeld(c, before, a.i);
        }
      }
    }
  }

  /** The most often "blocked" can be printed: once for each pass through a thread loop but the
      first, or never if there is nobody to be blocked by. */
  function MostBlocked(c: Config): int
  {
    if c.probing && c.threads >= 2 && c.loops >= 1 then c.threads * c.loops - 1 else 0
  }

  /** No thread probes more often than it goes round. */
  lemma ProbesAreBounded(c: Config, s: State)
    requires Invariant(c, s)
    ensures Sum(s.threads, Probes) <= c.threads * c.loops
  {
    forall i | 0 <= i < c.threads ensures Probes(s.threads[i]) <= c.loops {
      assert ThreadOk(c, s, i);
    }
    SumAtMost(s.threads, c.loops, Probes);
  }

  lemma MostBlockedIs(c: Config)
    requires c.probing && c.threads >= 2
    ensures 0 <= MostBlocked(c) && c.threads * c.loops <= MostBlocked(c) + 1
  {
    if c.loops >= 1 {
      assert c.threads * c.loops == c.threads * (c.loops - 1) + c.threads;
    }
  }

  lemma CoveredIsBounded(c: Config, s: State)
    requires FewerBlockedThanProbes(s)
    requires 0 <= MostBlocked(c) && Sum(s.threads, Probes) <= MostBlocked(c) + 1
    ensures BlockedCount(s.out) <= MostBlocked(c)
  {
  }

  lemma BlockedIsBounded(c: Config, sched: seq<Actor>)
    requires Execute(c, sched).Some?
    ensures BlockedCount(Execute(c, sched).value.out) <= MostBlocked(c)
  {
    if !c.probing {
      PlainIsNeverBlocked(c, sched);
    } else if c.threads <= 1 {
      AloneIsNeverBlocked(c, sched);
    } else {
      var s := Execute(c, sched).value;
      ProbesCovered(c, sched);
      InvariantHolds(c, sched);
      ProbesAreBounded(c, s);
      MostBlockedIs(c);
      CoveredIsBounded(c, s);
    }
  }

  // ---------------------------------------------------------------- the bound is reached

  lemma Moved(c: Config, sched: seq<Actor>, i: nat) returns (longer: seq<Actor>)
    requires Execute(c, sched).Some? && Enabled(c, Execute(c, sched).value, Worker(i))
    ensures var s := Execute(c, sched).value; var s' := WorkerStep(c, s, i);
      Execute(c, longer) == Some(s') && BlockedCount(s'.out) == BlockedCount(s.out) + Pending(s.threads[i])
  {
    BlockedCountStep(c, Execute(c, sched).value, i);
    longer := After(c, sched, Worker(i));
  }

  /** Thread `k` goes round to its sem_wait, and says "blocked" if the semaphore is taken. */
  lemma GoesToWait(c: Config, sched: seq<Actor>, k: nat) returns (longer: seq<Actor>)
    requires c.probing && Execute(c, sched).Some? && k < c.threads
    requires var t := Execute(c, sched).value.threads[k]; t.pc.TTest? && t.loop < c.loops
    ensures Execute(c, longer).Some?
    ensures var s := Execute(c, sched).value; var s' := Execute(c, longer).value;
      && s' == s.(threads := s.threads[k := s.threads[k].(pc := TWait, semval := s.sem)], out := s'.out)
      && BlockedCount(s'.out) == BlockedCount(s.out) + (if s.sem == 0 then 1 else 0)
  {
    longer := Moved(c, sched, k);
    longer := Moved(c, longer, k);
    longer := Moved(c, longer, k);
  }

  /** Thread `h` reads and writes g_cnt. */
  lemma Increments(c: Config, sched: seq<Actor>, h: nat) returns (longer: seq<Actor>)
    requires Execute(c, sched).Some? && h < c.threads && Execute(c, sched).value.threads[h].pc.TRead?
    ensures Execute(c, longer).Some?
    ensures var s := Execute(c, sched).value; var s' := Execute(c, longer).value;
      && s' == s.(cnt := s.cnt + 1, threads := s.threads[h := s.threads[h].(tmp := s.cnt, pc := TPrint)])
  {
    longer := Moved(c, sched, h);
    longer := Moved(c, longer, h);
  }

  /** Thread `h` increments, prints and posts. */
  lemma Leaves(c: Config, sched: seq<Actor>, h: nat) returns (longer: seq<Actor>)
    requires Execute(c, sched).Some? && h < c.threads && Execute(c, sched).value.threads[h].pc.TRead?
    ensures Execute(c, longer).Some?
    ensures var s := Execute(c, sched).value; var s' := Execute(c, longer).value; var t' := s'.threads[h];
      && s'.threads == s.threads[h := t'] && t'.pc.TTest? && t'.loop == s.threads[h].loop + 1
      && s'.sem == s.sem + 1 && BlockedCount(s'.out) == BlockedCount(s.out)
  {
    longer := Increments(c, sched, h);
    longer := Moved(c, longer, h);
    longer := Moved(c, longer, h);
  }

  /** Thread `h` holds the semaphore on its pass number `r`; those before it have made that pass. */
  predicate Turn(c: Config, s: State, r: nat, h: nat)
    requires WellFormed(c, s)
  {
    && h < c.threads && s.sem == 0
    && (forall j :: 0 <= j < c.threads ==> s.threads[j].pc == if j == h then TRead else TTest)
    && (forall j :: 0 <= j < c.threads ==> s.threads[j].loop == if j < h then r + 1 else r)
  }

  /** The next thread probes while `h` holds the semaphore, and then takes it over. */
  lemma PassedOn(c: Config, sched: seq<Actor>, r: nat, h: nat, r': nat, k: nat) returns (longer: seq<Actor>)
    requires c.probing && Execute(c, sched).Some? && Turn(c, Execute(c, sched).value, r, h)
    requires c.threads >= 2 && r' < c.loops
    requires if h + 1 < c.threads then k == h + 1 && r' == r else k == 0 && r' == r + 1
    ensures Execute(c, longer).Some? && Turn(c, Execute(c, longer).value, r', k)
    ensures BlockedCount(Execute(c, longer).value.out) == BlockedCount(Execute(c, sched).value.out) + 1
  {
    longer := GoesToWait(c, sched, k);
    longer := Leaves(c, longer, h);
    longer := Moved(c, longer, k);
  }

  /** Main has created `k` threads, each of which has read its number. */
  predicate Ready(c: Config, s: State, k: nat)
    requires WellFormed(c, s)
  {
    && s.main.MFor? && s.loop == k && s.sem == 1 && s.out == []
    && forall j :: 0 <= j < c.threads ==>
      s.threads[j].loop == 0 && s.threads[j].pc == if j < k then TTest else TUnborn
  }

  lemma {:induction false} AllReady(c: Config, k: nat) returns (sched: seq<Actor>)
    requires k <= c.threads
    ensures Execute(c, sched).Some? && Ready(c, Execute(c, sched).value, k)
  {
    if k == 0 {
      sched := [];
    } else {
      sched := AllReady(c, k - 1);
      var addr := AddressesBounded(Execute(c, sched).value.heap.Keys);
      sched := After(c, sched, Main(addr));
      sched := After(c, sched, Main(addr));
      sched := After(c, sched, Main(addr));
      sched := After(c, sched, Worker(k - 1));
    }
  }

  lemma FirstTurn(c: Config) returns (sched: seq<Actor>)
    requires c.probing && c.threads >= 2 && c.loops > 0
    ensures Execute(c, sched).Some? && Turn(c, Execute(c, sched).value, 0, 0)
    ensures BlockedCount(Execute(c, sched).value.out) == 0
  {
    sched := AllReady(c, c.threads);
    sched := GoesToWait(c, sched, 0);
    sched := Moved(c, sched, 0);
  }

  /** Thread 0 finds the semaphore free; from then on every thread probes while its predecessor in
      the circle holds it. */
  lemma {:induction false} RoundRobin(c: Config, r: nat, h: nat) returns (sched: seq<Actor>)
    requires c.probing && c.threads >= 2 && r < c.loops && h < c.threads
    ensures Execute(c, sched).Some? && Turn(c, Execute(c, sched).value, r, h)
    ensures BlockedCount(Execute(c, sched).value.out) == Rows(c.threads, r) + h
    decreases r, h
  {
    if h > 0 {
      sched := RoundRobin(c, r, h - 1);
      sched := PassedOn(c, sched, r, h - 1, r, h);
    } else if r > 0 {
      sched := RoundRobin(c, r - 1, c.threads - 1);
      sched := PassedOn(c, sched, r - 1, c.threads - 1, r, h);
    } else {
      sched := FirstTurn(c);
    }
  }

  /** Every configuration has a run that prints "blocked" as often as the bound allows. */
  lemma BlockedBoundIsTight(c: Config) returns (sched: seq<Actor>)
    ensures Execute(c, sched).Some? && BlockedCount(Execute(c, sched).value.out) == MostBlocked(c)
  {
    sched := [];
    if c.probing && c.threads >= 2 && c.loops >= 1 {
      sched := RoundRobin(c, c.loops - 1, c.threads - 1);
      RowsAreMultiples(c.threads, c.loops);
    }
  }
}
