/** The switch debouncer of swTask: a three-deep sample history, a warm-up counter, and the
    flag s_bfStart that one debounced press flips. */
module Debounce {

  /** The state of swTask between two samples: hist[0..2] (old..new), pos, and s_bfStart. */
  datatype Switch = Switch(h0: bool, h1: bool, h2: bool, pos: nat, bfStart: bool)

  /** swTask as it starts, with whatever the history array happens to hold. */
  function Fresh(h0: bool, h1: bool, h2: bool): Switch
  {
    Switch(h0, h1, h2, 0, false)
  }

  /** One pass of the polling loop. */
  function Poll(s: Switch, now: bool): Switch
  {
    if s.pos < 3 then
      Switch(s.h1, s.h2, now, s.pos + 1, s.bfStart)
    else
      var flip := !s.h0 && !s.h1 && s.h2 && now;
      Switch(s.h1, s.h2, now, s.pos, if flip then !s.bfStart else s.bfStart)
  }

  /** The state after a whole trace of samples. */
  function PollAll(s: Switch, trace: seq<bool>): Switch
  {
    if trace == [] then s
    else Poll(PollAll(s, trace[..|trace| - 1]), trace[|trace| - 1])
  }

  // ---------------------------------------------------------------- run-length encodings

  datatype Run = Run(level: bool, len: nat)

  function Repeat(level: bool, len: nat): (r: seq<bool>)
  {
    seq(len, _ => level)
  }

  /** The trace an encoding stands for. */
  function Expand(runs: seq<Run>): seq<bool>
  {
    if runs == [] then []
    else
      var last := runs[|runs| - 1];
      Expand(runs[..|runs| - 1]) + Repeat(last.level, last.len)
  }

  /** Runs are non-empty and neighbouring runs have different levels. */
  predicate Alternating(runs: seq<Run>)
  {
    && (forall i :: 0 <= i < |runs| ==> runs[i].len >= 1)
    && (forall i :: 0 < i < |runs| ==> runs[i].level != runs[i - 1].level)
  }

  ghost predicate Encodes(runs: seq<Run>, trace: seq<bool>)
  {
    Alternating(runs) && Expand(runs) == trace
  }

  /** A low run followed by a high run, both at least two samples long. */
  predicate IsPress(low: Run, high: Run)
  {
    !low.level && high.level && low.len >= 2 && high.len >= 2
  }

  /** The number of neighbouring pairs that form a press. */
  function Presses(runs: seq<Run>): nat
  {
    if |runs| < 2 then 0
    else
      Presses(runs[..|runs| - 1]) + (if IsPress(runs[|runs| - 2], runs[|runs| - 1]) then 1 else 0)
  }

  /** The encoding of a trace with one more sample. */
  function Extend(runs: seq<Run>, now: bool): seq<Run>
  {
    if runs != [] && runs[|runs| - 1].level == now
    then runs[|runs| - 1 := Run(now, runs[|runs| - 1].len + 1)]
    else runs + [Run(now, 1)]
  }

  function Encode(trace: seq<bool>): seq<Run>
  {
    if trace == [] then [] else Extend(Encode(trace[..|trace| - 1]), trace[|trace| - 1])
  }

  lemma RepeatOneMore(level: bool, len: nat)
    ensures Repeat(level, len + 1) == Repeat(level, len) + [level]
  {
  }

  /** Extending an encoding extends what it stands for. */
  lemma {:induction false} ExtendExpands(runs: seq<Run>, now: bool)
    requires Alternating(runs)
    ensures Alternating(Extend(runs, now))
    ensures Expand(Extend(runs, now)) == Expand(runs) + [now]
  {
    var longer := Extend(runs, now);
    if runs != [] && runs[|runs| - 1].level == now {
      RepeatOneMore(now, runs[|runs| - 1].len);
      assert longer[..|longer| - 1] == runs[..|runs| - 1];
    } else {
      assert longer[..|longer| - 1] == runs;
      assert Repeat(now, 1) == [now];
    }
  }

  lemma EncodesExtend(runs: seq<Run>, trace: seq<bool>, now: bool)
    requires Encodes(runs, trace)
    ensures Encodes(Extend(runs, now), trace + [now])
  {
    ExtendExpands(runs, now);
  }

  /** Every trace has a run-length encoding. */
  lemma {:induction false} EncodeEncodes(trace: seq<bool>)
    ensures Encodes(Encode(trace), trace)
  {
    if trace != [] {
      var before := trace[..|trace| - 1];
      EncodeEncodes(before);
      EncodesExtend(Encode(before), before, trace[|trace| - 1]);
      assert trace == before + [trace[|trace| - 1]];
    }
  }

  /** The encoding without its last sample. */
  function Shrink(runs: seq<Run>): seq<Run>
    requires runs != []
  {
    var k := |runs| - 1;
    if runs[k].len <= 1 then runs[..k] else runs[k := Run(runs[k].level, runs[k].len - 1)]
  }

  lemma ShrinkExtend(runs: seq<Run>)
    requires runs != [] && Alternating(runs)
    ensures Alternating(Shrink(runs)) && Extend(Shrink(runs), runs[|runs| - 1].level) == runs
  {
  }

  /** ... and only one. */
  lemma {:induction false} EncodingIsUnique(runs: seq<Run>, trace: seq<bool>)
    requires Encodes(runs, trace)
    ensures Encode(trace) == runs
    decreases |trace|
  {
    if runs != [] {
      var last := runs[|runs| - 1].level;
      ShrinkExtend(runs);
      ExtendExpands(Shrink(runs), last);
      assert trace == Expand(Shrink(runs)) + [last];
      assert trace[..|trace| - 1] == Expand(Shrink(runs));
      EncodingIsUnique(Shrink(runs), trace[..|trace| - 1]);
    }
  }

  // ---------------------------------------------------------------- when the flag flips

  /** Sample number `i` of the trace flips s_bfStart. */
  ghost predicate FlipsAt(s: Switch, trace: seq<bool>, i: int)
  {
    0 <= i < |trace| && PollAll(s, trace[..i + 1]).bfStart != PollAll(s, trace[..i]).bfStart
  }

  /** Sample `i` is the fourth of a low, low, high, high window. */
  predicate Window(trace: seq<bool>, i: int)
  {
    3 <= i < |trace| && !trace[i - 3] && !trace[i - 2] && trace[i - 1] && trace[i]
  }

  /** How often the trace flips s_bfStart. */
  ghost function Flips(s: Switch, trace: seq<bool>): nat
  {
    if trace == [] then 0
    else
      Flips(s, trace[..|trace| - 1]) + (if FlipsAt(s, trace, |trace| - 1) then 1 else 0)
  }

  /** After the warm-up the history is exactly the last three samples. */
  lemma {:induction false} HistoryIsLastThree(s: Switch, trace: seq<bool>)
    requires s.pos == 0
    ensures var t := PollAll(s, trace); var n := |trace|;
      && t.pos == (if n < 3 then n else 3)
      && (n >= 1 ==> t.h2 == trace[n - 1])
      && (n >= 2 ==> t.h1 == trace[n - 2])
      && (n >= 3 ==> t.h0 == trace[n - 3])
  {
    if trace != [] {
      HistoryIsLastThree(s, trace[..|trace| - 1]);
    }
  }

  /** The flag flips exactly on the fourth sample of a low, low, high, high window. */
  lemma FlipWindow(s: Switch, trace: seq<bool>, i: nat)
    requires s.pos == 0 && i < |trace|
    ensures FlipsAt(s, trace, i) <==> Window(trace, i)
  {
    var before := trace[..i];
    HistoryIsLastThree(s, before);
    assert trace[..i + 1][..i] == before;
  }

  /** The last run of an encoding is the tail of the trace. */
  lemma LastRun(runs: seq<Run>, trace: seq<bool>)
    requires Encodes(runs, trace) && runs != []
    ensures var last := runs[|runs| - 1]; var rest := |trace| - last.len;
      && 0 <= rest
      && (forall i :: rest <= i < |trace| ==> trace[i] == last.level)
      && Encodes(runs[..|runs| - 1], trace[..rest])
  {
    var last := runs[|runs| - 1];
    assert trace == Expand(runs[..|runs| - 1]) + Repeat(last.level, last.len);
  }

  /** If the last run grows from one sample to two, that completes a press exactly when the
      two samples before the run are low. */
  lemma GrowingRun(runs: seq<Run>, trace: seq<bool>)
    requires Encodes(runs, trace) && runs != [] && runs[|runs| - 1].level
    ensures var n := |trace|; var k := |runs|;
      (runs[k - 1].len == 1 && k >= 2 && !runs[k - 2].level && runs[k - 2].len >= 2)
      <==> (n >= 3 && trace[n - 1] && !trace[n - 2] && !trace[n - 3])
  {
    var n, k := |trace|, |runs|;
    LastRun(runs, trace);
    var rest := n - runs[k - 1].len;
    if runs[k - 1].len == 1 && k >= 2 {
      LastRun(runs[..k - 1], trace[..rest]);
      assert trace[..rest][rest - 1] == trace[rest - 1];
      if runs[k - 2].len >= 2 {
        assert trace[..rest][rest - 2] == trace[rest - 2];
      } else if k >= 3 {
        var rest2 := rest - 1;
        LastRun(runs[..k - 1][..k - 2], trace[..rest][..rest2]);
        assert trace[..rest][..rest2][rest2 - 1] == trace[rest2 - 1];
      }
    }
  }

  /** The next sample completes a press: a low run of two or more is followed by a high run
      that now reaches its second sample. */
  predicate CompletesPress(r: seq<Run>, now: bool)
  {
    |r| >= 2 && now && r[|r| - 1].level && r[|r| - 1].len == 1 && !r[|r| - 2].level && r[|r| - 2].len >= 2
  }

  lemma PressesExtendRuns(r: seq<Run>, now: bool)
    requires Alternating(r)
    ensures Presses(Extend(r, now)) == Presses(r) + (if CompletesPress(r, now) then 1 else 0)
  {
    var longer := Extend(r, now);
    if r != [] && r[|r| - 1].level == now {
      assert longer[..|longer| - 1] == r[..|r| - 1];
    } else {
      assert longer[..|longer| - 1] == r;
    }
  }

  lemma CompletesPressIsWindow(r: seq<Run>, trace: seq<bool>)
    requires trace != [] && Encodes(r, trace[..|trace| - 1])
    ensures CompletesPress(r, trace[|trace| - 1]) <==> Window(trace, |trace| - 1)
  {
    if r != [] {
      LastRun(r, trace[..|trace| - 1]);
      if r[|r| - 1].level {
        GrowingRun(r, trace[..|trace| - 1]);
      }
    }
  }

  /** One more sample adds a press exactly when it completes a low, low, high, high window. */
  lemma {:induction false} PressesExtend(trace: seq<bool>)
    requires trace != []
    ensures Presses(Encode(trace)) ==
      Presses(Encode(trace[..|trace| - 1])) + (if Window(trace, |trace| - 1) then 1 else 0)
  {
    var r := Encode(trace[..|trace| - 1]);
    EncodeEncodes(trace[..|trace| - 1]);
    PressesExtendRuns(r, trace[|trace| - 1]);
    CompletesPressIsWindow(r, trace);
  }

  /** Flips and presses are counted alike, whatever the history held at the start. */
  lemma {:induction false} FlipsArePresses(s: Switch, trace: seq<bool>)
    requires s.pos == 0
    ensures Flips(s, trace) == Presses(Encode(trace))
  {
    if trace != [] {
      FlipsArePresses(s, trace[..|trace| - 1]);
      FlipWindow(s, trace, |trace| - 1);
      PressesExtend(trace);
    }
  }

  lemma {:induction false} FlagIsParityOfFlips(s: Switch, trace: seq<bool>)
    ensures PollAll(s, trace).bfStart == (s.bfStart != (Flips(s, trace) % 2 == 1))
  {
    if trace != [] {
      var n := |trace| - 1;
      FlagIsParityOfFlips(s, trace[..n]);
      assert trace[..n + 1] == trace;
    }
  }

  /** The debouncer computes its run-length specification: s_bfStart is the parity of the
      presses in the run-length encoding of everything sampled so far. The initial history
      appears nowhere in the right-hand side. */
  lemma DebouncerIsRunParity(h0: bool, h1: bool, h2: bool, trace: seq<bool>, runs: seq<Run>)
    requires Encodes(runs, trace)
    ensures PollAll(Fresh(h0, h1, h2), trace).bfStart <==> Presses(runs) % 2 == 1
    ensures Flips(Fresh(h0, h1, h2), trace) == Presses(runs)
  {
    EncodingIsUnique(runs, trace);
    FlipsArePresses(Fresh(h0, h1, h2), trace);
    FlagIsParityOfFlips(Fresh(h0, h1, h2), trace);
  }

  // ---------------------------------------------------------------- spacing of flips

  /** Two flips are at least four samples apart, and two consecutive low samples lie between. */
  lemma FlipSpacing(s: Switch, trace: seq<bool>, i: nat, j: nat)
    requires s.pos == 0 && i < j && FlipsAt(s, trace, i) && FlipsAt(s, trace, j)
    ensures j - i >= 4
    ensures i < j - 3 && !trace[j - 3] && !trace[j - 2]
  {
    FlipWindow(s, trace, i);
    FlipWindow(s, trace, j);
  }

  /** Flip number `i` of a prefix is flip number `i` of the trace. */
  lemma FlipsAtPrefix(s: Switch, trace: seq<bool>, n: nat, i: nat)
    requires i < n <= |trace|
    ensures FlipsAt(s, trace[..n], i) <==> FlipsAt(s, trace, i)
  {
    assert trace[..n][..i + 1] == trace[..i + 1] && trace[..n][..i] == trace[..i];
  }

  /** n samples give at most n/4 flips. */
  lemma {:induction false} FlipsAreRare(s: Switch, trace: seq<bool>)
    requires s.pos == 0
    ensures 4 * Flips(s, trace) <= |trace|
    decreases |trace|
  {
    var n := |trace|;
    if n > 0 {
      if !FlipsAt(s, trace, n - 1) {
        FlipsAreRare(s, trace[..n - 1]);
      } else {
        FlipWindow(s, trace, n - 1);
        forall k | n - 4 <= k < n - 1 ensures !FlipsAt(s, trace, k) {
          FlipWindow(s, trace, k);
        }
        QuietTail(s, trace[..n - 1], n - 4);
        assert trace[..n - 1][..n - 4] == trace[..n - 4];
        FlipsAreRare(s, trace[..n - 4]);
      }
    }
  }

  /** Samples that flip nothing add nothing. */
  lemma {:induction false} QuietTail(s: Switch, trace: seq<bool>, k: nat)
    requires s.pos == 0 && k <= |trace|
    requires forall i :: k <= i < |trace| ==> !Window(trace, i)
    ensures Flips(s, trace) == Flips(s, trace[..k])
  {
    var n := |trace|;
    if k == n {
      assert trace[..k] == trace;
    } else {
      var t := trace[..n - 1];
      FlipWindow(s, trace, n - 1);
      assert t[..k] == trace[..k] && !Window(trace, n - 1);
      forall i | k <= i < |t| ensures !Window(t, i) {
        assert !Window(trace, i);
      }
      QuietTail(s, t, k);
    }
  }

  /** A trace that never holds two high samples in a row flips nothing. */
  lemma {:induction false} NoPressNoFlip(s: Switch, trace: seq<bool>)
    requires s.pos == 0
    requires forall i :: 0 < i < |trace| ==> !(trace[i - 1] && trace[i])
    ensures Flips(s, trace) == 0
  {
    QuietTail(s, trace, 0);
  }

  /** Low, low, high, high, `k` times over. */
  function PressTrain(k: nat): (t: seq<bool>)
    ensures |t| == 4 * k
  {
    if k == 0 then [] else PressTrain(k - 1) + [false, false, true, true]
  }

  /** A low, low, high, high burst after any trace flips exactly once, at its end. */
  lemma BurstFlipsOnce(s: Switch, trace: seq<bool>)
    requires s.pos == 0
    ensures Flips(s, trace + [false, false, true, true]) == Flips(s, trace) + 1
  {
    var t := trace + [false, false, true, true];
    var n := |t| - 1;
    FlipWindow(s, t, n);
    assert t[..n][..|trace|] == trace;
    QuietTail(s, t[..n], |trace|);
  }

  /** The bound of FlipsAreRare is met for every length. */
  lemma {:induction false} FlipBoundIsTight(s: Switch, k: nat)
    requires s.pos == 0
    ensures Flips(s, PressTrain(k)) == k
  {
    if k > 0 {
      FlipBoundIsTight(s, k - 1);
      BurstFlipsOnce(s, PressTrain(k - 1));
    }
  }
}
