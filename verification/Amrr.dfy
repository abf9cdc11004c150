/** Adaptive multi rate retry (ieee80211_amrr.c): after enough successful evaluations the next higher rate is
    tried, after a failed one the next lower rate is used, and the number of successes that an increase takes is
    doubled whenever an increase turns out to have been a mistake. */
module Amrr {
  const WORD: nat := 0x1_0000_0000

  type Word = x: nat | x < WORD

  /** Everything that a choice depends on besides the settings. */
  datatype Node = Node(success: Word, recovery: bool, threshold: Word, txcnt: Word, retrycnt: Word, rate: nat)

  datatype Settings = Settings(min: Word, max: Word, nrates: nat)

  datatype Verdict = Success | Failure | Neither

  /** An evaluation succeeds if fewer than a tenth of more than ten transmissions were retried, and fails if more
      than a third of them were. */
  function VerdictOf(txcnt: Word, retrycnt: Word): (v: Verdict)
    ensures v == Success <==> txcnt > 10 && 10 * (retrycnt + 1) <= txcnt
    ensures v == Failure <==> 3 * retrycnt > txcnt
  {
    if retrycnt < txcnt / 10 && txcnt > 10 then Success
    else if retrycnt > txcnt / 3 then Failure
    else Neither
  }

  function Doubled(threshold: Word, max: Word): Word {
    var t := threshold * 2 % WORD;
    if t > max then max else t
  }

  /** What one evaluation makes of a node. */
  function Next(s: Settings, n: Node): Node {
    match VerdictOf(n.txcnt, n.retrycnt)
    case Success =>
      var success: Word := (n.success + 1) % WORD;
      if success >= n.threshold && n.rate + 1 != s.nrates then
        Node(0, true, n.threshold, 0, 0, n.rate + 1)
      else
        Node(success, false, n.threshold, 0, 0, n.rate)
    case Failure =>
      if n.rate != 0 then
        Node(0, false, if n.recovery then Doubled(n.threshold, s.max) else s.min, 0, 0, n.rate - 1)
      else
        Cleared(n.(success := 0, recovery := false))
    case Neither => Cleared(n)
  }

  function Cleared(n: Node): Node {
    if n.txcnt > 10 then n.(txcnt := 0, retrycnt := 0) else n
  }

  // ---------------------------------------------------------------------------------------------
  // Doubling the threshold in 32 bits

  /** Every threshold between the two settings stays there exactly when doubling cannot wrap around below the
      lower one. */
  lemma DoublingStays(s: Settings)
    requires s.min <= s.max
    ensures (forall t: Word :: s.min <= t <= s.max ==> s.min <= Doubled(t, s.max) <= s.max)
      <==> s.max < WORD / 2 || s.min == 0
  {
    if s.max >= WORD / 2 && s.min > 0 {
      var t: Word := if s.min <= WORD / 2 then WORD / 2 else s.min;
      assert Doubled(t, s.max) < s.min;
    }
  }

  /** ... and it is twice the threshold, up to the upper one, exactly when the upper one has 31 bits. */
  lemma DoublingDoubles(s: Settings)
    requires s.min <= s.max
    ensures (forall t: Word :: s.min <= t <= s.max ==> Doubled(t, s.max) == Least(s.max, 2 * t)) <==> s.max < WORD / 2
  {
    if s.max >= WORD / 2 {
      var t: Word := if s.min <= WORD / 2 then WORD / 2 else s.min;
      assert Doubled(t, s.max) != Least(s.max, 2 * t);
    }
  }

  function Least(a: nat, b: nat): nat {
    if a <= b then a else b
  }

  // ---------------------------------------------------------------------------------------------
  // Runs

  /** One evaluation: the node before and after it. */
  datatype Step = Step(before: Node, after: Node)

  /** The driver changes nothing but the counters between two evaluations. */
  predicate SameControl(a: Node, b: Node) {
    a.success == b.success && a.recovery == b.recovery && a.threshold == b.threshold && a.rate == b.rate
  }

  /** Evaluations from the start of a node on. */
  ghost predicate IsRun(s: Settings, start: Node, run: seq<Step>) {
    if run == [] then
      !start.recovery && start.success == 0
    else
      var r, step := run[..|run| - 1], run[|run| - 1];
      IsRun(s, start, r) && SameControl(step.before, Last(start, r)) && step.after == Next(s, step.before)
  }

  function Last(start: Node, run: seq<Step>): Node {
    if run == [] then start else run[|run| - 1].after
  }

  lemma OneMore(run: seq<Step>, step: Step)
    ensures (run + [step])[..|run|] == run
  {
  }

  lemma RunGoesOn(s: Settings, start: Node, run: seq<Step>, n: Node)
    requires IsRun(s, start, run) && SameControl(n, Last(start, run)) && n.rate < s.nrates
    ensures IsRun(s, start, run + [Step(n, Next(s, n))])
    ensures Last(start, run + [Step(n, Next(s, n))]) == Next(s, n) && Next(s, n).rate < s.nrates
  {
    OneMore(run, Step(n, Next(s, n)));
  }

  function Judged(step: Step): Verdict {
    VerdictOf(step.before.txcnt, step.before.retrycnt)
  }

  predicate Raised(step: Step) {
    step.after.rate > step.before.rate
  }

  predicate Lowered(step: Step) {
    step.after.rate < step.before.rate
  }

  /** The rate index never leaves the rate set, and moves by one at most. */
  lemma {:induction false} RateInRange(s: Settings, start: Node, run: seq<Step>)
    requires IsRun(s, start, run) && start.rate < s.nrates
    ensures Last(start, run).rate < s.nrates
    ensures run != [] ==> Last(start, run).rate <= run[|run| - 1].before.rate + 1 <= Last(start, run).rate + 2
  {
    if run != [] {
      RateInRange(s, start, run[..|run| - 1]);
    }
  }

  ghost predicate InRange(s: Settings, n: Node) {
    n.rate < s.nrates && s.min <= n.threshold <= s.max
  }

  /** The threshold stays between its bounds. */
  lemma {:induction false} ThresholdInRange(s: Settings, start: Node, run: seq<Step>)
    requires IsRun(s, start, run) && s.min <= start.threshold <= s.max
    requires s.max < WORD / 2 || s.min == 0 || start.rate < s.nrates < 2
    ensures s.min <= Last(start, run).threshold <= s.max
  {
    if run != [] {
      if start.rate < s.nrates {
        RateInRange(s, start, run[..|run| - 1]);
      }
      ThresholdInRange(s, start, run[..|run| - 1]);
      DoublingStays(s);
    }
  }

  /** In every run from every threshold between the bounds it stays there: true exactly of settings with which
      doubling cannot wrap around, or with which the rate cannot change. */
  lemma ThresholdInRangeExactly(s: Settings)
    requires s.min <= s.max
    ensures (forall start, run :: IsRun(s, start, run) && InRange(s, start) ==>
               s.min <= Last(start, run).threshold <= s.max)
      <==> s.max < WORD / 2 || s.min == 0 || s.nrates < 2
  {
    hide IsRun, Next;
    if s.max < WORD / 2 || s.min == 0 || s.nrates < 2 {
      forall start, run | IsRun(s, start, run) && InRange(s, start)
        ensures s.min <= Last(start, run).threshold <= s.max
      {
        ThresholdInRange(s, start, run);
      }
    } else {
      var t: Word := if s.min <= WORD / 2 then WORD / 2 else s.min;
      assert Doubled(t, s.max) < s.min;
      var start := Node(0, false, t, 0, 0, 0);
      var run := ProbesFailed(s, start, 1);
      assert DoubledTimes(s, t, 1) == Doubled(DoubledTimes(s, t, 0), s.max);
      assert IsRun(s, start, run) && InRange(s, start);
    }
  }

  // ---------------------------------------------------------------------------------------------
  // Runs in which probes fail

  function DoubledTimes(s: Settings, t: Word, k: nat): Word {
    if k == 0 then t else Doubled(DoubledTimes(s, t, k - 1), s.max)
  }

  /** A run goes on with a step that starts with the given counters. */
  lemma Extended(s: Settings, start: Node, run: seq<Step>, txcnt: Word, retrycnt: Word) returns (more: seq<Step>)
    requires IsRun(s, start, run)
    ensures IsRun(s, start, more)
    ensures Last(start, more) == Next(s, Last(start, run).(txcnt := txcnt, retrycnt := retrycnt))
    ensures more != [] && more[..|more| - 1] == run
    ensures more[|more| - 1].before == Last(start, run).(txcnt := txcnt, retrycnt := retrycnt)
  {
    var n := Last(start, run).(txcnt := txcnt, retrycnt := retrycnt);
    OneMore(run, Step(n, Next(s, n)));
    more := run + [Step(n, Next(s, n))];
  }

  /** Evaluations that succeed, but fewer than the threshold. */
  lemma {:induction false} Succeeding(s: Settings, start: Node, run: seq<Step>, k: nat) returns (more: seq<Step>)
    requires IsRun(s, start, run) && Last(start, run).success == 0
    requires k == 0 || k < Last(start, run).threshold
    ensures IsRun(s, start, more)
    ensures var n := Last(start, more);
      n.success == k && n.threshold == Last(start, run).threshold && n.rate == Last(start, run).rate
    ensures FailedProbes(more, 0) == FailedProbes(run, 0) && OtherDecrease(more, 0) == OtherDecrease(run, 0)
  {
    hide IsRun;
    if k == 0 {
      more := run;
    } else {
      more := Succeeding(s, start, run, k - 1);
      more := Extended(s, start, more, 11, 0);
    }
  }

  /** A higher rate is tried, and it fails. */
  lemma ProbeFailed(s: Settings, start: Node, run: seq<Step>) returns (more: seq<Step>)
    requires IsRun(s, start, run) && s.nrates >= 2
    requires Last(start, run).success == 0 && Last(start, run).rate == 0
    ensures IsRun(s, start, more) && Last(start, more).success == 0 && Last(start, more).rate == 0
    ensures Last(start, more).threshold == Doubled(Last(start, run).threshold, s.max)
    ensures FailedProbes(more, 0) == FailedProbes(run, 0) + 1 && OtherDecrease(more, 0) == OtherDecrease(run, 0)
  {
    hide IsRun;
    var t := Last(start, run).threshold;
    more := Succeeding(s, start, run, if t == 0 then 0 else t - 1);
    more := Extended(s, start, more, 11, 0);
    more := Extended(s, start, more, 0, 1);
  }

  lemma {:induction false} ProbesFailed(s: Settings, start: Node, k: nat) returns (run: seq<Step>)
    requires s.nrates >= 2 && !start.recovery && start.success == 0 && start.rate == 0
    ensures IsRun(s, start, run) && Last(start, run).success == 0 && Last(start, run).rate == 0
    ensures Last(start, run).threshold == DoubledTimes(s, start.threshold, k)
    ensures FailedProbes(run, 0) == k && !OtherDecrease(run, 0)
  {
    if k == 0 {
      run := [];
    } else {
      hide IsRun;
      run := ProbesFailed(s, start, k - 1);
      run := ProbeFailed(s, start, run);
    }
  }

  /** A node as ieee80211_amrr_node_init leaves it. */
  ghost predicate IsInitial(s: Settings, n: Node) {
    n.rate < s.nrates && n.threshold == s.min
  }

  /** From there every threshold is the lower bound doubled some number of times. */
  lemma {:induction false} ThresholdsReached(s: Settings, start: Node, run: seq<Step>) returns (k: nat)
    requires IsRun(s, start, run) && IsInitial(s, start)
    ensures Last(start, run).threshold == DoubledTimes(s, s.min, k)
    ensures s.nrates < 2 ==> k == 0
  {
    k := 0;
    if run != [] {
      var r := run[..|run| - 1];
      k := ThresholdsReached(s, start, r);
      RateInRange(s, start, r);
      var n := run[|run| - 1].before;
      if Judged(run[|run| - 1]) == Failure && n.rate != 0 {
        k := if n.recovery then k + 1 else 0;
        assert n.recovery ==> DoubledTimes(s, s.min, k) == Doubled(n.threshold, s.max);
      }
    }
  }

  /** In every run from a new node the threshold stays between the bounds: true exactly when the lower bound,
      doubled in 32 bits fewer than 2^32 times, never gets below itself, or the rate cannot change. */
  lemma InitialRunsExactly(s: Settings)
    requires s.min <= s.max
    ensures (forall start, run :: IsRun(s, start, run) && IsInitial(s, start) ==>
               s.min <= Last(start, run).threshold <= s.max)
      <==> s.nrates < 2 || forall k: nat :: k < WORD ==> DoubledTimes(s, s.min, k) >= s.min
  {
    hide IsRun;
    if s.nrates < 2 || forall k: nat :: k < WORD ==> DoubledTimes(s, s.min, k) >= s.min {
      forall start, run | IsRun(s, start, run) && IsInitial(s, start)
        ensures s.min <= Last(start, run).threshold <= s.max
      {
        EarlyOrNever(s);
        var k := ThresholdsReached(s, start, run);
        assert DoubledTimes(s, s.min, k) >= s.min;
      }
    } else {
      var k: nat :| k < WORD && DoubledTimes(s, s.min, k) < s.min;
      var start := Node(0, false, s.min, 0, 0, 0);
      var run := ProbesFailed(s, start, k);
      assert IsRun(s, start, run) && IsInitial(s, start);
    }
  }

  /** If the lower bound, doubled some number of times, gets below itself, it does so early: until then no value
      can come twice. */
  lemma FirstBelow(s: Settings, k: nat) returns (first: nat)
    requires s.min <= s.max && DoubledTimes(s, s.min, k) < s.min
    ensures first <= s.max - s.min + 1 < WORD && DoubledTimes(s, s.min, first) < s.min
  {
    hide DoubledTimes;
    first := Earliest(s, k);
    var v := Orbit(s, first);
    forall i, j | 0 <= i < j < first
      ensures v[i] != v[j]
    {
      NoRepetition(s, first, i, j);
    }
    forall i | 0 <= i < first
      ensures s.min <= v[i] < s.max + 1
    {
      NotAbove(s, i);
    }
    Pigeonhole(v, s.min, s.max + 1);
  }

  /** Looking at fewer than 2^32 doublings is looking at all of them. */
  lemma EarlyOrNever(s: Settings)
    requires s.min <= s.max
    ensures (forall k: nat :: DoubledTimes(s, s.min, k) >= s.min)
      <==> forall k: nat :: k < WORD ==> DoubledTimes(s, s.min, k) >= s.min
  {
    hide DoubledTimes;
    if k: nat :| DoubledTimes(s, s.min, k) < s.min {
      var first := FirstBelow(s, k);
    }
  }

  lemma {:induction false} Earliest(s: Settings, k: nat) returns (first: nat)
    requires DoubledTimes(s, s.min, k) < s.min
    ensures DoubledTimes(s, s.min, first) < s.min
    ensures forall i :: 0 <= i < first ==> DoubledTimes(s, s.min, i) >= s.min
    decreases k
  {
    hide DoubledTimes;
    if i: nat :| i < k && DoubledTimes(s, s.min, i) < s.min {
      first := Earliest(s, i);
    } else {
      first := k;
    }
  }

  /** What has come twice would come again and again, and never get below. */
  lemma NoRepetition(s: Settings, first: nat, i: nat, j: nat)
    requires i < j < first && DoubledTimes(s, s.min, first) < s.min
    requires forall i :: 0 <= i < first ==> DoubledTimes(s, s.min, i) >= s.min
    ensures DoubledTimes(s, s.min, i) != DoubledTimes(s, s.min, j)
  {
    hide DoubledTimes;
    if DoubledTimes(s, s.min, i) == DoubledTimes(s, s.min, j) {
      Repeats(s, s.min, i, j, first - j);
    }
  }

  /** After the same value the same values follow. */
  lemma {:induction false} Repeats(s: Settings, t: Word, i: nat, j: nat, n: nat)
    requires DoubledTimes(s, t, i) == DoubledTimes(s, t, j)
    ensures DoubledTimes(s, t, i + n) == DoubledTimes(s, t, j + n)
  {
    hide Doubled;
    if n > 0 {
      Repeats(s, t, i, j, n - 1);
    }
  }

  lemma NotAbove(s: Settings, n: nat)
    requires s.min <= s.max
    ensures DoubledTimes(s, s.min, n) <= s.max
  {
  }

  /** The lower bound doubled fewer than n times. */
  function Orbit(s: Settings, n: nat): (v: seq<nat>)
    ensures |v| == n && forall i :: 0 <= i < n ==> v[i] == DoubledTimes(s, s.min, i)
  {
    if n == 0 then [] else Orbit(s, n - 1) + [DoubledTimes(s, s.min, n - 1)]
  }

  /** There are no more different numbers from lo on and below hi. */
  lemma {:induction false} Pigeonhole(v: seq<nat>, lo: nat, hi: nat)
    requires lo <= hi && forall i :: 0 <= i < |v| ==> lo <= v[i] < hi
    requires forall i, j :: 0 <= i < j < |v| ==> v[i] != v[j]
    ensures |v| <= hi - lo
    decreases hi
  {
    if v != [] {
      assert lo <= v[0] < hi;
      if i :| 0 <= i < |v| && v[i] == hi - 1 {
        Pigeonhole(v[..i] + v[i + 1..], lo, hi - 1);
      } else {
        Pigeonhole(v, lo, hi - 1);
      }
    }
  }

  /** A run from a new node, with settings of 32 bits, that takes the threshold to nothing. */
  lemma ThresholdLost(s: Settings) returns (start: Node, run: seq<Step>)
    requires s == Settings(0x8000_0000, 0xFFFF_FFFF, 2)
    ensures IsRun(s, start, run) && IsInitial(s, start) && Last(start, run).threshold == 0
  {
    start := Node(0, false, s.min, 0, 0, 0);
    run := ProbesFailed(s, start, 1);
    assert DoubledTimes(s, s.min, 1) == Doubled(DoubledTimes(s, s.min, 0), s.max);
  }

  const BOUND: Word := 0x8000_0005

  /** 10, doubled up to 27 times, and then BOUND. */
  function Cycle(i: nat): nat {
    if i < 28 then Doublings(10, i) else BOUND
  }

  lemma CycleBounds(i: nat)
    ensures 10 <= Cycle(i) <= BOUND && (i < 27 ==> Cycle(i) < WORD / 4)
    ensures Cycle(0) == 10 && Cycle(27) == 1342177280
  {
    assert Doublings(10, 9) == 5120 && Doublings(10, 18) == 2621440 && Doublings(10, 27) == 1342177280;
    Growing(10, 0, i);
    Growing(10, i, 26);
    Growing(10, i, 27);
  }

  lemma CycleNext(i: nat)
    requires i <= 28
    ensures Cycle(i) < WORD && Doubled(Cycle(i), BOUND) == Cycle(if i == 28 then 0 else i + 1)
  {
    CycleBounds(i);
    if i < 27 {
      assert Cycle(i + 1) == 2 * Cycle(i);
    }
    hide Doublings;
  }

  /** Settings with which doubling wraps around for some thresholds, but for none that a new node gets to: after 28
      doublings the upper bound is reached, and its double is the lower bound again. */
  lemma {:induction false} HigherBoundStays(s: Settings, k: nat) returns (i: nat)
    requires s.min == 10 && s.max == BOUND
    ensures i <= 28 && DoubledTimes(s, s.min, k) == Cycle(i) >= s.min
  {
    hide Cycle, Doubled;
    CycleBounds(0);
    i := 0;
    if k > 0 {
      i := HigherBoundStays(s, k - 1);
      CycleNext(i);
      i := if i == 28 then 0 else i + 1;
      CycleBounds(i);
    }
  }

  lemma {:induction false} Growing(t: nat, i: nat, j: nat)
    ensures i <= j ==> Doublings(t, i) <= Doublings(t, j)
  {
    if i < j {
      Growing(t, i, j - 1);
    }
  }

  // ---------------------------------------------------------------------------------------------
  // What an increase takes

  /** Successful evaluations at the end of a run, since the last failed one or change of the rate. */
  function Successes(run: seq<Step>): nat {
    if run == [] then 0
    else
      var step := run[|run| - 1];
      if Judged(step) == Failure || Raised(step) || Lowered(step) then 0
      else Successes(run[..|run| - 1]) + if Judged(step) == Success then 1 else 0
  }

  /** The counter counts them, in 32 bits. */
  lemma {:induction false} CountedSuccesses(s: Settings, start: Node, run: seq<Step>)
    requires IsRun(s, start, run)
    ensures Last(start, run).success == Successes(run) % WORD
  {
    if run != [] {
      hide VerdictOf, Next;
      CountedSuccesses(s, start, run[..|run| - 1]);
      CountOne(s, run[|run| - 1], Successes(run[..|run| - 1]));
    }
  }

  lemma CountOne(s: Settings, step: Step, k: nat)
    requires step.after == Next(s, step.before) && step.before.success == k % WORD
    ensures Judged(step) == Failure || Raised(step) || Lowered(step) ==> step.after.success == 0
    ensures Judged(step) == Success && !Raised(step) ==> step.after.success == (k + 1) % WORD
    ensures Judged(step) == Neither ==> step.after.success == k % WORD && !Raised(step) && !Lowered(step)
    ensures Judged(step) == Success ==> !Lowered(step)
  {
    assert (k % WORD + 1) % WORD == (k + 1) % WORD;
    hide VerdictOf;
  }

  /** Each increase comes with the last of at least threshold successful evaluations in a row, all of them made
      since the rate last changed or an evaluation failed. */
  lemma IncreaseIsEarned(s: Settings, start: Node, run: seq<Step>, step: Step)
    requires IsRun(s, start, run + [step]) && Raised(step)
    ensures Judged(step) == Success
    ensures Successes(run) + 1 >= step.before.threshold == Last(start, run).threshold
  {
    OneMore(run, step);
    CountedSuccesses(s, start, run);
  }

  /** A rate is left undecided as long as no evaluation succeeds or fails. */
  predicate OnProbe(run: seq<Step>) {
    run != []
    && var step := run[|run| - 1];
       if Judged(step) == Neither then OnProbe(run[..|run| - 1]) else Raised(step)
  }

  /** The recovery flag says that the last evaluation which decided anything raised the rate. */
  lemma {:induction false} RecoveryIsProbe(s: Settings, start: Node, run: seq<Step>)
    requires IsRun(s, start, run)
    ensures Last(start, run).recovery <==> OnProbe(run)
  {
    if run != [] {
      RecoveryIsProbe(s, start, run[..|run| - 1]);
    }
  }

  /** The decreases after the first j steps that follow an increase directly. */
  function FailedProbes(run: seq<Step>, j: nat): nat {
    if |run| <= j then 0
    else
      FailedProbes(run[..|run| - 1], j)
      + if Lowered(run[|run| - 1]) && OnProbe(run[..|run| - 1]) then 1 else 0
  }

  /** There is some other decrease after the first j steps. */
  predicate OtherDecrease(run: seq<Step>, j: nat) {
    |run| > j
    && (OtherDecrease(run[..|run| - 1], j) || (Lowered(run[|run| - 1]) && !OnProbe(run[..|run| - 1])))
  }

  function Doublings(t: nat, k: nat): nat {
    if k == 0 then t else 2 * Doublings(t, k - 1)
  }

  /** The threshold after a run is that after its first j steps, doubled once for each failed probe since then, up
      to the upper bound. */
  ghost predicate IsBackedOff(s: Settings, start: Node, run: seq<Step>, j: nat)
    requires j <= |run|
  {
    Last(start, run).threshold
      == Least(s.max, Doublings(Last(start, run[..j]).threshold, FailedProbes(run, j)))
  }

  /** At any point of any run: k failed probes, and no other decrease between them, have doubled the threshold k
      times, up to the upper bound. */
  lemma {:induction false} BackedOff(s: Settings, start: Node, run: seq<Step>, j: nat)
    requires IsRun(s, start, run) && s.min <= start.threshold <= s.max < WORD / 2
    requires j <= |run| && !OtherDecrease(run, j)
    ensures IsBackedOff(s, start, run, j)
  {
    if |run| == j {
      assert run[..j] == run;
      ThresholdInRange(s, start, run);
    } else {
      var r := run[..|run| - 1];
      BackedOff(s, start, r, j);
      assert r[..j] == run[..j];
      ThresholdInRange(s, start, r);
      RecoveryIsProbe(s, start, r);
      DoublingDoubles(s);
    }
  }

  lemma {:induction false} SingleRate(s: Settings, start: Node, run: seq<Step>, j: nat)
    requires IsRun(s, start, run) && start.rate < s.nrates < 2 && j <= |run|
    ensures Last(start, run).threshold == Last(start, run[..j]).threshold == start.threshold
    ensures FailedProbes(run, j) == 0
  {
    if |run| == j {
      assert run[..j] == run;
    }
    if run != [] {
      var r := run[..|run| - 1];
      RateInRange(s, start, r);
      SingleRate(s, start, r, if j < |run| then j else |run| - 1);
      assert j < |run| ==> r[..j] == run[..j];
    }
  }

  /** At every point of every run from every threshold between the bounds it is so: true exactly of settings with
      which doubling cannot wrap around, or with which the rate cannot change. */
  lemma BackedOffExactly(s: Settings)
    requires s.min <= s.max
    ensures (forall start, run, j: nat ::
               IsRun(s, start, run) && InRange(s, start) && j <= |run| && !OtherDecrease(run, j) ==>
                 IsBackedOff(s, start, run, j))
      <==> s.max < WORD / 2 || s.nrates < 2
  {
    hide IsRun, Next, OtherDecrease, FailedProbes;
    if s.max < WORD / 2 || s.nrates < 2 {
      forall start, run, j: nat | IsRun(s, start, run) && InRange(s, start) && j <= |run| && !OtherDecrease(run, j)
        ensures IsBackedOff(s, start, run, j)
      {
        if s.nrates < 2 {
          SingleRate(s, start, run, j);
        } else {
          BackedOff(s, start, run, j);
        }
      }
    } else {
      var t: Word := if s.min <= WORD / 2 then WORD / 2 else s.min;
      var start := Node(0, false, t, 0, 0, 0);
      var run := ProbesFailed(s, start, 1);
      assert DoubledTimes(s, t, 1) == Doubled(DoubledTimes(s, t, 0), s.max) != Least(s.max, 2 * t);
      assert Doublings(t, 1) == 2 * Doublings(t, 0);
      assert run[..0] == [];
      assert IsRun(s, start, run) && InRange(s, start) && !OtherDecrease(run, 0) && !IsBackedOff(s, start, run, 0);
    }
  }

  /** Any other decrease goes back to the lower bound. */
  lemma OtherDecreaseResets(s: Settings, start: Node, run: seq<Step>, step: Step)
    requires IsRun(s, start, run + [step]) && Lowered(step) && !OnProbe(run)
    ensures step.after.threshold == s.min
  {
    OneMore(run, step);
    RecoveryIsProbe(s, start, run);
  }

  // ---------------------------------------------------------------------------------------------

  /** The state that the driver keeps for a node, and all its evaluations. */
  class RateControl {
    const settings: Settings
    var success: Word
    var recovery: bool
    var threshold: Word
    var txcnt: Word
    var retrycnt: Word
    var rate: nat
    ghost const start: Node
    ghost var run: seq<Step>

    function Current(): Node
      reads this
    {
      Node(success, recovery, threshold, txcnt, retrycnt, rate)
    }

    ghost predicate Valid()
      reads this
    {
      && start.rate < settings.nrates && rate < settings.nrates
      && start.threshold == settings.min
      && IsRun(settings, start, run)
      && SameControl(Current(), Last(start, run))
    }

    /** ieee80211_amrr_node_init, with a rate of the rate set. */
    constructor (settings: Settings, rate: nat)
      requires rate < settings.nrates
      ensures Valid() && this.settings == settings && run == []
      ensures Current() == Node(0, false, settings.min, 0, 0, rate)
    {
      this.settings := settings;
      success := 0;
      recovery := false;
      txcnt, retrycnt := 0, 0;
      threshold := settings.min;
      this.rate := rate;
      start := Node(0, false, settings.min, 0, 0, rate);
      run := [];
    }

    /** The driver reports transmissions and retries. */
    method Report(txcnt: Word, retrycnt: Word)
      requires Valid()
      modifies this`txcnt, this`retrycnt
      ensures Valid() && Current() == old(Current()).(txcnt := txcnt, retrycnt := retrycnt)
    {
      this.txcnt, this.retrycnt := txcnt, retrycnt;
    }

    /** ieee80211_amrr_choose.  The rate falls when more than a third of the transmissions were retried; it rises
        after enough evaluations with fewer retries than a tenth of more than ten transmissions. */
    method Choose()
      requires Valid()
      modifies this
      ensures Valid() && Current() == Next(settings, old(Current()))
      ensures run == old(run) + [Step(old(Current()), Current())]
      ensures rate == old(rate) - 1 <==> old(rate > 0 && 3 * retrycnt > txcnt)
      ensures (rate == old(rate) + 1) == old(
        && txcnt > 10 && 10 * (retrycnt + 1) <= txcnt
        && (success + 1) % WORD >= threshold && rate + 1 < settings.nrates)
      ensures old(rate) - 1 <= rate <= old(rate) + 1
      ensures rate >= old(rate) ==> threshold == old(threshold)
      ensures rate < old(rate) && !old(recovery) ==> threshold == settings.min
      ensures rate < old(rate) && old(recovery) ==> threshold == Least(settings.max, 2 * old(threshold) % WORD)
      ensures old(txcnt > 10) || rate != old(rate) ==> txcnt == retrycnt == 0
      ensures old(txcnt <= 10) && rate == old(rate) ==> txcnt == old(txcnt) && retrycnt == old(retrycnt)
      ensures recovery == (
        || rate > old(rate)
        || old(recovery && 3 * retrycnt <= txcnt && (txcnt <= 10 || 10 * (retrycnt + 1) > txcnt)))
      ensures success == (
        if rate != old(rate) || old(3 * retrycnt > txcnt) then 0
        else if old(txcnt > 10 && 10 * (retrycnt + 1) <= txcnt) then (old(success) + 1) % WORD
        else old(success))
    {
      hide IsRun, Last;
      ghost var before := Current();
      RunGoesOn(settings, start, run, before);
      var needChange := false;
      if retrycnt < txcnt / 10 && txcnt > 10 {
        success := (success + 1) % WORD;
        if success >= threshold && rate != settings.nrates - 1 {
          recovery := true;
          success := 0;
          rate := rate + 1;
          needChange := true;
        } else {
          recovery := false;
        }
      } else if retrycnt > txcnt / 3 {
        success := 0;
        if rate != 0 {
          if recovery {
            threshold := threshold * 2 % WORD;
            if threshold > settings.max {
              threshold := settings.max;
            }
          } else {
            threshold := settings.min;
          }
          rate := rate - 1;
          needChange := true;
        }
        recovery := false;
      }
      if txcnt > 10 || needChange {
        txcnt, retrycnt := 0, 0;
      }
      assert Current() == Next(settings, before);
      hide Next, VerdictOf;
      run := run + [Step(before, Current())];
    }
  }
}
