/** The extension's attribution batcher (extension/src/background/attribution.ts). */
module Attributor {
  import opened Seqs

  const BATCH_MAX: nat := 50
  const BUFFER_MAX: nat := 2000

  datatype Observation = Observation(httpMethod: string, url: string, ts: int, tabId: int, frameId: int, kind: string)

  /** `flights` are the batches handed to the sink and not yet answered. The last
      three fields are history: every observation recorded, every one handed to the
      sink, and how many `stop` threw away. */
  datatype State = State(
    ignoreOrigin: Option<string>,
    buffer: seq<Observation>,
    timer: bool,
    flushing: bool,
    submitted: nat,
    dropped: nat,
    failed: nat,
    flights: seq<seq<Observation>>,
    observed: seq<Observation>,
    sent: seq<Observation>,
    discarded: nat)

  function Start(ignoreOrigin: Option<string>): State {
    State(ignoreOrigin, [], false, false, 0, 0, 0, [], [], [], 0)
  }

  /** One atomic turn of the worker. `Answer` settles the `i`th outstanding batch. */
  datatype Step =
    | Observe(o: Observation)
    | Flush
    | TimerFires
    | Answer(i: nat, ok: bool)
    | SetIgnoreOrigin(origin: Option<string>)
    | Stop

  predicate Wanted(s: State, o: Observation) {
    && o.tabId >= 0
    && "http" <= o.url
    && !(s.ignoreOrigin.Some? && s.ignoreOrigin.value <= o.url)
  }

  function Schedule(s: State): State {
    s.(timer := true)
  }

  /** `flush` up to its `await`. */
  function BeginFlush(s: State): State {
    if s.buffer == [] || s.flushing then s.(timer := false)
    else
      var n := if |s.buffer| < BATCH_MAX then |s.buffer| else BATCH_MAX;
      s.(timer := false, flushing := true, buffer := s.buffer[n..],
         flights := s.flights + [s.buffer[..n]], sent := s.sent + s.buffer[..n])
  }

  function Record(s: State, o: Observation): State {
    var buffer := s.buffer + [o];
    var overflow := if |buffer| > BUFFER_MAX then |buffer| - BUFFER_MAX else 0;
    s.(buffer := buffer[overflow..], dropped := s.dropped + overflow, observed := s.observed + [o])
  }

  /** `flush` from its `await` on. */
  function EndFlush(s: State, i: nat, ok: bool): State
    requires i < |s.flights|
  {
    var n := |s.flights[i]|;
    s.(flights := s.flights[..i] + s.flights[i + 1..],
       submitted := s.submitted + if ok then n else 0,
       failed := s.failed + if ok then 0 else 1,
       dropped := s.dropped + if ok then 0 else n,
       flushing := false,
       timer := s.timer || s.buffer != [])
  }

  function Apply(s: State, step: Step): State {
    match step
    case Observe(o) =>
      if !Wanted(s, o) then s
      else if !s.flushing then BeginFlush(Record(s, o))
      else Schedule(Record(s, o))
    case Flush => BeginFlush(s)
    case TimerFires => if s.timer then BeginFlush(s) else s
    case Answer(i, ok) => if i < |s.flights| then EndFlush(s, i, ok) else s
    case SetIgnoreOrigin(origin) => s.(ignoreOrigin := origin)
    case Stop => s.(timer := false, buffer := [], flushing := false, discarded := s.discarded + |s.buffer|)
  }

  function Run(s: State, steps: seq<Step>): State
    decreases |steps|
  {
    if steps == [] then s else Run(Apply(s, steps[0]), steps[1..])
  }

  // ------------------------------------------------------------------ subsequences

  /** `xs` is what is left of `ys` after striking some elements out: its elements
      stand in `ys`, in the same order, at the places `at`. */
  ghost predicate PlacedAt(xs: seq<Observation>, ys: seq<Observation>, at: seq<nat>) {
    && |at| == |xs|
    && (forall i :: 0 <= i < |xs| ==> at[i] < |ys| && ys[at[i]] == xs[i])
    && (forall i, j :: 0 <= i < j < |at| ==> at[i] < at[j])
  }

  ghost predicate Subsequence(xs: seq<Observation>, ys: seq<Observation>) {
    exists at: seq<nat> :: PlacedAt(xs, ys, at)
  }

  /** Striking out more, and following both with the same elements, keeps it so. */
  lemma SubsequenceAppend(xs: seq<Observation>, ys: seq<Observation>, gap: seq<Observation>, tail: seq<Observation>)
    requires Subsequence(xs, ys)
    ensures Subsequence(xs + tail, ys + gap + tail)
  {
    var at: seq<nat> :| PlacedAt(xs, ys, at);
    var more: seq<nat> := seq(|tail|, i requires 0 <= i < |tail| => |ys| + |gap| + i);
    assert PlacedAt(xs + tail, ys + gap + tail, at + more);
  }

  // -------------------------------------------------------------------- invariants

  function InFlight(flights: seq<seq<Observation>>): nat {
    if flights == [] then 0 else |flights[0]| + InFlight(flights[1..])
  }

  lemma {:induction false} InFlightSplit(a: seq<seq<Observation>>, b: seq<seq<Observation>>)
    ensures InFlight(a + b) == InFlight(a) + InFlight(b)
  {
    if a == [] {
      assert a + b == b;
    } else {
      assert (a + b)[1..] == a[1..] + b;
      InFlightSplit(a[1..], b);
    }
  }

  lemma InFlightWithout(flights: seq<seq<Observation>>, i: nat)
    requires i < |flights|
    ensures InFlight(flights) == |flights[i]| + InFlight(flights[..i] + flights[i + 1..])
  {
    InFlightSplit(flights[..i], flights[i..]);
    InFlightSplit(flights[..i], flights[i + 1..]);
    assert flights == flights[..i] + flights[i..];
    assert flights[i..][1..] == flights[i + 1..];
  }

  /** Holds in every state, `stop` included. */
  ghost predicate Inv(s: State) {
    && |s.buffer| <= BUFFER_MAX
    && (forall i :: 0 <= i < |s.flights| ==> 0 < |s.flights[i]| <= BATCH_MAX)
    // what waits is always on its way: a flush is out, or a timer is armed
    && (s.buffer != [] ==> s.flushing || s.timer)
    && (s.flushing ==> s.flights != [])
    // nothing is lost uncounted
    && |s.observed| == s.submitted + s.dropped + |s.buffer| + InFlight(s.flights) + s.discarded
    // what waits is the latest observed, and what went out before it kept its order
    && |s.buffer| <= |s.observed|
    && s.buffer == s.observed[|s.observed| - |s.buffer|..]
    && Subsequence(s.sent, s.observed[..|s.observed| - |s.buffer|])
  }

  /** Holds until `stop`: one batch out at a time, and `flushing` says whether. */
  ghost predicate OneAtATime(s: State) {
    |s.flights| <= 1 && (s.flushing <==> |s.flights| == 1)
  }

  lemma BeginFlushKeeps(s: State)
    requires Inv(s.(timer := true))
    ensures Inv(BeginFlush(s))
    ensures OneAtATime(s) ==> OneAtATime(BeginFlush(s))
  {
    hide Subsequence;
    if s.buffer != [] && !s.flushing {
      var n := if |s.buffer| < BATCH_MAX then |s.buffer| else BATCH_MAX;
      var r := BeginFlush(s);
      InFlightSplit(s.flights, [s.buffer[..n]]);
      var cut := |s.observed| - |s.buffer|;
      SubsequenceAppend(s.sent, s.observed[..cut], [], s.buffer[..n]);
      assert s.observed[..cut] + [] + s.buffer[..n] == s.observed[..cut + n];
      assert r.buffer == s.observed[cut + n..];
    }
  }

  lemma RecordKeeps(s: State, o: Observation)
    requires Inv(s)
    ensures Inv(Record(s, o).(timer := true))
  {
    hide Subsequence;
    var r := Record(s, o);
    var cut := |s.observed| - |s.buffer|;
    var overflow := |s.buffer| + 1 - |r.buffer|;
    assert overflow <= 1;
    assert s.buffer + [o] == r.observed[cut..];
    SubsequenceAppend(s.sent, s.observed[..cut], r.observed[cut..cut + overflow], []);
    assert s.sent + [] == s.sent;
    assert s.observed[..cut] + r.observed[cut..cut + overflow] + [] == r.observed[..cut + overflow];
  }

  lemma EndFlushKeeps(s: State, i: nat, ok: bool)
    requires Inv(s) && i < |s.flights|
    ensures Inv(EndFlush(s, i, ok))
    ensures OneAtATime(s) ==> OneAtATime(EndFlush(s, i, ok))
  {
    hide Subsequence, InFlight;
    InFlightWithout(s.flights, i);
  }

  lemma StopKeeps(s: State)
    requires Inv(s)
    ensures Inv(Apply(s, Stop))
  {
    hide Subsequence;
    var cut := |s.observed| - |s.buffer|;
    SubsequenceAppend(s.sent, s.observed[..cut], s.buffer, []);
    assert s.sent + [] == s.sent;
    assert s.observed[..cut] + s.buffer + [] == s.observed[..|s.observed|];
  }

  lemma StepKeeps(s: State, step: Step)
    requires Inv(s)
    ensures Inv(Apply(s, step))
    ensures OneAtATime(s) && step != Stop ==> OneAtATime(Apply(s, step))
  {
    hide Subsequence, BeginFlush, EndFlush, InFlight, Record;
    match step {
      case Observe(o) =>
        RecordKeeps(s, o);
        RecordOnlyBuffers(s, o);
        BeginFlushKeeps(Record(s, o));
      case Flush =>
        BeginFlushKeeps(s);
      case TimerFires =>
        BeginFlushKeeps(s);
      case Answer(i, ok) =>
        if i < |s.flights| {
          EndFlushKeeps(s, i, ok);
        }
      case SetIgnoreOrigin(_) =>
      case Stop =>
        StopKeeps(s);
    }
  }

  lemma RecordOnlyBuffers(s: State, o: Observation)
    ensures var r := Record(s, o);
            r.flushing == s.flushing && r.flights == s.flights && r.discarded == s.discarded
  {
  }

  /** In every run: the buffer and each batch are bounded, whatever waits has a flush
      out or a timer armed, every observation is accounted for, and the order of
      submission is the order of observation. Until the worker stops, at most one
      batch is out. */
  lemma {:induction false} RunKeeps(s: State, steps: seq<Step>)
    requires Inv(s)
    ensures Inv(Run(s, steps))
    ensures OneAtATime(s) && Stop !in steps ==> OneAtATime(Run(s, steps))
    decreases |steps|
  {
    if steps == [] {
    } else {
      StepKeeps(s, steps[0]);
      RunKeeps(Apply(s, steps[0]), steps[1..]);
    }
  }

  lemma EveryRun(ignoreOrigin: Option<string>, steps: seq<Step>)
    ensures var s := Run(Start(ignoreOrigin), steps);
            Inv(s) && (Stop !in steps ==> OneAtATime(s))
  {
    var s := Start(ignoreOrigin);
    assert PlacedAt(s.sent, s.observed[..0], []);
    RunKeeps(s, steps);
  }

  // ------------------------------------------------- what is observed, what is counted

  /** A request is recorded exactly if a tab made it, over HTTP, and not to the ignored origin. */
  lemma RecordedExactly(s: State, o: Observation)
    ensures var t := Apply(s, Observe(o));
            var own := s.ignoreOrigin.Some? && s.ignoreOrigin.value <= o.url;
            t.observed == s.observed +
              (if o.tabId >= 0 && |o.url| >= 4 && o.url[..4] == "http" && !own then [o] else [])
  {
    var r := Record(s, o);
    assert BeginFlush(r).observed == r.observed;
  }

  /** An idle worker sends at once, up to fifty of the oldest waiting; a busy one keeps the
      observation and arms the timer. */
  lemma SendsOrWaits(s: State, o: Observation)
    requires |s.buffer| <= BUFFER_MAX && NotOwn(o, s.ignoreOrigin)
    ensures var t, waiting := Apply(s, Observe(o)), s.buffer + [o];
            var kept := if |waiting| > 2000 then waiting[1..] else waiting;
            if s.flushing then t.buffer == kept && t.timer && t.flights == s.flights && t.flushing
            else
              && |t.flights| == |s.flights| + 1 && t.flights[..|s.flights|] == s.flights
              && t.flights[|s.flights|] + t.buffer == kept
              && |t.flights[|s.flights|]| == (if |kept| < 50 then |kept| else 50)
              && t.flushing && !t.timer
  {
    var r := Record(s, o);
    assert s.buffer + [o] == (s.buffer + [o])[0..];
  }

  /** What the other turns do to the timer and to what waits. */
  lemma TurnsLeave(s: State, origin: Option<string>, i: nat, ok: bool)
    ensures !Apply(s, Flush).timer && !Apply(s, TimerFires).timer
    ensures s.buffer != [] && !s.flushing ==>
              Apply(s, Flush).flights != s.flights && (s.timer ==> Apply(s, TimerFires) == Apply(s, Flush))
    ensures i < |s.flights| ==>
              var t := Apply(s, Answer(i, ok));
              t.buffer == s.buffer && !t.flushing && (t.timer <==> s.timer || s.buffer != [])
    ensures Apply(s, SetIgnoreOrigin(origin)) == s.(ignoreOrigin := origin)
    ensures var t := Apply(s, Stop); !t.timer && t.buffer == [] && !t.flushing && t.flights == s.flights
  {
    assert Apply(s, Flush).flights != s.flights ==> |Apply(s, Flush).flights| == |s.flights| + 1;
  }

  /** Made by a tab, over HTTP, and not to `origin`. */
  predicate NotOwn(o: Observation, origin: Option<string>) {
    o.tabId >= 0 && "http" <= o.url && !(origin.Some? && origin.value <= o.url)
  }

  lemma StepNotOwn(s: State, step: Step, origin: Option<string>)
    requires s.ignoreOrigin == origin && forall o :: o in s.observed ==> NotOwn(o, origin)
    requires !step.SetIgnoreOrigin?
    ensures var t := Apply(s, step); t.ignoreOrigin == origin && forall o :: o in t.observed ==> NotOwn(o, origin)
  {
    if step.Observe? {
      RecordedExactly(s, step.o);
      var r := Record(s, step.o);
      assert BeginFlush(r).ignoreOrigin == r.ignoreOrigin;
    }
  }

  /** Submitting batches never feeds the batcher: while the origin stands, no request to it
      is ever recorded, and so none is submitted. */
  lemma {:induction false} OwnTrafficIgnored(s: State, steps: seq<Step>, origin: Option<string>)
    requires s.ignoreOrigin == origin && forall o :: o in s.observed ==> NotOwn(o, origin)
    requires forall step :: step in steps ==> !step.SetIgnoreOrigin?
    ensures forall o :: o in Run(s, steps).observed ==> NotOwn(o, origin)
    decreases |steps|
  {
    if steps == [] {
    } else {
      hide Apply;
      StepNotOwn(s, steps[0], origin);
      OwnTrafficIgnored(Apply(s, steps[0]), steps[1..], origin);
    }
  }

  /** The batch a step settles, if the sink's answer is `ok`. */
  function Settled(s: State, step: Step, ok: bool): seq<Observation> {
    if step.Answer? && step.ok == ok && step.i < |s.flights| then s.flights[step.i] else []
  }

  /** How many observations the sink took, or refused, over some steps. */
  function Answered(s: State, steps: seq<Step>, ok: bool): nat
    decreases |steps|
  {
    if steps == [] then 0 else |Settled(s, steps[0], ok)| + Answered(Apply(s, steps[0]), steps[1..], ok)
  }

  /** How many answers were failures. */
  function Failures(s: State, steps: seq<Step>): nat
    decreases |steps|
  {
    if steps == [] then 0
    else
      (if steps[0].Answer? && !steps[0].ok && steps[0].i < |s.flights| then 1 else 0) +
      Failures(Apply(s, steps[0]), steps[1..])
  }

  /** How many observations a full buffer pushed out. */
  function PushedOut(s: State, steps: seq<Step>): nat
    decreases |steps|
  {
    if steps == [] then 0
    else
      (if steps[0].Observe? && NotOwn(steps[0].o, s.ignoreOrigin) && |s.buffer| == BUFFER_MAX then 1 else 0) +
      PushedOut(Apply(s, steps[0]), steps[1..])
  }

  lemma StepCounts(s: State, step: Step)
    requires |s.buffer| <= BUFFER_MAX
    ensures var t := Apply(s, step);
            && |t.buffer| <= BUFFER_MAX
            && t.submitted == s.submitted + |Settled(s, step, true)|
            && t.failed == s.failed + (if step.Answer? && !step.ok && step.i < |s.flights| then 1 else 0)
            && t.dropped == s.dropped + |Settled(s, step, false)| +
                 (if step.Observe? && NotOwn(step.o, s.ignoreOrigin) && |s.buffer| == BUFFER_MAX then 1 else 0)
  {
  }

  /** The counters tell what happened: submitted is what the sink took, failed how often it
      refused, dropped what it refused and what a full buffer pushed out. */
  lemma {:induction false} CountersTell(s: State, steps: seq<Step>)
    requires |s.buffer| <= BUFFER_MAX
    ensures var t := Run(s, steps);
            && t.submitted == s.submitted + Answered(s, steps, true)
            && t.failed == s.failed + Failures(s, steps)
            && t.dropped == s.dropped + Answered(s, steps, false) + PushedOut(s, steps)
    decreases |steps|
  {
    if steps == [] {
    } else {
      hide Apply, Settled;
      StepCounts(s, steps[0]);
      CountersTell(Apply(s, steps[0]), steps[1..]);
    }
  }

  // ------------------------------------------------------------------------ draining

  /** What the worker does when nothing more is observed and the sink keeps accepting. */
  function Drain(s: State): (steps: seq<Step>)
    requires |s.flights| <= 1 && (s.flushing <==> |s.flights| == 1)
    ensures forall i :: 0 <= i < |steps| ==> steps[i] == TimerFires || steps[i] == Answer(0, true)
    decreases |s.buffer|, if s.flushing then 1 else 0
  {
    if s.flushing then [Answer(0, true)] + Drain(EndFlush(s, 0, true))
    else if s.buffer != [] then
      assert |BeginFlush(s).buffer| < |s.buffer|;
      [TimerFires] + Drain(BeginFlush(s))
    else []
  }

  /** Left alone, the worker gets rid of everything it holds, and drops nothing more:
      the timer armed by one answer starts the next batch. */
  lemma {:induction false} DrainEmpties(s: State)
    requires Inv(s) && OneAtATime(s)
    ensures var r := Run(s, Drain(s));
            && r.buffer == [] && r.flights == [] && !r.flushing
            && r.dropped == s.dropped
            && r.submitted == |s.observed| - s.dropped - s.discarded
    decreases |s.buffer|, if s.flushing then 1 else 0
  {
    hide Inv, InFlight;
    if s.flushing {
      var next := EndFlush(s, 0, true);
      EndFlushKeeps(s, 0, true);
      DrainEmpties(next);
      RunFirst(s, Answer(0, true), Drain(next));
    } else if s.buffer != [] {
      assert s.timer by {
        Waiting(s);
      }
      var next := BeginFlush(s);
      assert s.(timer := true) == s;
      BeginFlushKeeps(s);
      DrainEmpties(next);
      RunFirst(s, TimerFires, Drain(next));
    } else {
      Idle(s);
    }
  }

  lemma Waiting(s: State)
    requires Inv(s) && s.buffer != [] && !s.flushing
    ensures s.timer
  {
  }

  lemma Idle(s: State)
    requires Inv(s) && OneAtATime(s) && s.buffer == [] && !s.flushing
    ensures s.submitted == |s.observed| - s.dropped - s.discarded
  {
  }

  lemma RunFirst(s: State, step: Step, rest: seq<Step>)
    ensures Run(s, [step] + rest) == Run(Apply(s, step), rest)
  {
  }

  // ------------------------------------------------------------------ after a stop

  /** Stopping forgets that a batch is out: if one is, the next observation sends a
      second beside it; if none is, there is never more than one. */
  lemma SecondFlightAfterStop(s: State, o: Observation)
    requires Inv(s) && OneAtATime(s) && Wanted(s, o)
    ensures (forall steps :: Stop !in steps ==> |Run(Apply(s, Stop), steps).flights| <= 1) <==> s.flights == []
  {
    var stopped := Apply(s, Stop);
    StepKeeps(s, Stop);
    if s.flights == [] {
      forall steps | Stop !in steps
        ensures |Run(stopped, steps).flights| <= 1
      {
        RunKeeps(stopped, steps);
      }
    } else {
      RunFirst(stopped, Observe(o), []);
      assert [Observe(o)] + [] == [Observe(o)];
      assert |Run(stopped, [Observe(o)]).flights| == 2;
    }
  }

  // ------------------------------------------------------------------------ the class

  class Batcher {
    var ignoreOrigin: Option<string>
    var buffer: seq<Observation>
    var timer: bool
    var flushing: bool
    var submittedCount: nat
    var droppedCount: nat
    var failedFlushes: nat
    var flights: seq<seq<Observation>>
    ghost var observed: seq<Observation>
    ghost var sent: seq<Observation>
    ghost var discarded: nat

    ghost function View(): State
      reads this
    {
      State(ignoreOrigin, buffer, timer, flushing, submittedCount, droppedCount, failedFlushes, flights,
            observed, sent, discarded)
    }

    constructor (ignoreOrigin: Option<string>)
      ensures View() == Start(ignoreOrigin)
    {
      this.ignoreOrigin := ignoreOrigin;
      buffer, timer, flushing := [], false, false;
      submittedCount, droppedCount, failedFlushes := 0, 0, 0;
      flights, observed, sent, discarded := [], [], [], 0;
    }

    method ObserveRequest(o: Observation)
      modifies this
      ensures View() == Apply(old(View()), Observe(o))
    {
      if o.tabId < 0 {
        return;
      }
      if !("http" <= o.url) {
        return;
      }
      if ignoreOrigin.Some? && ignoreOrigin.value <= o.url {
        return;
      }
      hide Record, BeginFlush;
      Push(o);
      if !flushing {
        FlushBuffer();
        return;
      }
      ScheduleFlush();
    }

    /** Appended, with the oldest dropped beyond the bound. */
    method Push(o: Observation)
      modifies this
      ensures View() == Record(old(View()), o) && flushing == old(flushing)
    {
      buffer, observed := buffer + [o], observed + [o];
      if |buffer| > BUFFER_MAX {
        var overflow := |buffer| - BUFFER_MAX;
        buffer := buffer[overflow..];
        droppedCount := droppedCount + overflow;
      }
    }

    method ScheduleFlush()
      modifies this`timer
      ensures View() == Schedule(old(View()))
    {
      if timer {
        return;
      }
      timer := true;
    }

    method TimerCallback()
      requires timer
      modifies this
      ensures View() == Apply(old(View()), TimerFires)
    {
      timer := false;
      FlushBuffer();
    }

    /** Up to the point where the sink's answer is awaited. */
    method FlushBuffer()
      modifies this
      ensures View() == BeginFlush(old(View()))
    {
      timer := false;
      if |buffer| == 0 || flushing {
        return;
      }
      flushing := true;
      var n := if |buffer| < BATCH_MAX then |buffer| else BATCH_MAX;
      var batch := buffer[..n];
      buffer := buffer[n..];
      flights, sent := flights + [batch], sent + batch;
    }

    /** The rest of a flush, once the sink has answered. */
    method Settle(i: nat, ok: bool) returns (count: nat)
      requires i < |flights|
      modifies this
      ensures View() == Apply(old(View()), Answer(i, ok))
      ensures count == if ok then |old(flights)[i]| else 0
    {
      var batch := flights[i];
      flights := flights[..i] + flights[i + 1..];
      if ok {
        submittedCount := submittedCount + |batch|;
        count := |batch|;
      } else {
        failedFlushes := failedFlushes + 1;
        droppedCount := droppedCount + |batch|;
        count := 0;
      }
      flushing := false;
      if |buffer| > 0 {
        ScheduleFlush();
      }
    }

    method StopWorker()
      modifies this
      ensures View() == Apply(old(View()), Stop)
    {
      timer := false;
      discarded := discarded + |buffer|;
      buffer := [];
      flushing := false;
    }
  }
}
