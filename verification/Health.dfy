/** The extension's fail-safe (extension/src/background/health.ts) and the user
    actions around it (extension/src/background/actions.ts). */
module Health {
  import opened Seqs

  const REFUSED_THRESHOLD: nat := 2
  const UNRESPONSIVE_THRESHOLD: nat := 5
  const HEALTH_TIMEOUT_MS: nat := 3000
  const HEALTH_TIMEOUT_MAX_MS: nat := 12000

  datatype Code = DaemonUnreachable | DaemonUnresponsive | Unpaired | TokenRejected

  /** What a call to the daemon comes back with. */
  datatype Reply = Body(ok: bool) | Aborted | ApiFailure(status: int) | OtherFailure

  function AuthCode(reply: Reply): Option<Code> {
    if reply == ApiFailure(401) then Some(TokenRejected)
    else if reply == ApiFailure(403) then Some(Unpaired)
    else None
  }

  /** One entry of the monitor's history: how a check ended, a check that found the
      proxy off, or a reset. */
  datatype Mark = Good | Refusal | Timeout | Turned(code: Code) | Idle | Reset

  function MarkOf(reply: Reply): Mark {
    if reply == Body(true) then Good
    else if reply == Aborted then Timeout
    else if AuthCode(reply).Some? then Turned(AuthCode(reply).value)
    else Refusal
  }

  /** The fail-safe was reached when the history was `at` long. `acted` is false when
      it had already tripped and only returned. */
  datatype Trip = Trip(at: nat, reason: Code, acted: bool)

  /** The monitor's own fields. */
  datatype Watch = Watch(failures: nat, refusals: nat, timeouts: nat, lastOk: Option<bool>, lastRejection: Option<Code>)

  const FRESH_WATCH: Watch := Watch(0, 0, 0, None, None)

  /** The stored state, and whether Chrome's proxy setting is ours. */
  datatype Stored = Stored(
    enabled: bool,
    applied: bool,
    trippedAt: Option<int>,
    lastError: Option<Code>,
    paired: bool,
    chromeSet: bool)

  /** `checks` is how many health calls are out; `marks` and `trips` are history. */
  datatype State = State(watch: Watch, stored: Stored, polling: bool, checks: nat, marks: seq<Mark>, trips: seq<Trip>)

  datatype Enabling = NotControllable | NoState(reply: Reply) | SetFailed | Applied

  /** Atomic steps: a check begins, the daemon's answer to a check is dealt with
      (`cleared` is whether clearing the proxy succeeds), the user turns the proxy on
      or off or dismisses the error, or the worker is restarted over the stored state. */
  datatype Step =
    | BeginCheck
    | Complete(reply: Reply, now: int, cleared: bool)
    | Enable(enabling: Enabling)
    | Disable(cleared: bool)
    | Dismiss
    | Restart

  /** The monitor's fields after one more mark. */
  function WatchAfter(w: Watch, mark: Mark): Watch {
    match mark
    case Good => Watch(0, 0, 0, Some(true), None)
    case Refusal => Watch(w.failures + 1, w.refusals + 1, 0, Some(false), None)
    case Timeout => Watch(w.failures + 1, 0, w.timeouts + 1, Some(false), None)
    case Turned(code) => Watch(0, 0, 0, Some(false), Some(code))
    case Idle => Watch(0, 0, 0, w.lastOk, None)
    case Reset => FRESH_WATCH
  }

  function Marked(s: State, mark: Mark): State {
    s.(watch := WatchAfter(s.watch, mark), marks := s.marks + [mark])
  }

  function TripNow(s: State, reason: Code, now: int, cleared: bool): State {
    var acted := s.stored.enabled || s.stored.trippedAt.None?;
    s.(trips := s.trips + [Trip(|s.marks|, reason, acted)],
       stored := if acted then
                   s.stored.(enabled := false, applied := false, trippedAt := Some(now), lastError := Some(reason),
                             chromeSet := s.stored.chromeSet && !cleared)
                 else s.stored)
  }

  function NoteRejection(s: Stored, code: Code): Stored {
    s.(paired := false, lastError := Some(code))
  }

  function Finish(s: State, reply: Reply, now: int, cleared: bool): State {
    var mark := MarkOf(reply);
    var t := Marked(s, mark);
    if mark.Turned? && s.watch.lastRejection != Some(mark.code) then t.(stored := NoteRejection(t.stored, mark.code))
    else if t.watch.refusals >= REFUSED_THRESHOLD then TripNow(t, DaemonUnreachable, now, cleared)
    else if t.watch.failures >= UNRESPONSIVE_THRESHOLD then TripNow(t, DaemonUnresponsive, now, cleared)
    else t
  }

  function Apply(s: State, step: Step): State {
    match step
    case BeginCheck => if s.stored.enabled then s.(checks := s.checks + 1) else Marked(s, Idle)
    case Complete(reply, now, cleared) =>
      if s.checks == 0 then s else Finish(s.(checks := s.checks - 1), reply, now, cleared)
    case Enable(NotControllable) => s
    case Enable(NoState(reply)) =>
      if AuthCode(reply).Some? then s.(stored := NoteRejection(s.stored, AuthCode(reply).value)) else s
    case Enable(SetFailed) => s
    case Enable(Applied) =>
      Marked(s, Reset).(stored := Stored(true, true, None, None, s.stored.paired, true), polling := true)
    case Disable(cleared) =>
      if !cleared then s
      else Marked(s, Reset).(stored := s.stored.(enabled := false, applied := false, chromeSet := false), polling := false)
    case Dismiss => s.(stored := s.stored.(trippedAt := None, lastError := None))
    case Restart => Marked(s, Reset).(checks := 0, polling := s.stored.enabled)
  }

  function Run(s: State, steps: seq<Step>): State
    decreases |steps|
  {
    if steps == [] then s else Run(Apply(s, steps[0]), steps[1..])
  }

  // ------------------------------------------------------------ what history implies

  /** The length of the run of failures the history ends in. */
  function TrailingFailures(marks: seq<Mark>): nat {
    if marks != [] && (marks[|marks| - 1] == Refusal || marks[|marks| - 1] == Timeout)
    then TrailingFailures(marks[..|marks| - 1]) + 1
    else 0
  }

  /** The length of the run of `m` the history ends in. */
  function Trailing(marks: seq<Mark>, m: Mark): nat {
    if marks != [] && marks[|marks| - 1] == m then Trailing(marks[..|marks| - 1], m) + 1 else 0
  }

  /** How the last check ended, checks that found the proxy off aside. */
  function LastOk(marks: seq<Mark>): Option<bool> {
    if marks == [] then None
    else
      match marks[|marks| - 1]
      case Idle => LastOk(marks[..|marks| - 1])
      case Reset => None
      case last => Some(last.Good?)
  }

  function LastRejection(marks: seq<Mark>): Option<Code> {
    if marks != [] && marks[|marks| - 1].Turned? then Some(marks[|marks| - 1].code) else None
  }

  predicate TwoRefusals(marks: seq<Mark>) {
    |marks| >= 2 && marks[|marks| - 1] == Refusal && marks[|marks| - 2] == Refusal
  }

  /** The fail-safe condition: the failures since the last success, rejection or reset
      end in two refusals, or there are five. */
  predicate Alarm(marks: seq<Mark>) {
    TwoRefusals(marks) || TrailingFailures(marks) >= UNRESPONSIVE_THRESHOLD
  }

  /** The monitor's fields, as functions of the history. */
  function Summary(marks: seq<Mark>): Watch {
    Watch(TrailingFailures(marks), Trailing(marks, Refusal), Trailing(marks, Timeout), LastOk(marks), LastRejection(marks))
  }

  /** The fail-safe was reached exactly at the alarms, each with the reason that fits. */
  ghost predicate Answered(s: State) {
    && (forall i :: 0 <= i < |s.trips| ==>
          var t := s.trips[i];
          && 0 < t.at <= |s.marks|
          && Alarm(s.marks[..t.at])
          && t.reason == if TwoRefusals(s.marks[..t.at]) then DaemonUnreachable else DaemonUnresponsive)
    && (forall i, j :: 0 <= i < j < |s.trips| ==> s.trips[i].at < s.trips[j].at)
    && (forall n :: 0 < n <= |s.marks| && Alarm(s.marks[..n]) ==> exists i :: 0 <= i < |s.trips| && s.trips[i].at == n)
  }

  /** Tripped or alarmed, the stored switch is off. Chrome's own setting is another
      matter: see `Stranded`. */
  ghost predicate Safe(s: State) {
    && (s.stored.trippedAt.Some? ==> !s.stored.enabled)
    && (Alarm(s.marks) ==> !s.stored.enabled)
  }

  ghost predicate Inv(s: State) {
    s.watch == Summary(s.marks) && Answered(s) && Safe(s)
  }

  lemma TwoRefusalsCounted(marks: seq<Mark>)
    ensures TwoRefusals(marks) <==> Trailing(marks, Refusal) >= 2
  {
  }

  lemma {:induction false} NeverBoth(marks: seq<Mark>)
    ensures Trailing(marks, Refusal) == 0 || Trailing(marks, Timeout) == 0
    ensures Trailing(marks, Refusal) <= TrailingFailures(marks)
    ensures Trailing(marks, Timeout) <= TrailingFailures(marks)
  {
    if marks == [] {
    } else {
      NeverBoth(marks[..|marks| - 1]);
    }
  }

  /** Adding a mark that is no failure answers for itself: no alarm. */
  lemma QuietMark(s: State, r: State, mark: Mark)
    requires Answered(s) && r.marks == s.marks + [mark] && r.trips == s.trips
    requires !Alarm(r.marks)
    ensures Answered(r)
  {
    hide Alarm, TwoRefusals;
    OlderMarks(s.marks, mark);
    assert r.marks[..|r.marks|] == r.marks;
  }

  /** Adding a mark that does alarm, and the trip for it. */
  lemma LoudMark(s: State, r: State, mark: Mark, trip: Trip)
    requires Answered(s) && r.marks == s.marks + [mark] && r.trips == s.trips + [trip]
    requires Alarm(r.marks) && trip.at == |r.marks|
    requires trip.reason == if TwoRefusals(r.marks) then DaemonUnreachable else DaemonUnresponsive
    ensures Answered(r)
  {
    hide Alarm, TwoRefusals;
    OlderMarks(s.marks, mark);
    assert r.marks[..|r.marks|] == r.marks;
    forall n | 0 < n <= |r.marks| && Alarm(r.marks[..n])
      ensures exists i :: 0 <= i < |r.trips| && r.trips[i].at == n
    {
      if n == |r.marks| {
        assert r.trips[|s.trips|].at == n;
      } else {
        var i :| 0 <= i < |s.trips| && s.trips[i].at == n;
        assert r.trips[i].at == n;
      }
    }
  }

  lemma OlderMarks(marks: seq<Mark>, mark: Mark)
    ensures forall n :: 0 <= n <= |marks| ==> (marks + [mark])[..n] == marks[..n]
    ensures (marks + [mark])[..|marks|] == marks
  {
  }

  lemma SummaryAfter(marks: seq<Mark>, mark: Mark)
    ensures Summary(marks + [mark]) == WatchAfter(Summary(marks), mark)
  {
    OlderMarks(marks, mark);
  }

  /** An alarm is what the counters say it is, and ends in a failure. */
  lemma AlarmCounted(marks: seq<Mark>)
    ensures Alarm(marks) <==>
            Summary(marks).refusals >= REFUSED_THRESHOLD || Summary(marks).failures >= UNRESPONSIVE_THRESHOLD
    ensures TwoRefusals(marks) <==> Summary(marks).refusals >= REFUSED_THRESHOLD
    ensures Alarm(marks) ==> marks[|marks| - 1].Refusal? || marks[|marks| - 1].Timeout?
  {
    TwoRefusalsCounted(marks);
  }

  /** A mark that is no failure keeps everything, if it leaves the store safe. */
  lemma QuietKeeps(s: State, r: State, mark: Mark)
    requires Inv(s) && r.watch == WatchAfter(s.watch, mark) && r.marks == s.marks + [mark] && r.trips == s.trips
    requires !mark.Refusal? && !mark.Timeout?
    requires r.stored.trippedAt.Some? ==> !r.stored.enabled
    ensures Inv(r)
  {
    hide Answered, Alarm, Summary;
    SummaryAfter(s.marks, mark);
    AlarmCounted(r.marks);
    QuietMark(s, r, mark);
  }

  lemma FailureKeeps(s: State, reply: Reply, now: int, cleared: bool)
    requires Inv(s) && (MarkOf(reply).Refusal? || MarkOf(reply).Timeout?)
    ensures Inv(Finish(s, reply, now, cleared))
  {
    hide Answered, Alarm, TwoRefusals, Summary, WatchAfter;
    var mark, r := MarkOf(reply), Finish(s, reply, now, cleared);
    SummaryAfter(s.marks, mark);
    AlarmCounted(r.marks);
    if Alarm(r.marks) {
      LoudMark(s, r, mark, r.trips[|s.trips|]);
    } else {
      QuietMark(s, r, mark);
    }
  }

  /** What one completed check does about the fail-safe: it trips exactly at an alarm
      that finds the proxy on or not yet tripped, and touches the switch and Chrome's
      setting for nothing else; the setting goes only if clearing it succeeds. */
  lemma FinishTripsExactly(s: State, reply: Reply, now: int, cleared: bool)
    requires Inv(s)
    ensures var r, marks := Finish(s, reply, now, cleared), s.marks + [MarkOf(reply)];
            && r.marks == marks
            && (Alarm(marks) ==>
                  && r.trips == s.trips + [Trip(|marks|, if TwoRefusals(marks) then DaemonUnreachable else DaemonUnresponsive,
                                                s.stored.enabled || s.stored.trippedAt.None?)]
                  && !r.stored.enabled && r.stored.trippedAt.Some?
                  && (s.stored.enabled || s.stored.trippedAt.None? ==>
                        && !r.stored.applied && r.stored.trippedAt == Some(now)
                        && r.stored.lastError == Some(r.trips[|s.trips|].reason))
                  && (r.stored.chromeSet <==>
                        s.stored.chromeSet && !(cleared && (s.stored.enabled || s.stored.trippedAt.None?))))
            && (!Alarm(marks) ==>
                  && r.trips == s.trips && r.stored.enabled == s.stored.enabled && r.stored.trippedAt == s.stored.trippedAt
                  && r.stored.chromeSet == s.stored.chromeSet)
            && (MarkOf(reply).Turned? || MarkOf(reply).Good? ==> !Alarm(marks))
  {
    hide Answered, Alarm, TwoRefusals, Summary;
    var mark := MarkOf(reply);
    SummaryAfter(s.marks, mark);
    AlarmCounted(s.marks + [mark]);
  }

  lemma StepKeeps(s: State, step: Step)
    requires Inv(s)
    ensures Inv(Apply(s, step))
    ensures step != Enable(Applied) && Apply(s, step).stored.enabled ==> s.stored.enabled
  {
    hide Answered, Alarm, Finish, Summary, WatchAfter;
    var r := Apply(s, step);
    match step {
      case Complete(reply, now, cleared) =>
        if s.checks > 0 {
          CompleteKeeps(s, reply, now, cleared);
        }
      case BeginCheck =>
        if s.stored.enabled {
          SameHistory(s, r);
        } else {
          QuietKeeps(s, r, Idle);
        }
      case Enable(enabling) =>
        if enabling.Applied? {
          QuietKeeps(s, r, Reset);
        } else {
          SameHistory(s, r);
        }
      case Disable(cleared) =>
        if cleared {
          QuietKeeps(s, r, Reset);
        }
      case Dismiss =>
        SameHistory(s, r);
      case Restart =>
        QuietKeeps(s, r, Reset);
    }
  }

  lemma CompleteKeeps(s: State, reply: Reply, now: int, cleared: bool)
    requires Inv(s) && s.checks > 0
    ensures var r := Apply(s, Complete(reply, now, cleared));
            Inv(r) && (r.stored.enabled ==> s.stored.enabled)
  {
    hide Answered, Alarm, Summary;
    var t := s.(checks := s.checks - 1);
    SameHistory(s, t);
    FinishTripsExactly(t, reply, now, cleared);
    if MarkOf(reply).Refusal? || MarkOf(reply).Timeout? {
      FailureKeeps(t, reply, now, cleared);
    } else {
      QuietKeeps(t, Finish(t, reply, now, cleared), MarkOf(reply));
    }
  }

  lemma SameHistory(s: State, r: State)
    requires Inv(s) && r.marks == s.marks && r.trips == s.trips && r.watch == s.watch
    requires r.stored.enabled == s.stored.enabled && (r.stored.trippedAt.Some? ==> s.stored.trippedAt.Some?)
    ensures Inv(r)
  {
  }

  /** Over every history: the counters are the lengths of the runs the history ends
      in, the fail-safe is reached exactly at the alarms with the fitting reason, and
      the stored switch is off whenever it has tripped or the history is an alarm. */
  lemma {:induction false} RunKeeps(s: State, steps: seq<Step>)
    requires Inv(s)
    ensures Inv(Run(s, steps))
    decreases |steps|
  {
    hide Inv, Apply;
    if steps == [] {
    } else {
      StepKeeps(s, steps[0]);
      RunKeeps(Apply(s, steps[0]), steps[1..]);
    }
  }

  /** Once off, the proxy stays off until the user turns it on: no check re-enables it. */
  lemma {:induction false} StaysOff(s: State, steps: seq<Step>)
    requires Inv(s) && !s.stored.enabled && Enable(Applied) !in steps
    ensures !Run(s, steps).stored.enabled
    decreases |steps|
  {
    hide Inv, Apply;
    if steps == [] {
    } else {
      StepKeeps(s, steps[0]);
      StaysOff(Apply(s, steps[0]), steps[1..]);
    }
  }

  /** A new worker over whatever is stored. */
  predicate Fresh(s: State) {
    && s.watch == FRESH_WATCH && s.checks == 0 && s.marks == [] && s.trips == []
    && (s.stored.trippedAt.Some? ==> !s.stored.enabled)
    && s.polling == s.stored.enabled
  }

  /** While the switch is on, the daemon is polled. */
  lemma {:induction false} RunPolls(s: State, steps: seq<Step>)
    requires s.stored.enabled ==> s.polling
    ensures Run(s, steps).stored.enabled ==> Run(s, steps).polling
    decreases |steps|
  {
    if steps == [] {
    } else {
      RunPolls(Apply(s, steps[0]), steps[1..]);
    }
  }

  lemma EveryHistory(s: State, steps: seq<Step>)
    requires Fresh(s)
    ensures var r := Run(s, steps);
            && Inv(r)
            && (r.stored.enabled ==> r.polling)
            && (r.watch.refusals == 0 || r.watch.timeouts == 0)
            && r.watch.refusals <= r.watch.failures && r.watch.timeouts <= r.watch.failures
  {
    RunKeeps(s, steps);
    RunPolls(s, steps);
    NeverBoth(Run(s, steps).marks);
  }

  // -------------------------------------------------------- Chrome's own proxy setting

  /** The switch is off and Chrome is still pointed at the daemon. */
  predicate Stranded(s: State) {
    s.stored.chromeSet && !s.stored.enabled
  }

  /** The user turns the proxy on or off, and Chrome complies. */
  predicate Settles(step: Step) {
    step == Enable(Applied) || step == Disable(true)
  }

  /** The answer to a check raises the alarm with the proxy on, and clearing fails. */
  predicate TripsUncleared(s: State, step: Step) {
    && step.Complete? && !step.cleared && s.checks > 0
    && s.stored.enabled && s.stored.chromeSet
    && Alarm(s.marks + [MarkOf(step.reply)])
  }

  /** A late answer raises the alarm with the switch off, and clearing works: the fail-safe
      acts then only if it is not on record as tripped. */
  predicate ClearsLate(s: State, step: Step) {
    && step.Complete? && step.cleared && s.checks > 0
    && !s.stored.enabled && s.stored.trippedAt.None?
    && Alarm(s.marks + [MarkOf(step.reply)])
  }

  /** No step lets go of Chrome's setting or takes it up again with the switch on. */
  predicate NothingFrees(s: State, steps: seq<Step>)
    decreases |steps|
  {
    steps == [] ||
    (!Settles(steps[0]) && !ClearsLate(s, steps[0]) && NothingFrees(Apply(s, steps[0]), steps[1..]))
  }

  /** Some step trips without clearing, and nothing frees Chrome after it. */
  predicate LeftSet(s: State, steps: seq<Step>)
    decreases |steps|
  {
    steps != [] &&
    var next := Apply(s, steps[0]);
    (TripsUncleared(s, steps[0]) && NothingFrees(next, steps[1..])) || LeftSet(next, steps[1..])
  }

  lemma StrandedStep(s: State, step: Step)
    requires Inv(s)
    ensures var r := Apply(s, step);
            && Inv(r)
            && (Stranded(r) <==> TripsUncleared(s, step) || (Stranded(s) && !Settles(step) && !ClearsLate(s, step)))
  {
    hide Inv, Alarm, Finish;
    StepKeeps(s, step);
    if step.Complete? && s.checks > 0 {
      StrandedCheck(s, step.reply, step.now, step.cleared);
    }
  }

  lemma StrandedCheck(s: State, reply: Reply, now: int, cleared: bool)
    requires Inv(s) && s.checks > 0
    ensures var r, step := Apply(s, Complete(reply, now, cleared)), Complete(reply, now, cleared);
            Stranded(r) <==> TripsUncleared(s, step) || (Stranded(s) && !ClearsLate(s, step))
  {
    hide Answered, Alarm, Summary, Finish;
    var t := s.(checks := s.checks - 1);
    SameHistory(s, t);
    FinishTripsExactly(t, reply, now, cleared);
  }

  /** Chrome ends up pointed at the daemon with the switch off exactly if some trip
      failed to clear it, or it was so already, and nothing has freed it since: no user
      action went through, and no late answer tripped again after the error was dismissed. */
  lemma {:induction false} StrandedExactly(s: State, steps: seq<Step>)
    requires Inv(s)
    ensures Stranded(Run(s, steps)) <==> LeftSet(s, steps) || (Stranded(s) && NothingFrees(s, steps))
    decreases |steps|
  {
    if steps == [] {
      return;
    }
    hide Inv, Stranded, Settles, TripsUncleared, ClearsLate, Apply;
    StrandedStep(s, steps[0]);
    StrandedExactly(Apply(s, steps[0]), steps[1..]);
  }

  /** As long as clearing works, Chrome is never left pointed at the daemon. */
  lemma {:induction false} ClearedNeverStranded(s: State, steps: seq<Step>)
    requires Inv(s) && !Stranded(s)
    requires forall step :: step in steps && step.Complete? ==> step.cleared
    ensures !Stranded(Run(s, steps))
    decreases |steps|
  {
    if steps == [] {
      return;
    }
    hide Inv, Apply;
    StrandedStep(s, steps[0]);
    ClearedNeverStranded(Apply(s, steps[0]), steps[1..]);
  }

  /** Two refusals, and Chrome does not let go. */
  const UNCLEARED_TRIP: seq<Step> :=
    [BeginCheck, Complete(OtherFailure, 0, false), BeginCheck, Complete(OtherFailure, 1, false)]

  /** The proxy is on, and the two refusals turn the switch off, record the trip and
      leave Chrome pointed at a daemon that is not there. */
  lemma UnclearedTripWitness(s: State)
    requires Fresh(s) && s.stored.enabled && s.stored.chromeSet
    ensures var r := Run(s, UNCLEARED_TRIP);
            Stranded(r) && r.stored.trippedAt == Some(1) && r.stored.lastError == Some(DaemonUnreachable) && Alarm(r.marks)
  {
    var once := Apply(Apply(s, UNCLEARED_TRIP[0]), UNCLEARED_TRIP[1]);
    var twice := Apply(Apply(once, UNCLEARED_TRIP[2]), UNCLEARED_TRIP[3]);
    RunFour(s, UNCLEARED_TRIP[0], UNCLEARED_TRIP[1], UNCLEARED_TRIP[2], UNCLEARED_TRIP[3]);
    assert once.marks == [Refusal] && once.watch.refusals == 1;
    assert twice.marks == [Refusal, Refusal];
  }

  lemma RunFour(s: State, a: Step, b: Step, c: Step, d: Step)
    ensures Run(s, [a, b, c, d]) == Apply(Apply(Apply(Apply(s, a), b), c), d)
  {
    hide Apply;
    RunFirst(s, a, [b, c, d]);
    RunFirst(Apply(s, a), b, [c, d]);
    RunFirst(Apply(Apply(s, a), b), c, [d]);
    RunFirst(Apply(Apply(Apply(s, a), b), c), d, []);
    assert [a, b, c, d] == [a] + [b, c, d] && [b, c, d] == [b] + [c, d] && [c, d] == [c] + [d] && [d] == [d] + [];
  }

  // ------------------------------------------------------------------- the switch

  /** The step turns the switch off: the user's, or an alarm. */
  predicate TurnsOff(s: State, step: Step) {
    step == Disable(true) || (step.Complete? && s.checks > 0 && Alarm(s.marks + [MarkOf(step.reply)]))
  }

  predicate NothingTurnsOff(s: State, steps: seq<Step>)
    decreases |steps|
  {
    steps == [] || (!TurnsOff(s, steps[0]) && NothingTurnsOff(Apply(s, steps[0]), steps[1..]))
  }

  /** The user turned the proxy on, and nothing has turned it off since. */
  predicate TurnedOn(s: State, steps: seq<Step>)
    decreases |steps|
  {
    steps != [] &&
    var next := Apply(s, steps[0]);
    (steps[0] == Enable(Applied) && NothingTurnsOff(next, steps[1..])) || TurnedOn(next, steps[1..])
  }

  lemma SwitchStep(s: State, step: Step)
    requires Inv(s)
    ensures var r := Apply(s, step);
            Inv(r) && (r.stored.enabled <==> step == Enable(Applied) || (s.stored.enabled && !TurnsOff(s, step)))
  {
    hide Inv, Alarm, Finish;
    StepKeeps(s, step);
    if step.Complete? && s.checks > 0 {
      SwitchCheck(s, step.reply, step.now, step.cleared);
    }
  }

  lemma SwitchCheck(s: State, reply: Reply, now: int, cleared: bool)
    requires Inv(s) && s.checks > 0
    ensures Apply(s, Complete(reply, now, cleared)).stored.enabled <==>
            s.stored.enabled && !TurnsOff(s, Complete(reply, now, cleared))
  {
    hide Answered, Alarm, Summary, Finish;
    var t := s.(checks := s.checks - 1);
    SameHistory(s, t);
    FinishTripsExactly(t, reply, now, cleared);
  }

  /** The switch is on exactly if the user turned it on, or it was on, and nothing has
      turned it off since. */
  lemma {:induction false} SwitchExactly(s: State, steps: seq<Step>)
    requires Inv(s)
    ensures Run(s, steps).stored.enabled <==> TurnedOn(s, steps) || (s.stored.enabled && NothingTurnsOff(s, steps))
    decreases |steps|
  {
    if steps == [] {
      return;
    }
    hide Inv, TurnsOff, Apply;
    SwitchStep(s, steps[0]);
    SwitchExactly(Apply(s, steps[0]), steps[1..]);
  }

  /** What each action leaves: on means applied, in force, polled and with nothing to
      report; off means Chrome's setting is gone and polling over; an action that fails
      touches none of it, but the daemon's refusal is noted. */
  lemma ActionsLeave(s: State, enabling: Enabling, cleared: bool)
    ensures var t := Apply(s, Enable(enabling));
            var on := t.stored;
            if enabling.Applied? then
              && on.enabled && on.applied && on.chromeSet && t.polling && t.watch == FRESH_WATCH
              && on.trippedAt.None? && on.lastError.None? && on.paired == s.stored.paired
            else
              && t.polling == s.polling && t.watch == s.watch
              && on.enabled == s.stored.enabled && on.applied == s.stored.applied
              && on.chromeSet == s.stored.chromeSet && on.trippedAt == s.stored.trippedAt
              && (on.paired, on.lastError) ==
                 if enabling == NoState(ApiFailure(401)) then (false, Some(TokenRejected))
                 else if enabling == NoState(ApiFailure(403)) then (false, Some(Unpaired))
                 else (s.stored.paired, s.stored.lastError)
    ensures var t := Apply(s, Disable(cleared));
            var off := t.stored;
            if cleared then
              && !off.enabled && !off.applied && !off.chromeSet && !t.polling && t.watch == FRESH_WATCH
              && off.trippedAt == s.stored.trippedAt && off.lastError == s.stored.lastError && off.paired == s.stored.paired
            else t == s
  {
  }

  /** A dismissal forgets the trip and its error and nothing else; a restart keeps what is
      stored, starts counting afresh, and polls exactly if the switch is on. */
  lemma PassiveActionsLeave(s: State)
    ensures var t := Apply(s, Dismiss);
            && t.stored.trippedAt.None? && t.stored.lastError.None?
            && t.stored.enabled == s.stored.enabled && t.stored.chromeSet == s.stored.chromeSet
            && t.stored.applied == s.stored.applied && t.stored.paired == s.stored.paired
            && t.watch == s.watch && t.polling == s.polling && t.checks == s.checks
    ensures var t := Apply(s, Restart);
            t.stored == s.stored && t.watch == FRESH_WATCH && t.checks == 0 && (t.polling <==> s.stored.enabled)
  {
  }

  /** How each answer counts. Only a good one and the two by which the daemon refuses the
      extension are no failure; a timeout is one, but not a refusal; and the refusals are told
      apart and, on a change, take the pairing claim away. */
  lemma AnswersCount(s: State, reply: Reply, now: int, cleared: bool)
    requires Inv(s)
    ensures var r := Finish(s, reply, now, cleared);
            var rejected := reply == ApiFailure(401) || reply == ApiFailure(403);
            var w, was := r.watch, s.watch;
            && (w.failures, w.refusals, w.timeouts) ==
               (if reply == Body(true) || rejected then (0, 0, 0)
                else if reply == Aborted then (was.failures + 1, 0, was.timeouts + 1)
                else (was.failures + 1, was.refusals + 1, 0))
            && (w.lastOk == Some(reply == Body(true)))
            && (w.lastRejection ==
                  if reply == ApiFailure(401) then Some(TokenRejected)
                  else if reply == ApiFailure(403) then Some(Unpaired) else None)
            && (rejected && w.lastRejection != was.lastRejection ==>
                  !r.stored.paired && r.stored.lastError == w.lastRejection)
            && (!rejected ==> r.stored.paired == s.stored.paired)
  {
    hide Answered, Alarm, Summary;
  }

  /** A check asks the daemon exactly if the switch is on. */
  lemma ChecksAsk(s: State)
    ensures Apply(s, BeginCheck).checks == s.checks + if s.stored.enabled then 1 else 0
  {
  }

  // --------------------------------------------------------------- timeouts, reach

  function Power2(n: nat): nat {
    if n == 0 then 1 else 2 * Power2(n - 1)
  }

  function TimeoutBudget(timeouts: nat): nat {
    var budget := HEALTH_TIMEOUT_MS * Power2(timeouts);
    if budget < HEALTH_TIMEOUT_MAX_MS then budget else HEALTH_TIMEOUT_MAX_MS
  }

  lemma {:induction false} PowerGrows(n: nat)
    requires n >= 2
    ensures Power2(n) >= 4
  {
    if n == 2 {
    } else {
      PowerGrows(n - 1);
    }
  }

  /** Each timeout in a row doubles the budget, to the ceiling at the second; any
      other end of a check puts it back. */
  lemma BudgetEscalates(marks: seq<Mark>, mark: Mark)
    ensures var before, after := Trailing(marks, Timeout), Trailing(marks + [mark], Timeout);
            && HEALTH_TIMEOUT_MS <= TimeoutBudget(before) <= HEALTH_TIMEOUT_MAX_MS
            && (mark == Timeout ==>
                  TimeoutBudget(after) == if before < 2 then 2 * TimeoutBudget(before) else HEALTH_TIMEOUT_MAX_MS)
            && (mark != Timeout ==> TimeoutBudget(after) == HEALTH_TIMEOUT_MS)
  {
    OlderMarks(marks, mark);
    var n := Trailing(marks, Timeout);
    if n >= 2 {
      PowerGrows(n);
      PowerGrows(n + 1);
    }
    assert Power2(0) == 1 && Power2(1) == 2 && Power2(2) == 4;
  }

  predicate Reachable(s: State) {
    s.watch.lastOk != Some(false) || s.watch.lastRejection.Some?
  }

  /** The daemon is shown as unreachable exactly when the last check, those that found
      the proxy off aside, failed; except that a rejection still counts as an answer
      only until the next check, whatever that finds. */
  lemma UnreachableExactly(s: State)
    requires Inv(s)
    ensures !Reachable(s) <==> LastOk(s.marks) == Some(false) && !s.marks[|s.marks| - 1].Turned?
  {
  }

  /** Off, not tripped, and too few calls out or failures counted to trip. */
  predicate Settled(s: State) {
    && !s.stored.enabled && s.stored.trippedAt.None?
    && s.checks + s.watch.failures <= 1
    && s.watch.refusals <= s.watch.failures
  }

  lemma SettledStep(s: State, step: Step)
    requires Settled(s) && step != Enable(Applied)
    ensures Settled(Apply(s, step))
  {
  }

  lemma {:induction false} SettledRun(s: State, steps: seq<Step>)
    requires Settled(s) && Enable(Applied) !in steps
    ensures Settled(Run(s, steps))
    decreases |steps|
  {
    hide Settled, Apply;
    if steps == [] {
    } else {
      SettledStep(s, steps[0]);
      SettledRun(Apply(s, steps[0]), steps[1..]);
    }
  }

  /** The daemon not answering, when the proxy has just been turned off. */
  const NO_ANSWER: Step := Complete(OtherFailure, 0, true)

  lemma TwoOutTrip(s: State)
    requires s.checks >= 2 && s.watch == FRESH_WATCH && s.stored.trippedAt.None?
    ensures Run(s, [NO_ANSWER, NO_ANSWER]).stored.trippedAt == Some(0)
    ensures Run(s, [NO_ANSWER, NO_ANSWER]).stored.lastError == Some(DaemonUnreachable)
  {
    RunFirst(s, NO_ANSWER, [NO_ANSWER]);
    RunFirst(Apply(s, NO_ANSWER), NO_ANSWER, []);
    assert [NO_ANSWER] + [NO_ANSWER] == [NO_ANSWER, NO_ANSWER] && [NO_ANSWER] + [] == [NO_ANSWER];
  }

  /** After the user turns the proxy off, the fail-safe stays quiet until they turn it
      on again exactly if no more than one health call was still out. */
  lemma LateTripExactly(s: State)
    requires Inv(s) && s.stored.enabled
    ensures (forall steps :: Enable(Applied) !in steps ==>
                Run(Apply(s, Disable(true)), steps).stored.trippedAt.None?)
            <==> s.checks <= 1
  {
    var off := Apply(s, Disable(true));
    if s.checks <= 1 {
      forall steps | Enable(Applied) !in steps
        ensures Run(off, steps).stored.trippedAt.None?
      {
        SettledRun(off, steps);
      }
    } else {
      TwoOutTrip(off);
      assert Enable(Applied) !in [NO_ANSWER, NO_ANSWER];
    }
  }

  lemma RunFirst(s: State, step: Step, rest: seq<Step>)
    ensures Run(s, [step] + rest) == Run(Apply(s, step), rest)
  {
  }

  // ---------------------------------------------------------------------- the classes

  /** The extension's stored state, and Chrome's proxy setting. */
  class Store {
    var enabled: bool
    var applied: bool
    var trippedAt: Option<int>
    var lastError: Option<Code>
    var paired: bool
    var chromeSet: bool

    ghost function View(): Stored
      reads this
    {
      Stored(enabled, applied, trippedAt, lastError, paired, chromeSet)
    }
  }

  class Monitor {
    const store: Store
    var failures: nat
    var refusals: nat
    var timeouts: nat
    var lastOk: Option<bool>
    var lastRejection: Option<Code>
    var polling: bool
    var checks: nat
    ghost var marks: seq<Mark>
    ghost var trips: seq<Trip>

    ghost function View(): State
      reads this, store
    {
      State(Watch(failures, refusals, timeouts, lastOk, lastRejection), store.View(), polling, checks, marks, trips)
    }

    constructor (store: Store)
      requires store.trippedAt.Some? ==> !store.enabled
      ensures this.store == store
      ensures Fresh(View())
    {
      this.store := store;
      failures, refusals, timeouts, checks := 0, 0, 0, 0;
      lastOk, lastRejection, polling := None, None, store.enabled;
      marks, trips := [], [];
    }

    method ResetCounters()
      modifies this
      ensures View() == Marked(old(View()), Reset)
    {
      failures, refusals, timeouts := 0, 0, 0;
      lastOk, lastRejection := None, None;
      marks := marks + [Reset];
    }

    /** `check` up to the health call; `waiting` says whether one was made. */
    method StartCheck() returns (waiting: bool)
      modifies this
      ensures View() == Apply(old(View()), BeginCheck)
      ensures waiting == store.enabled
    {
      if !store.enabled {
        failures, refusals, timeouts := 0, 0, 0;
        lastRejection := None;
        marks := marks + [Idle];
        return false;
      }
      checks := checks + 1;
      return true;
    }

    /** The rest of `check`, once the health call has ended. */
    method EndCheck(reply: Reply, now: int, cleared: bool) returns (answered: bool)
      requires checks > 0
      modifies this, store
      ensures View() == Apply(old(View()), Complete(reply, now, cleared))
      ensures answered == (reply == Body(true))
    {
      hide AuthCode, WatchAfter, TripNow, NoteRejection;
      checks := checks - 1;
      if reply == Body(true) {
        NoteGood();
        return true;
      }
      var code := AuthCode(reply);
      if reply != Aborted && code.Some? {
        NoteAnswered(code.value);
        return false;
      }
      CountFailure(if reply.Aborted? then Timeout else Refusal);
      if refusals >= REFUSED_THRESHOLD || failures >= UNRESPONSIVE_THRESHOLD {
        TripFailSafe(if refusals >= REFUSED_THRESHOLD then DaemonUnreachable else DaemonUnresponsive, now, cleared);
      }
      return false;
    }

    method NoteGood()
      modifies this
      ensures View() == Marked(old(View()), Good) && failures == 0 && refusals == 0
    {
      lastOk := Some(true);
      failures, refusals, timeouts := 0, 0, 0;
      lastRejection := None;
      marks := marks + [Good];
    }

    method CountFailure(kind: Mark)
      requires kind.Refusal? || kind.Timeout?
      modifies this
      ensures View() == Marked(old(View()), kind)
    {
      lastOk := Some(false);
      lastRejection := None;
      failures := failures + 1;
      if kind.Refusal? {
        refusals := refusals + 1;
        timeouts := 0;
      } else {
        timeouts := timeouts + 1;
        refusals := 0;
      }
      marks := marks + [kind];
    }

    /** The daemon answered with a refusal: no failure, but the pairing claim goes. */
    method NoteAnswered(code: Code)
      modifies this, store
      ensures View() == Marked(old(View()), Turned(code)).(
                stored := if old(lastRejection) == Some(code) then old(store.View()) else NoteRejection(old(store.View()), code))
      ensures failures == 0 && refusals == 0
    {
      lastOk := Some(false);
      failures, refusals, timeouts := 0, 0, 0;
      marks := marks + [Turned(code)];
      RecordRejection(code);
    }

    method RecordRejection(code: Code)
      modifies this, store
      ensures View() == old(View()).(
                watch := old(View()).watch.(lastRejection := Some(code)),
                stored := if old(lastRejection) == Some(code) then old(store.View()) else NoteRejection(old(store.View()), code))
    {
      if lastRejection == Some(code) {
        return;
      }
      lastRejection := Some(code);
      store.paired, store.lastError := false, Some(code);
    }

    method TripFailSafe(reason: Code, now: int, cleared: bool)
      modifies this, store
      ensures View() == TripNow(old(View()), reason, now, cleared)
    {
      trips := trips + [Trip(|marks|, reason, store.enabled || store.trippedAt.None?)];
      if !store.enabled && store.trippedAt.Some? {
        return;
      }
      if cleared {
        store.chromeSet := false;
      }
      store.enabled, store.applied := false, false;
      store.trippedAt, store.lastError := Some(now), Some(reason);
    }
  }

  method EnableProxy(monitor: Monitor, enabling: Enabling) returns (ok: bool)
    modifies monitor, monitor.store
    ensures monitor.View() == Apply(old(monitor.View()), Enable(enabling))
    ensures ok == enabling.Applied?
  {
    var store := monitor.store;
    match enabling {
      case NotControllable =>
        return false;
      case NoState(reply) =>
        var code := AuthCode(reply);
        if code.Some? {
          store.paired, store.lastError := false, code;
        }
        return false;
      case SetFailed =>
        return false;
      case Applied =>
        store.chromeSet := true;
        monitor.ResetCounters();
        store.enabled, store.applied, store.trippedAt, store.lastError := true, true, None, None;
        monitor.polling := true;
        return true;
    }
  }

  /** The popup's dismissal of an error. */
  method DismissError(monitor: Monitor)
    modifies monitor, monitor.store
    ensures monitor.View() == Apply(old(monitor.View()), Dismiss)
  {
    monitor.store.trippedAt, monitor.store.lastError := None, None;
  }

  method DisableProxy(monitor: Monitor, cleared: bool) returns (ok: bool)
    modifies monitor, monitor.store
    ensures monitor.View() == Apply(old(monitor.View()), Disable(cleared))
    ensures ok == cleared
  {
    if !cleared {
      return false;
    }
    var store := monitor.store;
    store.chromeSet := false;
    monitor.polling := false;
    monitor.ResetCounters();
    store.enabled, store.applied := false, false;
    return true;
  }
}
