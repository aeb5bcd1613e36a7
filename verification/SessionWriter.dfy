/** The session writer: the proxy's event loop offers flows to a bounded queue
    and one thread collects, encodes and commits them in batches
    (daemon/src/pporlock/capture/session.py). Each step touches what the two threads
    share once: an enqueue is its test of the cap and then its put, with anything in
    between. A run is any interleaving of steps. */
module SessionWriter {
  import opened Seqs

  type FlowId = string
  type Note = string

  /** One redacted flow, flattened: what one INSERT writes. `ticket` numbers the
      enqueue call it came from. */
  datatype Row = Row(ticket: nat, flow: FlowId, seqNo: nat, content: string, notes: seq<Note>, bytes: nat)

  datatype Item = Flow(ticket: nat, id: FlowId) | Sentinel

  datatype Phase = Collecting | Flushing | Exited

  /** One finished flush: its rows, and whether SQLite took them. */
  datatype Flushed = Flushed(rows: seq<Row>, ok: bool)

  /** `queueMax == 0` is Python's unbounded queue. */
  datatype Config = Config(queueMax: nat, batchSize: nat, maxBytes: nat)

  datatype State = State(
    queue: seq<Item>,
    batch: seq<Item>,        // collected, not yet encoded
    encoded: seq<Row>,       // encoded, not yet committed
    phase: Phase,
    done: bool,              // the sentinel has been taken
    capped: bool,
    dropped: nat,
    seqNo: nat,
    bytesWritten: nat,
    stopping: bool,          // the sentinel has been put
    hand: Option<FlowId>,    // an enqueue call past its test, about to put
    offered: nat,            // enqueue calls finished so far
    late: nat,               // of those, queued behind the sentinel
    flushes: seq<Flushed>)     // every flush that had rows, in order

  const START := State([], [], [], Collecting, false, false, 0, 0, 0, false, None, 0, 0, [])

  /** `EncodeNext` carries what redaction and encoding made of the record. */
  datatype Step =
    | TestCap(id: FlowId)
    | PutFlow
    | PutSentinel
    | Take
    | StopCollecting
    | EncodeNext(content: string, notes: seq<Note>, bytes: nat)
    | Commit(ok: bool)

  predicate Full(c: Config, s: State) {
    c.queueMax > 0 && |s.queue| >= c.queueMax
  }

  function Drop(s: State, n: nat): State {
    s.(dropped := s.dropped + n)
  }

  /** One step; a step that is not possible yet (the queue is full, the thread is
      elsewhere) changes nothing. */
  function Apply(c: Config, s: State, step: Step): State {
    match step
    case TestCap(id) =>
      if s.hand.Some? then s
      else if s.capped then Drop(s.(offered := s.offered + 1), 1)
      else s.(hand := Some(id))
    case PutFlow =>
      if s.hand.None? then s
      else
        var t := s.(hand := None, offered := s.offered + 1);
        if Full(c, s) then Drop(t, 1)
        else t.(queue := s.queue + [Flow(s.offered, s.hand.value)], late := if s.stopping then s.late + 1 else s.late)
    case PutSentinel =>
      if s.stopping || Full(c, s) then s
      else s.(queue := s.queue + [Sentinel], stopping := true)
    case Take =>
      if s.phase != Collecting || |s.batch| >= c.batchSize || s.queue == [] then s
      else if s.queue[0] == Sentinel then s.(queue := s.queue[1..], done := true, phase := Flushing)
      else s.(queue := s.queue[1..], batch := s.batch + [s.queue[0]])
    case StopCollecting =>
      if s.phase == Collecting then s.(phase := Flushing) else s
    case EncodeNext(content, notes, bytes) =>
      if s.phase != Flushing || s.batch == [] || s.batch[0] == Sentinel then s
      else if s.capped then Drop(s.(batch := s.batch[1..]), 1)
      else
        var row := Row(s.batch[0].ticket, s.batch[0].id, s.seqNo + 1, content, notes, bytes);
        var total := s.bytesWritten + bytes;
        s.(batch := s.batch[1..], encoded := s.encoded + [row], seqNo := s.seqNo + 1,
           bytesWritten := total, capped := total >= c.maxBytes)
    case Commit(ok) =>
      if s.phase != Flushing || s.batch != [] then s
      else
        var t := s.(encoded := [], phase := if s.done then Exited else Collecting);
        if s.encoded == [] then t
        else
          var u := t.(flushes := s.flushes + [Flushed(s.encoded, ok)]);
          if ok then u else Drop(u, |s.encoded|)
  }

  function Run(c: Config, steps: seq<Step>): State {
    if steps == [] then START
    else Apply(c, Run(c, steps[..|steps| - 1]), steps[|steps| - 1])
  }

  // --------------------------------------------------------- derived histories

  /** All rows ever flushed, whether or not SQLite took them. */
  function FlushedRows(fs: seq<Flushed>): seq<Row> {
    if fs == [] then [] else FlushedRows(fs[..|fs| - 1]) + fs[|fs| - 1].rows
  }

  /** The batches SQLite took. */
  function Committed(fs: seq<Flushed>): seq<seq<Row>> {
    if fs == [] then []
    else
      var last := fs[|fs| - 1];
      Committed(fs[..|fs| - 1]) + (if last.ok then [last.rows] else [])
  }

  function Flatten(bs: seq<seq<Row>>): seq<Row> {
    if bs == [] then [] else Flatten(bs[..|bs| - 1]) + bs[|bs| - 1]
  }

  /** The rows in the session file's log, oldest first. */
  function Log(s: State): seq<Row> {
    Flatten(Committed(s.flushes))
  }

  /** Every row ever encoded, oldest first. */
  function Accepted(s: State): seq<Row> {
    FlushedRows(s.flushes) + s.encoded
  }

  function Bytes(rows: seq<Row>): nat {
    if rows == [] then 0 else Bytes(rows[..|rows| - 1]) + rows[|rows| - 1].bytes
  }

  /** How many flows wait in the queue. */
  function Queued(q: seq<Item>): nat {
    if q == [] then 0 else (if q[0] == Sentinel then 0 else 1) + Queued(q[1..])
  }

  function Ticket(x: Item): int {
    if x == Sentinel then -1 else x.ticket
  }

  /** Tickets of flows only grow along the sequence, and stay in `[lo, hi)`. */
  predicate Ordered(q: seq<Item>, lo: nat, hi: nat) {
    && (forall i :: 0 <= i < |q| && q[i] != Sentinel ==> lo <= Ticket(q[i]) < hi)
    && (forall i, j :: 0 <= i < j < |q| && q[i] != Sentinel && q[j] != Sentinel ==> Ticket(q[i]) < Ticket(q[j]))
  }

  /** Where the sentinel stands relative to the flows queued after it. */
  predicate SentinelPlace(s: State) {
    if s.stopping && !s.done then
      && |s.queue| > s.late
      && s.queue[|s.queue| - s.late - 1] == Sentinel
      && (forall i :: 0 <= i < |s.queue| && i != |s.queue| - s.late - 1 ==> s.queue[i] != Sentinel)
    else
      && Sentinel !in s.queue
      && (s.done ==> s.stopping && s.late == |s.queue|)
      && (!s.stopping ==> s.late == 0)
  }

  /** Nothing is lost uncounted. */
  predicate Counted(s: State) {
    s.offered == |Log(s)| + s.dropped + |s.batch| + |s.encoded| + Queued(s.queue)
  }

  /** What the thread may be holding in each of its phases. */
  predicate Threaded(c: Config, s: State) {
    && Sentinel !in s.batch
    && |s.batch| + |s.encoded| <= c.batchSize
    && (s.phase == Collecting ==> s.encoded == [] && !s.done)
    && (s.phase == Exited ==> s.encoded == [] && s.batch == [] && s.done)
    && (c.queueMax > 0 ==> |s.queue| <= c.queueMax)
    && SentinelPlace(s)
  }

  /** Sequence numbers count the accepted rows, and the byte cap has stopped
      acceptance as soon as it was reached. */
  predicate Metered(c: Config, rows: seq<Row>, seqNo: nat, bytes: nat, capped: bool) {
    && seqNo == |rows|
    && bytes == Bytes(rows)
    && (capped <==> rows != [] && bytes >= c.maxBytes)
    && (forall i :: 0 <= i < |rows| ==> rows[i].seqNo == i + 1)
    && (forall i :: 0 < i < |rows| ==> Bytes(rows[..i]) < c.maxBytes)
  }

  /** The first ticket past everything encoded so far. */
  function Mark(rows: seq<Row>): nat {
    if rows == [] then 0 else rows[|rows| - 1].ticket + 1
  }

  /** First in, first out, each at most once. */
  predicate InOrder(rows: seq<Row>, waiting: seq<Item>, offered: nat) {
    && (forall i, j :: 0 <= i < j < |rows| ==> rows[i].ticket < rows[j].ticket)
    && Mark(rows) <= offered
    && Ordered(waiting, Mark(rows), offered)
  }

  /** A run is its steps, one after another. */
  lemma RunGoesOn(c: Config, steps: seq<Step>, step: Step)
    ensures Run(c, []) == START && Run(c, steps + [step]) == Apply(c, Run(c, steps), step)
  {
    assert (steps + [step])[..|steps|] == steps;
  }

  /** What every interleaving keeps. */
  predicate Inv(c: Config, s: State) {
    && Counted(s)
    && Threaded(c, s)
    && Metered(c, Accepted(s), s.seqNo, s.bytesWritten, s.capped)
    && InOrder(Accepted(s), s.batch + s.queue, s.offered)
  }

  // ------------------------------------------------------------------- proofs

  lemma {:induction false} QueuedConcat(a: seq<Item>, b: seq<Item>)
    ensures Queued(a + b) == Queued(a) + Queued(b)
  {
    if a == [] {
      assert a + b == b;
    } else {
      assert (a + b)[1..] == a[1..] + b;
      QueuedConcat(a[1..], b);
    }
  }

  lemma {:induction false} QueuedAll(q: seq<Item>)
    requires Sentinel !in q
    ensures Queued(q) == |q|
  {
    if q == [] {
    } else {
      QueuedAll(q[1..]);
    }
  }

  lemma FlushAppends(fs: seq<Flushed>, f: Flushed)
    ensures FlushedRows(fs + [f]) == FlushedRows(fs) + f.rows
    ensures Flatten(Committed(fs + [f])) == Flatten(Committed(fs)) + (if f.ok then f.rows else [])
  {
    assert (fs + [f])[..|fs|] == fs;
    if f.ok {
      var bs := Committed(fs);
      assert (bs + [f.rows])[..|bs|] == bs;
    } else {
      assert Committed(fs) + [] == Committed(fs);
    }
  }

  /** Whether a step accepts one more record: the thread encodes and is not capped. */
  predicate Accepts(s: State, step: Step) {
    step.EncodeNext? && s.phase == Flushing && s.batch != [] && s.batch[0] != Sentinel && !s.capped
  }

  /** The row an accepting step appends. */
  function NextRow(s: State, step: Step): Row
    requires Accepts(s, step)
  {
    Row(s.batch[0].ticket, s.batch[0].id, s.seqNo + 1, step.content, step.notes, step.bytes)
  }

  /** A commit moves the encoded rows to the flushes, and to the log if it succeeds. */
  lemma CommitMoves(c: Config, s: State, ok: bool)
    requires s.phase == Flushing && s.batch == []
    ensures var t := Apply(c, s, Commit(ok));
            Accepted(t) == Accepted(s) && Log(t) == Log(s) + (if ok then s.encoded else [])
  {
    hide FlushedRows, Committed, Flatten;
    if s.encoded != [] {
      FlushAppends(s.flushes, Flushed(s.encoded, ok));
    } else {
      assert Log(s) + [] == Log(s);
    }
  }

  /** No other step touches the flushes, and one kind appends an encoded row. */
  lemma OthersLeave(c: Config, s: State, step: Step)
    requires !(step.Commit? && s.phase == Flushing && s.batch == [])
    ensures var t := Apply(c, s, step);
            && t.flushes == s.flushes
            && t.encoded == s.encoded + (if Accepts(s, step) then [NextRow(s, step)] else [])
  {
  }

  /** The accepted rows and the log change in just two places. */
  lemma Histories(c: Config, s: State, step: Step)
    ensures var t := Apply(c, s, step);
            && Accepted(t) == Accepted(s) +
                 (if Accepts(s, step) then [NextRow(s, step)] else [])
            && |Log(t)| == |Log(s)| +
                 (if step == Commit(true) && s.phase == Flushing && s.batch == [] then |s.encoded| else 0)
  {
    hide FlushedRows, Committed, Flatten, Apply;
    if step.Commit? && s.phase == Flushing && s.batch == [] {
      CommitMoves(c, s, step.ok);
      assert Accepted(s) + [] == Accepted(s);
    } else {
      OthersLeave(c, s, step);
    }
  }

  lemma QueuedSnoc(q: seq<Item>, x: Item)
    ensures Queued(q + [x]) == Queued(q) + if x == Sentinel then 0 else 1
  {
    QueuedConcat(q, [x]);
  }

  lemma QueuedFirst(q: seq<Item>)
    requires q != []
    ensures Queued(q) == Queued(q[1..]) + if q[0] == Sentinel then 0 else 1
  {
  }

  lemma CountedOnPut(c: Config, s: State)
    requires Counted(s)
    ensures Counted(Apply(c, s, PutFlow)) && Counted(Apply(c, s, PutSentinel))
  {
    hide Queued, FlushedRows, Committed, Flatten;
    QueuedSnoc(s.queue, Sentinel);
    if s.hand.Some? {
      QueuedSnoc(s.queue, Flow(s.offered, s.hand.value));
    }
  }

  lemma CountedOnTake(c: Config, s: State)
    requires Counted(s)
    ensures Counted(Apply(c, s, Take))
  {
    hide Queued, FlushedRows, Committed, Flatten;
    if s.queue != [] {
      QueuedFirst(s.queue);
    }
  }

  lemma CountedOnRest(c: Config, s: State, step: Step)
    requires Counted(s) && !step.PutFlow? && !step.PutSentinel? && !step.Take?
    ensures Counted(Apply(c, s, step))
  {
    Histories(c, s, step);
    hide Queued, Log;
  }

  lemma CountedKeeps(c: Config, s: State, step: Step)
    requires Counted(s)
    ensures Counted(Apply(c, s, step))
  {
    hide Counted, Apply;
    match step
    case PutFlow => CountedOnPut(c, s);
    case PutSentinel => CountedOnPut(c, s);
    case Take => CountedOnTake(c, s);
    case _ => CountedOnRest(c, s, step);
  }

  lemma SentinelOnTake(c: Config, s: State)
    requires Threaded(c, s)
    ensures SentinelPlace(Apply(c, s, Take))
  {
    var t := Apply(c, s, Take);
    if t.queue != s.queue {
      assert forall i :: 0 <= i < |t.queue| ==> t.queue[i] == s.queue[i + 1];
      assert s.queue[0] in s.queue;
    }
  }

  lemma SentinelOnPut(c: Config, s: State)
    requires Threaded(c, s)
    ensures SentinelPlace(Apply(c, s, PutFlow)) && SentinelPlace(Apply(c, s, PutSentinel))
  {
  }

  lemma SentinelOnRest(c: Config, s: State, step: Step)
    requires Threaded(c, s) && !step.PutFlow? && !step.PutSentinel? && !step.Take?
    ensures SentinelPlace(Apply(c, s, step))
  {
  }

  lemma ThreadedKeeps(c: Config, s: State, step: Step)
    requires Threaded(c, s)
    ensures Threaded(c, Apply(c, s, step))
  {
    assert SentinelPlace(Apply(c, s, step)) by {
      hide Apply, Threaded, SentinelPlace;
      match step
      case PutFlow => SentinelOnPut(c, s);
      case PutSentinel => SentinelOnPut(c, s);
      case Take => SentinelOnTake(c, s);
      case _ => SentinelOnRest(c, s, step);
    }
    hide SentinelPlace;
  }

  lemma MeteredSnoc(c: Config, was: seq<Row>, row: Row, seqNo: nat, bytes: nat)
    requires Metered(c, was, seqNo, bytes, false)
    requires row.seqNo == seqNo + 1
    ensures Metered(c, was + [row], seqNo + 1, bytes + row.bytes, bytes + row.bytes >= c.maxBytes)
  {
    var rows := was + [row];
    assert rows[..|was|] == was;
    forall i | 0 < i < |rows|
      ensures Bytes(rows[..i]) < c.maxBytes
    {
      assert rows[..i] == was[..i];
      if i == |was| {
        assert was[..i] == was;
      }
    }
  }

  lemma Meters(c: Config, s: State, step: Step)
    ensures var t := Apply(c, s, step);
            if Accepts(s, step) then
              && t.seqNo == s.seqNo + 1
              && t.bytesWritten == s.bytesWritten + step.bytes
              && t.capped == (s.bytesWritten + step.bytes >= c.maxBytes)
            else
              t.seqNo == s.seqNo && t.bytesWritten == s.bytesWritten && t.capped == s.capped
  {
  }

  lemma MeteredKeeps(c: Config, s: State, step: Step)
    requires Metered(c, Accepted(s), s.seqNo, s.bytesWritten, s.capped)
    ensures var t := Apply(c, s, step); Metered(c, Accepted(t), t.seqNo, t.bytesWritten, t.capped)
  {
    hide Apply, Accepted, Metered;
    var t := Apply(c, s, step);
    var was, now := Accepted(s), Accepted(t);
    Histories(c, s, step);
    Meters(c, s, step);
    if Accepts(s, step) {
      MeteredSnoc(c, was, NextRow(s, step), s.seqNo, s.bytesWritten);
    } else {
      assert now == was;
    }
  }

  lemma InOrderSnoc(rows: seq<Row>, row: Row, waiting: seq<Item>, offered: nat)
    requires InOrder(rows, waiting, offered)
    requires waiting != [] && waiting[0] != Sentinel && row.ticket == waiting[0].ticket
    ensures InOrder(rows + [row], waiting[1..], offered)
  {
  }

  lemma InOrderOnEncode(c: Config, s: State, step: Step)
    requires step.EncodeNext?
    requires InOrder(Accepted(s), s.batch + s.queue, s.offered)
    ensures var t := Apply(c, s, step); InOrder(Accepted(t), t.batch + t.queue, t.offered)
  {
    Histories(c, s, step);
    var t := Apply(c, s, step);
    var was := s.batch + s.queue;
    if t != s {
      assert was[0] == s.batch[0];
      assert t.batch + t.queue == was[1..];
      if Accepts(s, step) {
        InOrderSnoc(Accepted(s), NextRow(s, step), was, s.offered);
      } else {
        OrderedTail(was, Mark(Accepted(s)), s.offered);
      }
    }
  }

  lemma InOrderPop(rows: seq<Row>, batch: seq<Item>, queue: seq<Item>, offered: nat)
    requires InOrder(rows, batch + queue, offered) && queue != []
    ensures InOrder(rows, batch + [queue[0]] + queue[1..], offered)
    ensures InOrder(rows, batch + queue[1..], offered)
  {
    hide Ordered;
    OrderedWithout(batch + queue, |batch|, Mark(rows), offered);
    assert batch + [queue[0]] + queue[1..] == batch + queue;
    assert batch + queue[1..] == (batch + queue)[..|batch|] + (batch + queue)[|batch| + 1..];
  }

  lemma InOrderOnTake(c: Config, s: State)
    requires InOrder(Accepted(s), s.batch + s.queue, s.offered)
    ensures var t := Apply(c, s, Take); InOrder(Accepted(t), t.batch + t.queue, t.offered)
  {
    hide InOrder;
    assert Accepted(Apply(c, s, Take)) == Accepted(s);
    if s.queue != [] {
      InOrderPop(Accepted(s), s.batch, s.queue, s.offered);
    }
  }

  lemma InOrderPush(rows: seq<Row>, batch: seq<Item>, queue: seq<Item>, x: Item, offered: nat, offered': nat)
    requires InOrder(rows, batch + queue, offered) && offered <= offered'
    requires x == Sentinel || offered <= x.ticket < offered'
    ensures InOrder(rows, batch + (queue + [x]), offered')
    ensures InOrder(rows, batch + queue, offered')
  {
    hide Ordered;
    OrderedSnoc(batch + queue, x, Mark(rows), offered, offered');
    OrderedLater(batch + queue, Mark(rows), offered, offered');
    assert batch + (queue + [x]) == batch + queue + [x];
  }

  lemma OrderedLater(q: seq<Item>, lo: nat, hi: nat, hi': nat)
    requires Ordered(q, lo, hi) && hi <= hi'
    ensures Ordered(q, lo, hi')
  {
  }

  lemma InOrderOnPut(c: Config, s: State, step: Step)
    requires step.TestCap? || step.PutFlow? || step.PutSentinel?
    requires InOrder(Accepted(s), s.batch + s.queue, s.offered)
    ensures var t := Apply(c, s, step); InOrder(Accepted(t), t.batch + t.queue, t.offered)
  {
    hide InOrder;
    var t := Apply(c, s, step);
    assert Accepted(t) == Accepted(s);
    var x := if step.PutFlow? && s.hand.Some? then Flow(s.offered, s.hand.value) else Sentinel;
    InOrderPush(Accepted(s), s.batch, s.queue, x, s.offered, t.offered);
  }

  lemma InOrderKeeps(c: Config, s: State, step: Step)
    requires InOrder(Accepted(s), s.batch + s.queue, s.offered)
    ensures var t := Apply(c, s, step); InOrder(Accepted(t), t.batch + t.queue, t.offered)
  {
    hide InOrder;
    match step
    case TestCap(_) => InOrderOnPut(c, s, step);
    case PutFlow => InOrderOnPut(c, s, step);
    case PutSentinel => InOrderOnPut(c, s, step);
    case Take => InOrderOnTake(c, s);
    case EncodeNext(_, _, _) => InOrderOnEncode(c, s, step);
    case StopCollecting => InOrderOnRest(c, s, step);
    case Commit(_) => InOrderOnRest(c, s, step);
  }

  lemma InOrderOnRest(c: Config, s: State, step: Step)
    requires step.StopCollecting? || step.Commit?
    requires InOrder(Accepted(s), s.batch + s.queue, s.offered)
    ensures var t := Apply(c, s, step); InOrder(Accepted(t), t.batch + t.queue, t.offered)
  {
    hide InOrder;
    Histories(c, s, step);
    var t := Apply(c, s, step);
    assert t.batch == s.batch && t.queue == s.queue;
    assert Accepted(t) == Accepted(s);
  }

  lemma OrderedTail(q: seq<Item>, lo: nat, hi: nat)
    requires q != [] && q[0] != Sentinel && Ordered(q, lo, hi)
    ensures lo <= q[0].ticket
    ensures Ordered(q[1..], q[0].ticket + 1, hi) && Ordered(q[1..], lo, hi)
  {
  }

  lemma OrderedSnoc(q: seq<Item>, x: Item, lo: nat, hi: nat, hi': nat)
    requires Ordered(q, lo, hi) && lo <= hi <= hi'
    requires x == Sentinel || hi <= x.ticket < hi'
    ensures Ordered(q + [x], lo, hi')
  {
  }

  lemma OrderedWithout(q: seq<Item>, k: nat, lo: nat, hi: nat)
    requires k < |q| && Ordered(q, lo, hi)
    ensures Ordered(q[..k] + q[k + 1..], lo, hi)
  {
  }

  lemma StepKeeps(c: Config, s: State, step: Step)
    requires Inv(c, s)
    ensures Inv(c, Apply(c, s, step))
  {
    hide Apply, Counted, Threaded, Metered, InOrder;
    CountedKeeps(c, s, step);
    ThreadedKeeps(c, s, step);
    MeteredKeeps(c, s, step);
    InOrderKeeps(c, s, step);
  }

  /** Every interleaving keeps the invariant. */
  lemma {:induction false} RunKeeps(c: Config, steps: seq<Step>)
    ensures Inv(c, Run(c, steps))
  {
    if steps == [] {
    } else {
      hide Inv, Apply;
      RunKeeps(c, steps[..|steps| - 1]);
      StepKeeps(c, Run(c, steps[..|steps| - 1]), steps[|steps| - 1]);
    }
  }

  // ------------------------------------------------------------- what it means

  /** At every moment of every run, each finished enqueue call is accounted for once:
      committed, counted as dropped, in the thread's hands, or still queued. */
  lemma NothingLostUncounted(c: Config, steps: seq<Step>)
    ensures var s := Run(c, steps);
            s.offered == |Log(s)| + s.dropped + |s.batch| + |s.encoded| + Queued(s.queue)
  {
    RunKeeps(c, steps);
  }

  /** Once the thread has exited, the only flows not committed or counted are
      those queued after the sentinel. */
  lemma AtExit(c: Config, steps: seq<Step>)
    requires Run(c, steps).phase == Exited
    ensures var s := Run(c, steps);
            s.offered == |Log(s)| + s.dropped + s.late
  {
    RunKeeps(c, steps);
    QueuedAll(Run(c, steps).queue);
  }

  /** The byte cap: everything accepted before the last record stayed below it,
      acceptance stops for good at the cap, and the thread's batches are bounded. */
  lemma CapHolds(c: Config, steps: seq<Step>)
    ensures var s := Run(c, steps);
            var rows := Accepted(s);
            && (|rows| > 1 ==> Bytes(rows[..|rows| - 1]) < c.maxBytes)
            && (s.capped <==> rows != [] && Bytes(rows) >= c.maxBytes)
            && |s.batch| + |s.encoded| <= c.batchSize
            && (c.queueMax > 0 ==> |s.queue| <= c.queueMax)
  {
    RunKeeps(c, steps);
  }

  /** Enqueue calls past the test of the cap: none or one. */
  function InHand(s: State): nat {
    if s.hand.Some? then 1 else 0
  }

  /** Once capped, no step ever accepts another record, and nothing more is queued but
      the flow of a call that was already past its test. */
  lemma CappedIsFinal(c: Config, s: State, step: Step)
    requires s.capped
    ensures var t := Apply(c, s, step);
            && t.capped && Accepted(t) == Accepted(s)
            && Queued(t.queue) + InHand(t) <= Queued(s.queue) + InHand(s)
  {
    hide FlushedRows, Committed, Flatten;
    Histories(c, s, step);
    if step.PutSentinel? {
      QueuedConcat(s.queue, [Sentinel]);
    } else if step.PutFlow? && s.hand.Some? {
      QueuedConcat(s.queue, [Flow(s.offered, s.hand.value)]);
    }
  }

  /** A step queues a flow exactly if it is the put of a call past its test that finds
      room; and once capped no call gets past its test. */
  lemma QueuesExactly(c: Config, s: State, step: Step)
    ensures var t := Apply(c, s, step);
            && (Queued(t.queue) > Queued(s.queue) <==>
                  step.PutFlow? && s.hand.Some? && (c.queueMax == 0 || |s.queue| < c.queueMax))
            && (Queued(t.queue) > Queued(s.queue) ==> t.queue == s.queue + [Flow(s.offered, s.hand.value)])
            && (s.capped && t.hand.Some? ==> s.hand == t.hand && step != PutFlow)
  {
    if step.PutSentinel? {
      QueuedConcat(s.queue, [Sentinel]);
    } else if step.PutFlow? && s.hand.Some? {
      QueuedConcat(s.queue, [Flow(s.offered, s.hand.value)]);
    }
  }

  /** The sentinel is put once, as soon as there is room for it; until then asking to stop
      changes nothing. */
  lemma SentinelExactly(c: Config, s: State)
    ensures var t := Apply(c, s, PutSentinel);
            var room := c.queueMax == 0 || |s.queue| < c.queueMax;
            && (t.stopping <==> s.stopping || room)
            && t == if !s.stopping && room then s.(queue := s.queue + [Sentinel], stopping := true) else s
  {
  }

  /** That call really can: the cap is reached between its test and its put. */
  lemma QueuedAfterCap(c: Config, s: State, id: FlowId, e: Encoding)
    requires s.hand.None? && !s.capped && (c.queueMax == 0 || |s.queue| < c.queueMax)
    requires s.phase == Flushing && s.batch != [] && s.batch[0] != Sentinel && s.bytesWritten + e.bytes >= c.maxBytes
    ensures var capped := Apply(c, Apply(c, s, TestCap(id)), EncodeNext(e.content, e.notes, e.bytes));
            capped.capped && Apply(c, capped, PutFlow).queue == s.queue + [Flow(s.offered, id)]
  {
  }

  predicate Rising(rows: seq<Row>) {
    forall i, j :: 0 <= i < j < |rows| ==> rows[i].seqNo < rows[j].seqNo && rows[i].ticket < rows[j].ticket
  }

  lemma RisingConcat(a: seq<Row>, b: seq<Row>)
    requires Rising(a) && Rising(b)
    requires forall x, y :: x in a && y in b ==> x.seqNo < y.seqNo && x.ticket < y.ticket
    ensures Rising(a + b)
  {
  }

  lemma RisingSplit(a: seq<Row>, b: seq<Row>)
    requires Rising(a + b)
    ensures Rising(a) && Rising(b)
    ensures forall x, y :: x in a && y in b ==> x.seqNo < y.seqNo && x.ticket < y.ticket
  {
    var all := a + b;
    assert forall i :: 0 <= i < |a| ==> all[i] == a[i];
    assert forall i :: 0 <= i < |b| ==> all[|a| + i] == b[i];
  }

  lemma {:induction false} CommittedRises(fs: seq<Flushed>)
    requires Rising(FlushedRows(fs))
    ensures Rising(Flatten(Committed(fs)))
    ensures forall r :: r in Flatten(Committed(fs)) ==> r in FlushedRows(fs)
  {
    if fs == [] {
    } else {
      var before, f := fs[..|fs| - 1], fs[|fs| - 1];
      assert fs == before + [f];
      FlushAppends(before, f);
      hide FlushedRows, Committed, Flatten, Rising;
      RisingSplit(FlushedRows(before), f.rows);
      CommittedRises(before);
      if f.ok {
        RisingConcat(Flatten(Committed(before)), f.rows);
      }
    }
  }

  /** The file's log is in the order the flows were offered, with sequence numbers
      that only grow, so no record is written twice and none overtakes another. */
  lemma LogRises(c: Config, steps: seq<Step>)
    ensures Rising(Log(Run(c, steps)))
  {
    RunKeeps(c, steps);
    var s := Run(c, steps);
    var n := |FlushedRows(s.flushes)|;
    assert forall i :: 0 <= i < n ==> FlushedRows(s.flushes)[i] == Accepted(s)[i];
    CommittedRises(s.flushes);
  }

  // ------------------------------------------------------------- the writer

  datatype Encoding = Encoding(content: string, notes: seq<Note>, bytes: nat)

  /** What collecting comes to when `budget` items arrive before the deadline. */
  function Collected(c: Config, s: State, budget: nat): State
    decreases budget
  {
    if s.phase != Collecting || |s.batch| >= c.batchSize || budget == 0 || s.queue == [] then
      Apply(c, s, StopCollecting)
    else
      Collected(c, Apply(c, s, Take), budget - 1)
  }

  /** What encoding the first `n` collected records comes to. */
  function Encoded(c: Config, s: State, encode: nat -> Encoding, n: nat): State {
    if n == 0 then s
    else
      var t := Encoded(c, s, encode, n - 1);
      if t.batch == [] || t.batch[0] == Sentinel then t
      else
        var e := encode(t.batch[0].ticket);
        Apply(c, t, EncodeNext(e.content, e.notes, e.bytes))
  }

  /** How many items one gathering takes: what is queued before the sentinel, within
      the batch and the time. */
  predicate Gathers(c: Config, s: State, budget: nat, k: nat) {
    && k <= |s.queue| && k <= budget && (k == 0 || |s.batch| + k <= c.batchSize)
    && Sentinel !in s.queue[..k]
    && (k == |s.queue| || k == budget || |s.batch| + k >= c.batchSize || s.queue[k] == Sentinel)
  }

  /** The sentinel came next, with time and room left to see it. */
  predicate MeetsSentinel(c: Config, s: State, budget: nat, k: nat) {
    k < |s.queue| && k < budget && |s.batch| + k < c.batchSize && s.queue[k] == Sentinel
  }

  /** `t` is `s` after one gathering. */
  ghost predicate IsCollect(c: Config, s: State, budget: nat, t: State) {
    exists k: nat :: Gathers(c, s, budget, k) && t == AfterTaking(c, s, budget, k)
  }

  function AfterTaking(c: Config, s: State, budget: nat, k: nat): State
    requires Gathers(c, s, budget, k)
  {
    var last := MeetsSentinel(c, s, budget, k);
    s.(batch := s.batch + s.queue[..k], queue := s.queue[if last then k + 1 else k..],
       done := s.done || last, phase := Flushing)
  }

  lemma TakeFlow(c: Config, s: State, budget: nat, k: nat)
    requires s.phase == Collecting && |s.batch| < c.batchSize && s.queue != [] && s.queue[0] != Sentinel
    requires Gathers(c, Apply(c, s, Take), budget, k)
    ensures Gathers(c, s, budget + 1, k + 1)
    ensures AfterTaking(c, s, budget + 1, k + 1) == AfterTaking(c, Apply(c, s, Take), budget, k)
  {
    var t := Apply(c, s, Take);
    TakeIs(c, s);
    hide Apply;
    assert s.queue == [s.queue[0]] + t.queue;
    assert s.queue[..k + 1] == [s.queue[0]] + t.queue[..k];
    assert Gathers(c, s, budget + 1, k + 1);
    hide Gathers;
    assert MeetsSentinel(c, s, budget + 1, k + 1) == MeetsSentinel(c, t, budget, k);
    hide MeetsSentinel;
    assert s.batch + s.queue[..k + 1] == t.batch + t.queue[..k];
    assert s.queue[k + 1..] == t.queue[k..];
    assert k < |t.queue| ==> s.queue[k + 2..] == t.queue[k + 1..];
  }

  lemma TakeIs(c: Config, s: State)
    requires s.phase == Collecting && |s.batch| < c.batchSize && s.queue != [] && s.queue[0] != Sentinel
    ensures Apply(c, s, Take) == s.(queue := s.queue[1..], batch := s.batch + [s.queue[0]])
  {
  }

  lemma NothingTaken(c: Config, s: State, budget: nat)
    requires s.phase == Collecting
    requires |s.batch| >= c.batchSize || budget == 0 || s.queue == [] || s.queue[0] == Sentinel
    ensures Gathers(c, s, budget, 0) && Collected(c, s, budget) == AfterTaking(c, s, budget, 0)
  {
    assert s.queue[..0] == [] && s.batch + [] == s.batch && s.queue[0..] == s.queue;
    if MeetsSentinel(c, s, budget, 0) {
      var taken := Apply(c, s, Take);
      assert Collected(c, s, budget) == Collected(c, taken, budget - 1) == Apply(c, taken, StopCollecting);
    }
  }

  lemma CollectedOn(c: Config, s: State, budget: nat)
    requires s.phase == Collecting && |s.batch| < c.batchSize && budget > 0 && s.queue != [] && s.queue[0] != Sentinel
    ensures Collected(c, s, budget) == Collected(c, Apply(c, s, Take), budget - 1) && Apply(c, s, Take).phase == Collecting
  {
  }

  /** Everything that is there is taken, in order, and the sentinel is seen if it comes next. */
  lemma {:induction false} CollectedIs(c: Config, s: State, budget: nat)
    requires s.phase == Collecting
    ensures IsCollect(c, s, budget, Collected(c, s, budget))
    decreases budget
  {
    if |s.batch| >= c.batchSize || budget == 0 || s.queue == [] || s.queue[0] == Sentinel {
      NothingTaken(c, s, budget);
    } else {
      hide Collected, AfterTaking, Gathers, Apply;
      var taken, t := Apply(c, s, Take), Collected(c, s, budget);
      CollectedOn(c, s, budget);
      CollectedIs(c, taken, budget - 1);
      var k: nat :| Gathers(c, taken, budget - 1, k) && t == AfterTaking(c, taken, budget - 1, k);
      TakeFlow(c, s, budget - 1, k);
    }
  }

  /** Of a batch, the rows that are accepted: one for each flow of the shortest prefix that
      reaches the cap, or of the whole batch, or none once capped; numbered on from `s`,
      with what encoding made of each. */
  predicate Takes(c: Config, s: State, batch: seq<Item>, encode: nat -> Encoding, rows: seq<Row>) {
    && |rows| <= |batch|
    && (forall i :: 0 <= i < |rows| ==>
          && batch[i] != Sentinel
          && (var e := encode(batch[i].ticket);
              rows[i] == Row(batch[i].ticket, batch[i].id, s.seqNo + i + 1, e.content, e.notes, e.bytes)))
    && (s.capped ==> rows == [])
    && (!s.capped ==> forall i :: 0 < i < |rows| ==> s.bytesWritten + Bytes(rows[..i]) < c.maxBytes)
    && (!s.capped && |rows| < |batch| ==> rows != [] && s.bytesWritten + Bytes(rows) >= c.maxBytes)
  }

  /** The state once just those rows of `batch` have been accepted and the others dropped. */
  function AfterEncoding(c: Config, s: State, batch: seq<Item>, rows: seq<Row>): State
    requires |rows| <= |batch|
  {
    var total := s.bytesWritten + Bytes(rows);
    s.(encoded := rows, seqNo := s.seqNo + |rows|, bytesWritten := total,
       capped := s.capped || (rows != [] && total >= c.maxBytes),
       dropped := s.dropped + |batch| - |rows|)
  }

  /** `t` is `s` after encoding and committing the batch it held. */
  ghost predicate IsFlush(c: Config, s: State, encode: nat -> Encoding, ok: bool, t: State) {
    exists rows ::
      && Takes(c, s, s.batch, encode, rows)
      && t == AfterEncoding(c, s, s.batch, rows).(
           batch := [], encoded := [], phase := if s.done then Exited else Collecting,
           dropped := s.dropped + |s.batch| - |rows| + (if ok then 0 else |rows|),
           flushes := s.flushes + if rows == [] then [] else [Flushed(rows, ok)])
  }

  lemma TakesOneMore(c: Config, s: State, batch: seq<Item>, encode: nat -> Encoding, rows: seq<Row>, x: Item, row: Row)
    requires Takes(c, s, batch, encode, rows) && x != Sentinel
    requires var e := encode(x.ticket);
             row == Row(x.ticket, x.id, s.seqNo + |rows| + 1, e.content, e.notes, e.bytes)
    ensures AfterEncoding(c, s, batch, rows).capped ==> Takes(c, s, batch + [x], encode, rows)
    ensures !AfterEncoding(c, s, batch, rows).capped ==>
              |rows| == |batch| && Takes(c, s, batch + [x], encode, rows + [row])
    ensures Bytes(rows + [row]) == Bytes(rows) + row.bytes
  {
    BytesSnoc(rows, row);
    hide Bytes;
    if !AfterEncoding(c, s, batch, rows).capped {
      var more := rows + [row];
      assert forall i :: 0 <= i <= |rows| ==> more[..i] == rows[..i];
      assert rows[..|rows|] == rows;
      assert forall i :: 0 <= i < |rows| ==> more[i] == rows[i] && (batch + [x])[i] == batch[i];
    }
  }

  lemma BytesSnoc(rows: seq<Row>, row: Row)
    ensures Bytes(rows + [row]) == Bytes(rows) + row.bytes
  {
    assert (rows + [row])[..|rows|] == rows;
  }

  lemma EncodeAfter(c: Config, s: State, batch: seq<Item>, rows: seq<Row>, x: Item, rest: seq<Item>, e: Encoding)
    requires s.phase == Flushing && |rows| <= |batch| && x != Sentinel
    ensures var t := AfterEncoding(c, s, batch, rows).(batch := [x] + rest);
            var row := Row(x.ticket, x.id, t.seqNo + 1, e.content, e.notes, e.bytes);
            var r := Apply(c, t, EncodeNext(e.content, e.notes, e.bytes));
            if t.capped then r == AfterEncoding(c, s, batch + [x], rows).(batch := rest)
            else r == AfterEncoding(c, s, batch + [x], rows + [row]).(batch := rest)
  {
    hide Bytes, Apply, AfterEncoding;
    var t := AfterEncoding(c, s, batch, rows).(batch := [x] + rest);
    var row := Row(x.ticket, x.id, t.seqNo + 1, e.content, e.notes, e.bytes);
    StillFlushing(c, s, batch, rows);
    AtEncode(c, t, e);
    assert t.batch[0] == x && t.batch[1..] == rest;
    BytesSnoc(rows, row);
    if t.capped {
      OneMoreDropped(c, s, batch, rows, x);
    } else {
      OneMoreTaken(c, s, batch, rows, x, row);
    }
  }

  lemma StillFlushing(c: Config, s: State, batch: seq<Item>, rows: seq<Row>)
    requires s.phase == Flushing && |rows| <= |batch|
    ensures AfterEncoding(c, s, batch, rows).phase == Flushing && AfterEncoding(c, s, batch, rows).encoded == rows
    ensures AfterEncoding(c, s, batch, rows).seqNo == s.seqNo + |rows|
  {
    hide Bytes;
  }

  lemma OneMoreDropped(c: Config, s: State, batch: seq<Item>, rows: seq<Row>, x: Item)
    requires |rows| <= |batch|
    ensures var t := AfterEncoding(c, s, batch, rows);
            AfterEncoding(c, s, batch + [x], rows) == t.(dropped := t.dropped + 1)
  {
    hide Bytes;
  }

  lemma OneMoreTaken(c: Config, s: State, batch: seq<Item>, rows: seq<Row>, x: Item, row: Row)
    requires |rows| <= |batch| && !AfterEncoding(c, s, batch, rows).capped
    requires Bytes(rows + [row]) == Bytes(rows) + row.bytes
    ensures var t := AfterEncoding(c, s, batch, rows);
            AfterEncoding(c, s, batch + [x], rows + [row]) ==
            t.(encoded := t.encoded + [row], seqNo := t.seqNo + 1, bytesWritten := t.bytesWritten + row.bytes,
               capped := t.bytesWritten + row.bytes >= c.maxBytes)
  {
    hide Bytes;
  }

  lemma NumbersOn(c: Config, s: State, batch: seq<Item>, rows: seq<Row>, rest: seq<Item>)
    requires |rows| <= |batch|
    ensures var t := AfterEncoding(c, s, batch, rows).(batch := rest);
            t.seqNo == s.seqNo + |rows| && t.capped == AfterEncoding(c, s, batch, rows).capped
  {
  }

  lemma EncodedNone(c: Config, s: State, encode: nat -> Encoding)
    requires s.encoded == []
    ensures Takes(c, s, s.batch[..0], encode, [])
    ensures Encoded(c, s, encode, 0) == AfterEncoding(c, s, s.batch[..0], []).(batch := s.batch[0..])
  {
    assert s.batch[0..] == s.batch && s.batch[..0] == [];
  }

  lemma EncodedNext(c: Config, s: State, encode: nat -> Encoding, n: nat, x: Item, rest: seq<Item>)
    requires n > 0 && x != Sentinel && Encoded(c, s, encode, n - 1).batch == [x] + rest
    ensures var e := encode(x.ticket);
            Encoded(c, s, encode, n) == Apply(c, Encoded(c, s, encode, n - 1), EncodeNext(e.content, e.notes, e.bytes))
  {
    hide Apply;
  }

  lemma {:induction false} EncodedTakes(c: Config, s: State, encode: nat -> Encoding, n: nat) returns (rows: seq<Row>)
    requires s.phase == Flushing && s.encoded == [] && Sentinel !in s.batch && n <= |s.batch|
    ensures |rows| <= n && Takes(c, s, s.batch[..n], encode, rows)
    ensures Encoded(c, s, encode, n) == AfterEncoding(c, s, s.batch[..n], rows).(batch := s.batch[n..])
  {
    hide Takes, Apply, Bytes, AfterEncoding, Encoded;
    if n == 0 {
      rows := [];
      EncodedNone(c, s, encode);
    } else {
      rows := EncodedTakes(c, s, encode, n - 1);
      var before, x, rest := s.batch[..n - 1], s.batch[n - 1], s.batch[n..];
      assert s.batch[..n] == before + [x] && s.batch[n - 1..] == [x] + rest && x in s.batch;
      var e := encode(x.ticket);
      var row := Row(x.ticket, x.id, s.seqNo + |rows| + 1, e.content, e.notes, e.bytes);
      TakesOneMore(c, s, before, encode, rows, x, row);
      EncodeAfter(c, s, before, rows, x, rest, e);
      NumbersOn(c, s, before, rows, [x] + rest);
      EncodedNext(c, s, encode, n, x, rest);
      rows := if AfterEncoding(c, s, before, rows).capped then rows else rows + [row];
    }
  }

  /** One flush, whatever was collected and whatever encoding makes of it: which rows it
      takes, what they add to the meter, and what is counted as lost. */
  lemma FlushIs(c: Config, s: State, encode: nat -> Encoding, ok: bool)
    requires s.phase == Flushing && s.encoded == [] && Sentinel !in s.batch
    ensures IsFlush(c, s, encode, ok, Apply(c, Encoded(c, s, encode, |s.batch|), Commit(ok)))
  {
    var rows := EncodedTakes(c, s, encode, |s.batch|);
    hide Takes, Encoded, Bytes;
    CommitAfter(c, s, rows, ok);
    hide Apply, AfterEncoding;
    assert s.batch[..|s.batch|] == s.batch && s.batch[|s.batch|..] == [];
    assert Takes(c, s, s.batch, encode, rows);
  }

  lemma CommitAfter(c: Config, s: State, rows: seq<Row>, ok: bool)
    requires s.phase == Flushing && |rows| <= |s.batch|
    ensures Apply(c, AfterEncoding(c, s, s.batch, rows).(batch := []), Commit(ok)) ==
            AfterEncoding(c, s, s.batch, rows).(
              batch := [], encoded := [], phase := if s.done then Exited else Collecting,
              dropped := s.dropped + |s.batch| - |rows| + (if ok then 0 else |rows|),
              flushes := s.flushes + if rows == [] then [] else [Flushed(rows, ok)])
  {
    hide Bytes;
    assert s.flushes + [] == s.flushes;
  }

  /** Taking an item, spelled out. */
  lemma AtTake(c: Config, s: State, left: nat)
    requires s.phase == Collecting && |s.batch| < c.batchSize && left > 0 && s.queue != []
    ensures Collected(c, s, left) ==
            if s.queue[0] == Sentinel then s.(queue := s.queue[1..], done := true, phase := Flushing)
            else Collected(c, s.(queue := s.queue[1..], batch := s.batch + [s.queue[0]]), left - 1)
  {
    var t := Apply(c, s, Take);
    assert Collected(c, s, left) == Collected(c, t, left - 1);
    if s.queue[0] == Sentinel {
      assert Collected(c, t, left - 1) == Apply(c, t, StopCollecting);
    }
  }

  lemma AtPause(c: Config, s: State, left: nat)
    requires s.phase == Collecting && (|s.batch| >= c.batchSize || left == 0 || s.queue == [])
    ensures Collected(c, s, left) == s.(phase := Flushing)
  {
  }

  // ------------------------------------------------------------- stopping drains

  /** One turn of the thread's loop: how much arrives in time, and whether SQLite takes it. */
  datatype Turn = Turn(budget: nat, ok: bool)

  function AfterTurn(c: Config, s: State, encode: nat -> Encoding, turn: Turn): State {
    var collected := Collected(c, s, turn.budget);
    Apply(c, Encoded(c, collected, encode, |collected.batch|), Commit(turn.ok))
  }

  function AfterTurns(c: Config, s: State, encode: nat -> Encoding, turns: seq<Turn>): State
    decreases |turns|
  {
    if turns == [] then s else AfterTurns(c, AfterTurn(c, s, encode, turns[0]), encode, turns[1..])
  }

  /** Between two turns of the loop. */
  predicate Looping(c: Config, s: State) {
    Inv(c, s) && s.phase == Collecting && s.batch == []
  }

  /** A turn takes some of what waits before the sentinel, or else the sentinel. */
  lemma TurnTakes(c: Config, s: State, encode: nat -> Encoding, turn: Turn) returns (n: nat)
    requires Looping(c, s) && s.stopping && c.batchSize > 0 && turn.budget > 0
    ensures var t := AfterTurn(c, s, encode, turn);
            && Inv(c, t) && t.batch == [] && t.stopping && t.late == s.late
            && 0 < n <= |s.queue| - s.late && t.queue == s.queue[n..]
            && t.phase == if n == |s.queue| - s.late then Exited else Collecting
  {
    var mid := Collected(c, s, turn.budget);
    CollectedIs(c, s, turn.budget);
    CollectedKeeps(c, s, turn.budget);
    EncodedKeeps(c, mid, encode, |mid.batch|);
    StepKeeps(c, Encoded(c, mid, encode, |mid.batch|), Commit(turn.ok));
    var k: nat :| Gathers(c, s, turn.budget, k) && mid == AfterTaking(c, s, turn.budget, k);
    n := if MeetsSentinel(c, s, turn.budget, k) then k + 1 else k;
    hide Collected, Encoded, Apply, Takes, Counted, Metered, InOrder, Bytes;
    FlushIs(c, mid, encode, turn.ok);
    SentinelNext(c, s, turn.budget, k);
  }

  /** Where gathering stops, seen from the sentinel's place. */
  lemma SentinelNext(c: Config, s: State, budget: nat, k: nat)
    requires Looping(c, s) && s.stopping && c.batchSize > 0 && budget > 0
    requires Gathers(c, s, budget, k)
    ensures !s.done && k < |s.queue| - s.late
    ensures MeetsSentinel(c, s, budget, k) ==> k + 1 == |s.queue| - s.late
    ensures !MeetsSentinel(c, s, budget, k) ==> 0 < k
  {
    hide Counted, Metered, InOrder;
    assert s.queue[|s.queue| - s.late - 1] == Sentinel;
  }

  /** Once stopping, the thread gets through what was queued before the sentinel, whatever
      arrives when and whatever SQLite takes, and exits; then every enqueue call is
      accounted for, and what is left in the queue came after the sentinel. */
  lemma {:induction false} StopDrains(c: Config, s: State, encode: nat -> Encoding, turns: seq<Turn>)
    requires Looping(c, s) && s.stopping && c.batchSize > 0
    requires |turns| >= |s.queue| - s.late && forall i :: 0 <= i < |turns| ==> turns[i].budget > 0
    ensures var t := AfterTurns(c, s, encode, turns);
            && t.phase == Exited
            && t.late == s.late <= |s.queue| && t.queue == s.queue[|s.queue| - s.late..]
            && t.offered == |Log(t)| + t.dropped + t.late
    decreases |turns|
  {
    hide Counted, Metered, InOrder, AfterTurn, Log, Flatten, Committed;
    assert SentinelPlace(s) && !s.done;
    var n := TurnTakes(c, s, encode, turns[0]);
    var t := AfterTurn(c, s, encode, turns[0]);
    if t.phase == Exited {
      ExitedStays(c, t, encode, turns[1..]);
    } else {
      StopDrains(c, t, encode, turns[1..]);
      assert s.queue[n..][|s.queue| - n - s.late..] == s.queue[|s.queue| - s.late..];
    }
  }

  lemma {:induction false} ExitedStays(c: Config, s: State, encode: nat -> Encoding, turns: seq<Turn>)
    requires Inv(c, s) && s.phase == Exited
    ensures AfterTurns(c, s, encode, turns) == s
    ensures s.offered == |Log(s)| + s.dropped + s.late
    decreases |turns|
  {
    if turns == [] {
      QueuedAll(s.queue);
    } else {
      hide Inv;
      ExitedTurn(c, s, encode, turns[0]);
      ExitedStays(c, s, encode, turns[1..]);
    }
  }

  lemma ExitedTurn(c: Config, s: State, encode: nat -> Encoding, turn: Turn)
    requires Inv(c, s) && s.phase == Exited
    ensures AfterTurn(c, s, encode, turn) == s
  {
    hide Counted, Metered, InOrder;
    assert Collected(c, s, turn.budget) == s;
    assert Encoded(c, s, encode, 0) == s;
  }

  /** Encoding a collected flow, spelled out. */
  lemma AtEncode(c: Config, s: State, e: Encoding)
    requires s.phase == Flushing && s.batch != [] && s.batch[0] != Sentinel
    ensures var total := s.bytesWritten + e.bytes;
            var row := Row(s.batch[0].ticket, s.batch[0].id, s.seqNo + 1, e.content, e.notes, e.bytes);
            Apply(c, s, EncodeNext(e.content, e.notes, e.bytes)) ==
            if s.capped then s.(batch := s.batch[1..], dropped := s.dropped + 1)
            else s.(batch := s.batch[1..], encoded := s.encoded + [row], seqNo := s.seqNo + 1,
                    bytesWritten := total, capped := total >= c.maxBytes)
  {
  }

  lemma {:induction false} CollectedKeeps(c: Config, s: State, budget: nat)
    requires Inv(c, s)
    ensures Inv(c, Collected(c, s, budget))
    decreases budget
  {
    hide Inv, Apply;
    if s.phase != Collecting || |s.batch| >= c.batchSize || budget == 0 || s.queue == [] {
      StepKeeps(c, s, StopCollecting);
    } else {
      StepKeeps(c, s, Take);
      CollectedKeeps(c, Apply(c, s, Take), budget - 1);
    }
  }

  lemma {:induction false} EncodedKeeps(c: Config, s: State, encode: nat -> Encoding, n: nat)
    requires Inv(c, s)
    ensures Inv(c, Encoded(c, s, encode, n))
  {
    hide Inv, Apply;
    if n == 0 {
    } else {
      EncodedKeeps(c, s, encode, n - 1);
      var t := Encoded(c, s, encode, n - 1);
      if t.batch != [] && t.batch[0] != Sentinel {
        var e := encode(t.batch[0].ticket);
        StepKeeps(c, t, EncodeNext(e.content, e.notes, e.bytes));
      }
    }
  }

  /** The writer object. Its methods are what each side does between two
      interruptions; each is one step, or one run of the thread's own steps, so
      that `StepKeeps`, `CollectedKeeps` and `EncodedKeeps` speak about it. */
  class Writer {
    const c: Config
    var queue: seq<Item>
    var batch: seq<Item>
    var encoded: seq<Row>
    var phase: Phase
    var done: bool
    var capped: bool
    var dropped: nat
    var seqNo: nat
    var bytesWritten: nat
    var stopping: bool
    var hand: Option<FlowId>
    var offered: nat
    ghost var late: nat
    ghost var flushes: seq<Flushed>

    ghost function View(): State
      reads this
    {
      State(queue, batch, encoded, phase, done, capped, dropped, seqNo, bytesWritten, stopping,
            hand, offered, late, flushes)
    }

    constructor (c: Config)
      ensures View() == START && this.c == c
    {
      this.c := c;
      queue, batch, encoded := [], [], [];
      phase, done, capped, stopping := Collecting, false, false, false;
      dropped, seqNo, bytesWritten := 0, 0, 0;
      hand, offered, late, flushes := None, 0, 0, [];
    }

    /** The first half of an enqueue: counted as dropped if the cap has been reached. */
    method BeginEnqueue(id: FlowId)
      requires hand.None?
      modifies this
      ensures View() == Apply(c, old(View()), TestCap(id))
    {
      if capped {
        dropped := dropped + 1;
        offered := offered + 1;
        return;
      }
      hand := Some(id);
    }

    /** The second half: put without waiting, or counted as dropped. */
    method FinishEnqueue()
      requires hand.Some?
      modifies this
      ensures View() == Apply(c, old(View()), PutFlow)
    {
      if c.queueMax > 0 && |queue| >= c.queueMax {
        dropped := dropped + 1;
      } else {
        queue := queue + [Flow(offered, hand.value)];
        late := if stopping then late + 1 else late;
      }
      hand, offered := None, offered + 1;
    }

    /** Asks the thread to finish: puts the sentinel, or finds the queue full and has
        to try again. */
    method Stop() returns (put: bool)
      modifies this
      ensures View() == Apply(c, old(View()), PutSentinel)
      ensures put == stopping
    {
      if stopping {
        return true;
      }
      if c.queueMax > 0 && |queue| >= c.queueMax {
        return false;
      }
      queue := queue + [Sentinel];
      stopping := true;
      return true;
    }

    /** Gathers a batch: until it is full, the sentinel shows up, or nothing more
        arrives in time. */
    method Collect(budget: nat)
      requires phase == Collecting
      modifies this
      ensures View() == Collected(c, old(View()), budget)
      ensures IsCollect(c, old(View()), budget, View())
      ensures phase == Flushing
    {
      hide IsCollect, Collected, Apply;
      ghost var start := View();
      CollectedIs(c, start, budget);
      var left := budget;
      while |batch| < c.batchSize && left > 0 && queue != []
        invariant 0 <= left && phase == Collecting
        invariant Collected(c, View(), left) == Collected(c, start, budget)
        decreases left
      {
        AtTake(c, View(), left);
        var item := queue[0];
        queue := queue[1..];
        left := left - 1;
        if item == Sentinel {
          done, phase := true, Flushing;
          return;
        }
        batch := batch + [item];
      }
      AtPause(c, View(), left);
      phase := Flushing;
    }

    /** Redacts, encodes and counts the next collected record, or drops it at the cap. */
    method EncodeOne(e: Encoding)
      requires phase == Flushing && batch != [] && batch[0] != Sentinel
      modifies this
      ensures View() == Apply(c, old(View()), EncodeNext(e.content, e.notes, e.bytes))
      ensures phase == Flushing && batch == old(batch)[1..]
    {
      hide Apply;
      AtEncode(c, View(), e);
      var item := batch[0];
      batch := batch[1..];
      if capped {
        dropped := dropped + 1;
      } else {
        seqNo := seqNo + 1;
        bytesWritten := bytesWritten + e.bytes;
        encoded := encoded + [Row(item.ticket, item.id, seqNo, e.content, e.notes, e.bytes)];
        if bytesWritten >= c.maxBytes {
          capped := true;
        }
      }
    }

    /** Commits the encoded rows, or counts them as dropped when SQLite fails. */
    method Finish(ok: bool)
      requires phase == Flushing && batch == []
      modifies this
      ensures View() == Apply(c, old(View()), Commit(ok))
    {
      if encoded != [] {
        flushes := flushes + [Flushed(encoded, ok)];
        if !ok {
          dropped := dropped + |encoded|;
        }
      }
      encoded := [];
      phase := if done then Exited else Collecting;
    }

    /** Encodes and commits what was collected. */
    method Flush(encode: nat -> Encoding, ok: bool)
      requires phase == Flushing && Sentinel !in batch
      modifies this
      ensures View() == Apply(c, Encoded(c, old(View()), encode, |old(batch)|), Commit(ok))
      ensures old(encoded) == [] ==> IsFlush(c, old(View()), encode, ok, View())
    {
      hide Apply, IsFlush;
      ghost var start := View();
      if encoded == [] {
        FlushIs(c, start, encode, ok);
      }
      for n := 0 to |batch|
        invariant n + |batch| == |start.batch| && phase == Flushing && Sentinel !in batch
        invariant View() == Encoded(c, start, encode, n)
      {
        assert batch[0] in batch;
        EncodeOne(encode(batch[0].ticket));
      }
      Finish(ok);
    }
  }
}
