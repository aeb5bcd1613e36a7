/** The event hub, one subscriber's bounded queue, and the client that reads from
    it across reconnects (daemon/src/pporlock/control/events.py,
    web/src/api/events.ts). */
module EventHub {
  import opened Seqs

  /** What travels on the stream. `TakeGap` is the gap announced before a delivery,
      `ResumeGap` the one announced to a client that comes back behind. */
  datatype Frame =
    | Event(num: nat)
    | TakeGap(fromSeq: nat, toSeq: nat)
    | ResumeGap(fromSeq: nat, toSeq: nat)
  {
    /** The `id:` field the frame carries. */
    function Id(): nat {
      if Event? then num else toSeq
    }

    /** Whether the frame announces the loss of event `e`. A gap before a delivery
        ends before that delivery; a resume gap ends with the last event missed. */
    predicate Covers(e: nat) {
      || (TakeGap? && fromSeq < e < toSeq)
      || (ResumeGap? && fromSeq < e <= toSeq)
    }
  }

  datatype Subscription = Subscription(queue: seq<nat>, dropped: nat, lastDelivered: nat)

  const FRESH := Subscription([], 0, 0)

  /** `bound == 0` is an unbounded queue, as in asyncio. */
  predicate Full(s: Subscription, bound: nat) {
    bound > 0 && |s.queue| >= bound
  }

  /** Enqueue without blocking: on overflow the oldest goes and is counted. */
  function Offer(s: Subscription, bound: nat, e: nat): Subscription {
    if Full(s, bound) then s.(queue := s.queue[1..] + [e], dropped := s.dropped + 1)
    else s.(queue := s.queue + [e])
  }

  /** The frames one read puts on the wire: a gap first, if anything was dropped. */
  function Delivery(s: Subscription): seq<Frame>
    requires s.queue != []
  {
    (if s.dropped == 0 then [] else [TakeGap(s.lastDelivered, s.queue[0])]) + [Event(s.queue[0])]
  }

  function AfterRead(s: Subscription): Subscription
    requires s.queue != []
  {
    Subscription(s.queue[1..], 0, s.queue[0])
  }

  /** The hub, one client's subscription, the frames on the wire to it and those it
      has received, over all its connections. `base` is where the hub stood when the
      client last connected without a last event id. `lost` and `breaks` are history:
      the events its queues discarded, and every reconnect. */
  datatype World = World(
    hubSeq: nat,
    allowed: set<nat>,
    sub: Subscription,
    wire: seq<Frame>,
    client: seq<Frame>,
    base: nat,
    lost: set<nat>,
    breaks: seq<Break>)

  /** A reconnect: how many frames the client had received, and where the hub stood. */
  datatype Break = Break(received: nat, hubSeq: nat)

  /** A client connecting for the first time to a hub at `n`. */
  function Begin(n: nat): World {
    World(n, {}, FRESH, [], [], n, {}, [])
  }

  datatype Step = Publish(allow: bool) | Read | Receive | Reconnect

  /** The event a client is still owed when the last frame it got is the gap
      announced just before it. */
  function Owed(client: seq<Frame>): set<nat> {
    if client != [] && client[|client| - 1].TakeGap? then {client[|client| - 1].toSeq} else {}
  }

  function LastId(client: seq<Frame>, base: nat): nat {
    if client == [] then base else client[|client| - 1].Id()
  }

  function Apply(bound: nat, w: World, step: Step): World {
    match step
    case Publish(allow) =>
      var e := w.hubSeq + 1;
      if !allow then w.(hubSeq := e)
      else
        w.(hubSeq := e, allowed := w.allowed + {e}, sub := Offer(w.sub, bound, e),
           lost := if Full(w.sub, bound) then w.lost + {w.sub.queue[0]} else w.lost)
    case Read =>
      if w.sub.queue == [] then w
      else w.(wire := w.wire + Delivery(w.sub), sub := AfterRead(w.sub))
    case Receive =>
      if w.wire == [] then w
      else w.(client := w.client + [w.wire[0]], wire := w.wire[1..])
    case Reconnect =>
      var id := LastId(w.client, w.base);
      w.(sub := FRESH,
         wire := if w.client != [] && id < w.hubSeq then [ResumeGap(id, w.hubSeq)] else [],
         base := if w.client == [] then w.hubSeq else w.base,
         breaks := w.breaks + [Break(|w.client|, w.hubSeq)])
  }

  function Run(bound: nat, n: nat, steps: seq<Step>): World {
    if steps == [] then Begin(n)
    else Apply(bound, Run(bound, n, steps[..|steps| - 1]), steps[|steps| - 1])
  }

  /** A run is its steps, one after another. */
  lemma RunGoesOn(bound: nat, n: nat, steps: seq<Step>, step: Step)
    ensures Run(bound, n, []) == Begin(n) && Run(bound, n, steps + [step]) == Apply(bound, Run(bound, n, steps), step)
  {
    assert (steps + [step])[..|steps|] == steps;
  }

  // ---------------------------------------------------------------- invariants

  /** The event was delivered, or its loss announced. */
  predicate Accounted(frames: seq<Frame>, e: nat) {
    exists i :: 0 <= i < |frames| && (frames[i] == Event(e) || frames[i].Covers(e))
  }

  /** The id of the last frame, starting from `prev`. */
  function End(prev: nat, frames: seq<Frame>): nat {
    if frames == [] then prev else frames[|frames| - 1].Id()
  }

  function LastSent(w: World): nat {
    End(LastId(w.client, w.base), w.wire)
  }

  /** The queue holds allowed events, rising, all past what was sent. */
  predicate Queued(bound: nat, w: World) {
    var q := w.sub.queue;
    && (bound > 0 ==> |q| <= bound)
    && (forall i :: 0 <= i < |q| ==> q[i] in w.allowed && LastSent(w) < q[i] <= w.hubSeq)
    && (forall i, j :: 0 <= i < j < |q| ==> q[i] < q[j])
    && (w.sub.dropped > 0 ==> q != [])
    && w.sub.lastDelivered <= LastSent(w) <= w.hubSeq
    && (forall e :: e in w.allowed ==> e <= w.hubSeq)
  }

  /** Past what was sent, every allowed event is queued, or was discarded from the
      front of the queue and is about to be announced. */
  predicate TailKnown(w: World) {
    var q := w.sub.queue;
    forall e :: e in w.allowed && e > LastSent(w) ==>
      e in q || (w.sub.dropped > 0 && q != [] && e < q[0])
  }

  /** A frame following id `prev` explains every allowed event up to its own id,
      except the one a gap is about to deliver. */
  predicate Explains(allowed: set<nat>, prev: nat, f: Frame) {
    && prev <= f.Id()
    && forall e :: e in allowed && prev < e <= f.Id() ==>
         f == Event(e) || f.Covers(e) || (f.TakeGap? && e == f.toSeq)
  }

  /** Each frame explains what lies between it and the one before, and a gap is
      always followed by its event. */
  predicate Chain(allowed: set<nat>, prev: nat, frames: seq<Frame>)
    decreases |frames|
  {
    frames == [] ||
    (&& Explains(allowed, prev, frames[0])
     && (frames[0].TakeGap? ==> |frames| > 1 && frames[1] == Event(frames[0].toSeq))
     && Chain(allowed, frames[0].Id(), frames[1..]))
  }

  /** The connection broke between a gap and `e`, the event it announced. */
  predicate CutOff(client: seq<Frame>, breaks: seq<Break>, e: nat) {
    exists r :: 0 <= r < |breaks| && CutAt(client, breaks[r].received, e)
  }

  /** Received frame `k` announced `e`, and the connection broke there. */
  predicate CutAt(client: seq<Frame>, k: nat, e: nat) {
    0 < k <= |client| && client[k - 1].TakeGap? && client[k - 1].toSeq == e
  }

  /** The event a received gap announced is next on the wire, unless a reconnect
      came between. */
  predicate Paired(w: World) {
    && (forall r :: 0 <= r < |w.breaks| ==> w.breaks[r].received <= |w.client|)
    && forall e :: e in Owed(w.client) && (forall r :: 0 <= r < |w.breaks| ==> w.breaks[r].received != |w.client|) ==>
         w.wire != [] && w.wire[0] == Event(e)
  }

  /** Every allowed event up to the client's last id is accounted for, cut off, or
      the very next frame. */
  predicate ClientKnows(w: World) {
    forall e :: e in w.allowed && w.base < e <= LastId(w.client, w.base) ==>
      Accounted(w.client, e) || CutOff(w.client, w.breaks, e) || e in Owed(w.client)
  }

  predicate Inv(bound: nat, w: World) {
    && Queued(bound, w) && TailKnown(w)
    && Chain(w.allowed, LastId(w.client, w.base), w.wire)
    && Paired(w) && ClientKnows(w)
  }

  // ------------------------------------------------------------------- proofs

  lemma AccountedGrows(frames: seq<Frame>, f: Frame, e: nat)
    ensures Accounted(frames + [f], e) <==> Accounted(frames, e) || f == Event(e) || f.Covers(e)
  {
    var all := frames + [f];
    if Accounted(frames, e) {
      var i :| 0 <= i < |frames| && (frames[i] == Event(e) || frames[i].Covers(e));
      assert all[i] == frames[i];
    }
    if f == Event(e) || f.Covers(e) {
      assert all[|frames|] == f;
    }
  }

  lemma {:induction false} ChainRises(allowed: set<nat>, prev: nat, frames: seq<Frame>)
    requires Chain(allowed, prev, frames)
    ensures prev <= End(prev, frames)
    decreases |frames|
  {
    if frames == [] {
    } else {
      ChainRises(allowed, frames[0].Id(), frames[1..]);
    }
  }

  /** An event newer than every frame needs no explanation from them. */
  lemma {:induction false} ChainNewer(allowed: set<nat>, prev: nat, frames: seq<Frame>, e: nat)
    requires Chain(allowed, prev, frames) && End(prev, frames) < e
    ensures Chain(allowed + {e}, prev, frames)
    decreases |frames|
  {
    if frames == [] {
    } else {
      ChainRises(allowed, frames[0].Id(), frames[1..]);
      ChainNewer(allowed, frames[0].Id(), frames[1..], e);
    }
  }

  lemma {:induction false} ChainConcat(allowed: set<nat>, prev: nat, a: seq<Frame>, b: seq<Frame>)
    requires Chain(allowed, prev, a) && Chain(allowed, End(prev, a), b)
    ensures Chain(allowed, prev, a + b)
    decreases |a|
  {
    if a == [] {
      assert a + b == b;
    } else {
      assert (a + b)[1..] == a[1..] + b;
      ChainConcat(allowed, a[0].Id(), a[1..], b);
    }
  }

  /** The newest behind what is left of a rising queue. */
  lemma StillRising(q: seq<nat>, kept: seq<nat>, newest: nat, lo: nat)
    requires |kept| <= |q| && kept == q[|q| - |kept|..]
    requires forall i :: 0 <= i < |q| ==> lo < q[i] < newest
    requires forall i, j :: 0 <= i < j < |q| ==> q[i] < q[j]
    ensures var r := kept + [newest];
            && (lo < newest ==> forall i :: 0 <= i < |r| ==> lo < r[i] <= newest)
            && (forall i :: 0 <= i < |r| ==> r[i] in q || r[i] == newest)
            && (forall i, j :: 0 <= i < j < |r| ==> r[i] < r[j])
  {
    assert forall i :: 0 <= i < |kept| ==> kept[i] == q[|q| - |kept| + i];
  }

  lemma OfferQueued(bound: nat, w: World)
    requires Queued(bound, w)
    ensures Queued(bound, Apply(bound, w, Publish(true)))
  {
    var q, t := w.sub.queue, Apply(bound, w, Publish(true));
    var kept := if Full(w.sub, bound) then q[1..] else q;
    assert LastSent(t) == LastSent(w);
    hide LastSent;
    StillRising(q, kept, t.hubSeq, LastSent(w));
    assert t.sub.queue == kept + [t.hubSeq];
    assert forall e :: e in q ==> e in w.allowed;
  }

  lemma OfferKnown(bound: nat, w: World)
    requires Queued(bound, w) && TailKnown(w)
    ensures TailKnown(Apply(bound, w, Publish(true)))
  {
    var q, t := w.sub.queue, Apply(bound, w, Publish(true));
    assert LastSent(t) == LastSent(w);
    hide LastSent;
    forall e | e in t.allowed && e > LastSent(t)
      ensures e in t.sub.queue || (t.sub.dropped > 0 && e < t.sub.queue[0])
    {
      if Full(w.sub, bound) {
        KnownAfterDrop(q, t.hubSeq, e);
      }
    }
  }

  /** Where an event stands once the oldest has made room for the newest. */
  lemma KnownAfterDrop(q: seq<nat>, newest: nat, e: nat)
    requires q != [] && forall i :: 0 <= i < |q| ==> q[i] < newest
    requires forall i, j :: 0 <= i < j < |q| ==> q[i] < q[j]
    ensures var r := q[1..] + [newest];
            && (e == newest ==> e in r)
            && (e in q ==> e in r || e < r[0])
            && (e < q[0] ==> e < r[0])
  {
    var r := q[1..] + [newest];
    assert r[|q| - 1] == newest;
    assert r[0] == if |q| > 1 then q[1] else newest;
    if e in q {
      var i :| 0 <= i < |q| && q[i] == e;
      assert i > 0 ==> r[i - 1] == e;
    }
  }

  /** A new event is ahead of everything the client has seen. */
  lemma PublishKnows(bound: nat, w: World)
    requires Inv(bound, w)
    ensures var t := Apply(bound, w, Publish(true)); ClientKnows(t) && Paired(t)
  {
    hide Accounted, CutOff;
    ChainRises(w.allowed, LastId(w.client, w.base), w.wire);
    hide Chain, Offer;
  }

  lemma PublishChains(bound: nat, w: World)
    requires Inv(bound, w)
    ensures var t := Apply(bound, w, Publish(true)); Chain(t.allowed, LastId(t.client, t.base), t.wire)
  {
    hide Chain, ClientKnows, Paired, TailKnown, Offer;
    ChainNewer(w.allowed, LastId(w.client, w.base), w.wire, w.hubSeq + 1);
  }

  lemma PublishNothing(bound: nat, w: World)
    requires Inv(bound, w)
    ensures Inv(bound, Apply(bound, w, Publish(false)))
  {
    hide Chain, Accounted, CutOff;
  }

  lemma PublishKeeps(bound: nat, w: World, allow: bool)
    requires Inv(bound, w)
    ensures Inv(bound, Apply(bound, w, Publish(allow)))
  {
    hide Chain, ClientKnows, Paired, TailKnown, Queued, Apply;
    if allow {
      OfferQueued(bound, w);
      OfferKnown(bound, w);
      PublishKnows(bound, w);
      PublishChains(bound, w);
    } else {
      PublishNothing(bound, w);
    }
  }

  /** One read explains everything between the last frame sent and the event it delivers. */
  lemma DeliveryExplains(bound: nat, w: World)
    requires Queued(bound, w) && TailKnown(w) && w.sub.queue != []
    ensures Chain(w.allowed, LastSent(w), Delivery(w.sub))
    ensures End(LastSent(w), Delivery(w.sub)) == w.sub.queue[0]
  {
    var q, d := w.sub.queue, Delivery(w.sub);
    var event := Event(q[0]);
    if w.sub.dropped == 0 {
      assert d == [event] && d[1..] == [];
      assert Explains(w.allowed, LastSent(w), event);
    } else {
      var gap := TakeGap(w.sub.lastDelivered, q[0]);
      assert d == [gap, event] && d[1..] == [event] && d[1..][1..] == [];
      assert Explains(w.allowed, LastSent(w), gap);
      assert Explains(w.allowed, q[0], event);
      assert Chain(w.allowed, q[0], d[1..]);
    }
  }

  lemma ReadKeeps(bound: nat, w: World)
    requires Inv(bound, w)
    ensures Inv(bound, Apply(bound, w, Read))
  {
    if w.sub.queue != [] {
      hide Chain;
      var d := Delivery(w.sub);
      DeliveryExplains(bound, w);
      ChainConcat(w.allowed, LastId(w.client, w.base), w.wire, d);
      assert (w.wire + d)[|w.wire + d| - 1] == d[|d| - 1];
    }
  }

  lemma ReceiveKeeps(bound: nat, w: World)
    requires Inv(bound, w)
    ensures Inv(bound, Apply(bound, w, Receive))
  {
    var t := Apply(bound, w, Receive);
    if w.wire != [] {
      assert LastSent(t) == LastSent(w);
      forall e | e in t.allowed && t.base < e <= LastId(t.client, t.base)
        ensures Accounted(t.client, e) || CutOff(t.client, t.breaks, e) || e in Owed(t.client)
      {
        ReceiveKnows(bound, w, e);
      }
    }
  }

  /** What one more frame tells the client about one event. */
  lemma ReceiveKnows(bound: nat, w: World, e: nat)
    requires Inv(bound, w) && w.wire != [] && e in w.allowed
    requires var t := Apply(bound, w, Receive); t.base < e <= LastId(t.client, t.base)
    ensures var t := Apply(bound, w, Receive);
            Accounted(t.client, e) || CutOff(t.client, t.breaks, e) || e in Owed(t.client)
  {
    hide Accounted;
    var t, f := Apply(bound, w, Receive), w.wire[0];
    AccountedGrows(w.client, f, e);
    if e <= LastId(w.client, w.base) {
      if CutOff(w.client, w.breaks, e) {
        var r :| 0 <= r < |w.breaks| && CutAt(w.client, w.breaks[r].received, e);
        assert CutAt(t.client, t.breaks[r].received, e);
      } else if e in Owed(w.client) {
        forall r | 0 <= r < |w.breaks| ensures w.breaks[r].received != |w.client| {
          assert !CutAt(w.client, w.breaks[r].received, e);
        }
        assert f == Event(e);
      }
    }
  }

  lemma ReconnectKeeps(bound: nat, w: World)
    requires Inv(bound, w)
    ensures Inv(bound, Apply(bound, w, Reconnect))
  {
    ChainRises(w.allowed, LastId(w.client, w.base), w.wire);
    var t := Apply(bound, w, Reconnect);
    assert t.wire != [] ==> t.wire[1..] == [];
    assert t.breaks[|w.breaks|].received == |t.client|;
    forall e | e in t.allowed && t.base < e <= LastId(t.client, t.base)
      ensures Accounted(t.client, e) || CutOff(t.client, t.breaks, e) || e in Owed(t.client)
    {
      if CutOff(w.client, w.breaks, e) {
        var r :| 0 <= r < |w.breaks| && CutAt(w.client, w.breaks[r].received, e);
        assert CutAt(t.client, t.breaks[r].received, e);
      }
    }
  }

  /** Every interleaving of publishing, reading, receiving and reconnecting keeps
      the invariant. */
  lemma {:induction false} RunKeeps(bound: nat, n: nat, steps: seq<Step>)
    ensures Inv(bound, Run(bound, n, steps))
  {
    if steps == [] {
    } else {
      var w := Run(bound, n, steps[..|steps| - 1]);
      RunKeeps(bound, n, steps[..|steps| - 1]);
      match steps[|steps| - 1]
      case Publish(allow) => PublishKeeps(bound, w, allow);
      case Read => ReadKeeps(bound, w);
      case Receive => ReceiveKeeps(bound, w);
      case Reconnect => ReconnectKeeps(bound, w);
    }
  }

  // ------------------------------------------- order of delivery, honest gaps

  /** The numbers of the events among some frames. */
  function Nums(frames: seq<Frame>): seq<nat> {
    if frames == [] then []
    else
      var f := frames[|frames| - 1];
      Nums(frames[..|frames| - 1]) + (if f.Event? then [f.num] else [])
  }

  lemma {:induction false} NumsConcat(a: seq<Frame>, b: seq<Frame>)
    ensures Nums(a + b) == Nums(a) + Nums(b)
  {
    if b == [] {
      assert a + b == a;
    } else {
      var c, n := a + b, |b| - 1;
      assert c[..|c| - 1] == a + b[..n];
      NumsConcat(a, b[..n]);
    }
  }

  /** Delivered, on the wire, or queued: everything that has reached the client or still can. */
  function Deliverable(w: World): seq<nat> {
    Nums(w.client) + (Nums(w.wire) + w.sub.queue)
  }

  predicate Ascending(xs: seq<nat>) {
    forall i, j :: 0 <= i < j < |xs| ==> xs[i] < xs[j]
  }

  /** Something was discarded between `lo` and `hi`. */
  predicate LostBetween(lost: set<nat>, lo: nat, hi: nat) {
    exists l :: l in lost && lo < l < hi
  }

  /** What can still be delivered rises, is no newer than the hub, and was not discarded. */
  predicate Fresh(xs: seq<nat>, hubSeq: nat, lost: set<nat>) {
    && Ascending(xs)
    && (forall i :: 0 <= i < |xs| ==> xs[i] <= hubSeq && xs[i] !in lost)
    && (forall l :: l in lost ==> l <= hubSeq)
  }

  /** A pending drop count, and every announced gap, has a discarded event inside. */
  predicate GapsReal(w: World) {
    && (w.sub.dropped > 0 ==> w.sub.queue != [] && LostBetween(w.lost, w.sub.lastDelivered, w.sub.queue[0]))
    && (w.sub.queue != [] ==> w.sub.lastDelivered < w.sub.queue[0])
    && w.sub.lastDelivered <= w.hubSeq
    && (forall f :: f in w.client + w.wire && f.TakeGap? ==> LostBetween(w.lost, f.fromSeq, f.toSeq))
  }

  predicate Honest(w: World) {
    Fresh(Deliverable(w), w.hubSeq, w.lost) && GapsReal(w)
  }

  lemma LostGrows(lost: set<nat>, l: nat)
    ensures forall lo: nat, hi: nat :: LostBetween(lost, lo, hi) ==> LostBetween(lost + {l}, lo, hi)
    ensures forall lo: nat, hi: nat :: lo < l < hi ==> LostBetween(lost + {l}, lo, hi)
  {
    forall lo: nat, hi: nat
      ensures LostBetween(lost, lo, hi) ==> LostBetween(lost + {l}, lo, hi)
      ensures lo < l < hi ==> LostBetween(lost + {l}, lo, hi)
    {
      if LostBetween(lost, lo, hi) {
        var k :| k in lost && lo < k < hi;
        assert k in lost + {l};
      }
      assert l in lost + {l};
    }
  }

  /** The oldest queued event makes room for the newest. */
  lemma FreshAfterDrop(a: seq<nat>, q: seq<nat>, hubSeq: nat, lost: set<nat>)
    requires q != [] && Fresh(a + q, hubSeq, lost)
    ensures Fresh(a + (q[1..] + [hubSeq + 1]), hubSeq + 1, lost + {q[0]})
  {
    var was, now := a + q, a + (q[1..] + [hubSeq + 1]);
    var k := |a|;
    assert was[k] == q[0];
    forall i | 0 <= i < |now|
      ensures now[i] == if i < k then was[i] else if i < |now| - 1 then was[i + 1] else hubSeq + 1
      ensures now[i] != q[0] && now[i] <= hubSeq + 1 && now[i] !in lost
    {
    }
    forall i, j | 0 <= i < j < |now|
      ensures now[i] < now[j]
    {
      var i' := if i < k then i else i + 1;
      assert now[i] == was[i'];
      if j < |now| - 1 {
        var j' := if j < k then j else j + 1;
        assert now[j] == was[j'] && was[i'] < was[j'];
      }
    }
  }

  lemma FreshAfterPut(a: seq<nat>, q: seq<nat>, hubSeq: nat, lost: set<nat>)
    requires Fresh(a + q, hubSeq, lost)
    ensures Fresh(a + (q + [hubSeq + 1]), hubSeq + 1, lost)
    ensures Fresh(a + q, hubSeq + 1, lost)
  {
    assert a + (q + [hubSeq + 1]) == a + q + [hubSeq + 1];
  }

  lemma DeliverableSplit(w: World)
    ensures Deliverable(w) == Nums(w.client) + Nums(w.wire) + w.sub.queue
  {
  }

  lemma PublishHonest(bound: nat, w: World, allow: bool)
    requires Honest(w)
    ensures Honest(Apply(bound, w, Publish(allow)))
  {
    hide Nums;
    var t := Apply(bound, w, Publish(allow));
    var a, q := Nums(w.client) + Nums(w.wire), w.sub.queue;
    DeliverableSplit(w);
    DeliverableSplit(t);
    FreshAfterPut(a, q, w.hubSeq, w.lost);
    if allow && Full(w.sub, bound) {
      FreshAfterDrop(a, q, w.hubSeq, w.lost);
      LostGrows(w.lost, q[0]);
      assert (a + q)[|a|] == q[0];
      if |q| > 1 {
        assert (a + q)[|a| + 1] == q[1];
      }
      assert q[0] < t.sub.queue[0];
      assert LostBetween(t.lost, w.sub.lastDelivered, t.sub.queue[0]);
    }
  }

  lemma DeliveryNums(s: Subscription)
    requires s.queue != []
    ensures Nums(Delivery(s)) == [s.queue[0]]
  {
    var gap := Delivery(s)[..|Delivery(s)| - 1];
    if s.dropped > 0 {
      assert gap == [TakeGap(s.lastDelivered, s.queue[0])];
      assert gap[..0] == [];
    }
    assert Nums(gap) == [];
  }

  lemma ReadHonest(bound: nat, w: World)
    requires Honest(w)
    ensures Honest(Apply(bound, w, Read))
  {
    hide Nums;
    var t := Apply(bound, w, Read);
    if w.sub.queue != [] {
      var q, d := w.sub.queue, Delivery(w.sub);
      NumsConcat(w.wire, d);
      DeliveryNums(w.sub);
      assert q == [q[0]] + q[1..];
      assert Deliverable(t) == Deliverable(w);
      var k := |Deliverable(w)| - |q|;
      assert Deliverable(w)[k] == q[0];
      if t.sub.queue != [] {
        assert Deliverable(w)[k + 1] == q[1];
      }
      assert t.client + t.wire == w.client + w.wire + d;
    }
  }

  lemma ReceiveHonest(bound: nat, w: World)
    requires Honest(w)
    ensures Honest(Apply(bound, w, Receive))
  {
    hide Nums;
    var t := Apply(bound, w, Receive);
    if w.wire != [] {
      var head := [w.wire[0]];
      assert w.wire == head + t.wire;
      NumsConcat(head, t.wire);
      NumsConcat(w.client, head);
      assert t.client == w.client + head;
      assert Deliverable(t) == Deliverable(w);
      assert t.client + t.wire == w.client + w.wire;
    }
  }

  lemma ReconnectHonest(bound: nat, w: World)
    requires Honest(w)
    ensures Honest(Apply(bound, w, Reconnect))
  {
    var t := Apply(bound, w, Reconnect);
    var was, now := Deliverable(w), Deliverable(t);
    assert Nums(t.wire) == [];
    assert now == Nums(w.client);
    assert forall i :: 0 <= i < |now| ==> now[i] == was[i];
    assert forall f :: f in t.client + t.wire && f.TakeGap? ==> f in w.client;
    assert forall f :: f in w.client ==> f in w.client + w.wire;
  }

  lemma {:induction false} RunHonest(bound: nat, n: nat, steps: seq<Step>)
    ensures Honest(Run(bound, n, steps))
  {
    if steps == [] {
    } else {
      var w := Run(bound, n, steps[..|steps| - 1]);
      RunHonest(bound, n, steps[..|steps| - 1]);
      match steps[|steps| - 1]
      case Publish(allow) => PublishHonest(bound, w, allow);
      case Read => ReadHonest(bound, w);
      case Receive => ReceiveHonest(bound, w);
      case Reconnect => ReconnectHonest(bound, w);
    }
  }

  // ------------------------------------------------------------- what it means

  /** In every run: the event numbers a client receives only grow, its queue stays
      within its bound, nothing it received was discarded, and every gap announced
      before a delivery has an event lost strictly inside it. */
  lemma DeliveredInOrder(bound: nat, n: nat, steps: seq<Step>)
    ensures var w := Run(bound, n, steps);
            && Ascending(Nums(w.client))
            && (bound > 0 ==> |w.sub.queue| <= bound)
            && (forall x :: x in Nums(w.client) ==> x !in w.lost)
            && (forall f :: f in w.client && f.TakeGap? ==> LostBetween(w.lost, f.fromSeq, f.toSeq))
  {
    RunKeeps(bound, n, steps);
    RunHonest(bound, n, steps);
    var w := Run(bound, n, steps);
    assert Nums(w.client) == Deliverable(w)[..|Nums(w.client)|];
    assert forall f :: f in w.client ==> f in w.client + w.wire;
  }

  /** Ids never go back along the stream, and a gap before a delivery is ahead of
      everything before it. */
  predicate Monotone(frames: seq<Frame>) {
    forall i, j :: 0 <= i < j < |frames| ==>
      frames[i].Id() <= frames[j].Id() && (frames[j].TakeGap? ==> frames[i].Id() < frames[j].Id())
  }

  lemma {:induction false} RunMonotone(bound: nat, n: nat, steps: seq<Step>)
    ensures var w := Run(bound, n, steps); Monotone(w.client + w.wire)
  {
    if steps == [] {
    } else {
      var w := Run(bound, n, steps[..|steps| - 1]);
      RunMonotone(bound, n, steps[..|steps| - 1]);
      RunKeeps(bound, n, steps[..|steps| - 1]);
      MonotoneStep(bound, w, steps[|steps| - 1]);
    }
  }

  lemma MonotoneAppend(was: seq<Frame>, s: Subscription)
    requires Monotone(was) && s.queue != []
    requires was != [] ==> was[|was| - 1].Id() < s.queue[0]
    ensures Monotone(was + Delivery(s))
  {
  }

  lemma MonotoneRead(bound: nat, w: World)
    requires Queued(bound, w) && Monotone(w.client + w.wire)
    ensures var t := Apply(bound, w, Read); Monotone(t.client + t.wire)
  {
    hide Monotone;
    if w.sub.queue != [] {
      var was := w.client + w.wire;
      assert was != [] ==> was[|was| - 1].Id() == LastSent(w);
      MonotoneAppend(was, w.sub);
      assert w.client + (w.wire + Delivery(w.sub)) == was + Delivery(w.sub);
    }
  }

  lemma MonotoneReconnect(bound: nat, w: World)
    requires Queued(bound, w) && Chain(w.allowed, LastId(w.client, w.base), w.wire)
    requires Monotone(w.client + w.wire)
    ensures var t := Apply(bound, w, Reconnect); Monotone(t.client + t.wire)
  {
    hide Chain;
    ChainRises(w.allowed, LastId(w.client, w.base), w.wire);
    MonotonePrefix(w.client, w.wire);
    var t := Apply(bound, w, Reconnect);
    assert t.wire == [] ==> t.client + t.wire == w.client;
  }

  lemma MonotonePrefix(a: seq<Frame>, b: seq<Frame>)
    requires Monotone(a + b)
    ensures Monotone(a)
  {
    assert forall i :: 0 <= i < |a| ==> (a + b)[i] == a[i];
  }

  lemma MonotoneStep(bound: nat, w: World, step: Step)
    requires Queued(bound, w) && Chain(w.allowed, LastId(w.client, w.base), w.wire)
    requires Monotone(w.client + w.wire)
    ensures var t := Apply(bound, w, step); Monotone(t.client + t.wire)
  {
    hide Chain, Monotone, Queued;
    match step
    case Publish(_) =>
    case Read => MonotoneRead(bound, w);
    case Receive =>
      if w.wire != [] {
        assert w.client + [w.wire[0]] + w.wire[1..] == w.client + w.wire;
      }
    case Reconnect => MonotoneReconnect(bound, w);
  }

  // ------------------------------------------------------- what goes unannounced

  /** The client's last id as it was at a reconnect; where the hub stood, if none. */
  function IdAt(w: World, r: nat): nat
    requires r < |w.breaks| && w.breaks[r].received <= |w.client|
  {
    var b := w.breaks[r];
    if b.received == 0 then b.hubSeq else w.client[b.received - 1].Id()
  }

  /** A frame sent after a reconnect at which the hub stood at `h` and the client at
      `id`: news is newer, and a gap before a delivery begins at nothing or at news. */
  predicate Later(f: Frame, h: nat, id: nat) {
    match f
    case Event(num) => num > h
    case TakeGap(fromSeq, toSeq) => toSeq > h && (fromSeq == 0 || fromSeq > h)
    case ResumeGap(fromSeq, toSeq) => toSeq >= h && fromSeq >= id
  }

  predicate LaterFrom(w: World, r: nat)
    requires r < |w.breaks| && w.breaks[r].received <= |w.client|
  {
    var all, b := w.client + w.wire, w.breaks[r];
    && (forall i :: b.received <= i < |all| ==> Later(all[i], b.hubSeq, IdAt(w, r)))
    && (forall i :: 0 <= i < |w.sub.queue| ==> w.sub.queue[i] > b.hubSeq)
    && (w.sub.lastDelivered == 0 || w.sub.lastDelivered > b.hubSeq)
    && b.hubSeq <= w.hubSeq
    && (forall i :: 0 <= i < b.received ==> w.client[i].Id() <= b.hubSeq)
  }

  /** What `base` is, and what every reconnect separates. */
  predicate Separated(n: nat, w: World) {
    && n <= w.base
    && (w.base == n || exists r :: 0 <= r < |w.breaks| && w.breaks[r] == Break(0, w.base))
    && forall r :: 0 <= r < |w.breaks| ==>
         && w.breaks[r].received <= |w.client|
         && (w.breaks[r].received == 0 ==> w.breaks[r].hubSeq <= w.base)
         && LaterFrom(w, r)
  }

  lemma PublishSeparates(bound: nat, w: World, allow: bool, r: nat)
    requires r < |w.breaks| && w.breaks[r].received <= |w.client| && LaterFrom(w, r)
    ensures LaterFrom(Apply(bound, w, Publish(allow)), r)
  {
    var t := Apply(bound, w, Publish(allow));
    assert forall i :: 0 <= i < |t.sub.queue| ==> t.sub.queue[i] in w.sub.queue || t.sub.queue[i] == t.hubSeq;
  }

  lemma ReadSeparates(bound: nat, w: World, r: nat)
    requires r < |w.breaks| && w.breaks[r].received <= |w.client| && LaterFrom(w, r)
    ensures LaterFrom(Apply(bound, w, Read), r)
  {
    var t := Apply(bound, w, Read);
    if w.sub.queue != [] {
      var was, d := w.client + w.wire, Delivery(w.sub);
      assert t.client + t.wire == was + d;
      assert forall i :: 0 <= i < |d| ==> Later(d[i], w.breaks[r].hubSeq, IdAt(w, r));
    }
  }

  lemma ReceiveSeparates(bound: nat, w: World, r: nat)
    requires r < |w.breaks| && w.breaks[r].received <= |w.client| && LaterFrom(w, r)
    ensures LaterFrom(Apply(bound, w, Receive), r)
  {
    var t := Apply(bound, w, Receive);
    if w.wire != [] {
      assert t.client + t.wire == w.client + w.wire;
    }
  }

  lemma ReconnectSeparates(bound: nat, w: World, r: nat)
    requires r < |w.breaks| && w.breaks[r].received <= |w.client| && LaterFrom(w, r)
    requires Monotone(w.client)
    ensures LaterFrom(Apply(bound, w, Reconnect), r)
  {
    var t, b := Apply(bound, w, Reconnect), w.breaks[r];
    var all, was := t.client + t.wire, w.client + w.wire;
    forall i | b.received <= i < |all|
      ensures Later(all[i], b.hubSeq, IdAt(t, r))
    {
      if i < |w.client| {
        assert all[i] == was[i];
      } else if b.received < |w.client| {
        var last := |w.client| - 1;
        assert was[last] == w.client[last] && Later(was[last], b.hubSeq, IdAt(w, r));
      }
    }
  }

  /** A reconnect separates what the client had from what is to come. */
  lemma BreakSeparates(bound: nat, w: World)
    requires Inv(bound, w)
    requires Monotone(w.client)
    ensures var t := Apply(bound, w, Reconnect);
            t.breaks[|w.breaks|] == Break(|w.client|, w.hubSeq) && LaterFrom(t, |w.breaks|)
  {
    ChainRises(w.allowed, LastId(w.client, w.base), w.wire);
  }

  lemma SeparatedStep(bound: nat, n: nat, w: World, step: Step)
    requires Inv(bound, w) && Separated(n, w) && Monotone(w.client)
    ensures Separated(n, Apply(bound, w, step))
  {
    hide LaterFrom, Chain, Monotone;
    var t := Apply(bound, w, step);
    if w.base != n {
      var r :| 0 <= r < |w.breaks| && w.breaks[r] == Break(0, w.base);
      assert t.breaks[r] == Break(0, w.base);
    }
    if step == Reconnect {
      BreakSeparates(bound, w);
    }
    forall r | 0 <= r < |w.breaks|
      ensures t.breaks[r] == w.breaks[r] && t.breaks[r].received <= |t.client| && LaterFrom(t, r)
    {
      match step
      case Publish(allow) => PublishSeparates(bound, w, allow, r);
      case Read => ReadSeparates(bound, w, r);
      case Receive => ReceiveSeparates(bound, w, r);
      case Reconnect => ReconnectSeparates(bound, w, r);
    }
    if step == Reconnect && w.client == [] {
      BaseMoves(bound, n, w);
    }
  }

  lemma BaseMoves(bound: nat, n: nat, w: World)
    requires Inv(bound, w) && Separated(n, w) && w.client == []
    ensures var t := Apply(bound, w, Reconnect);
            && n <= t.base && t.breaks[|w.breaks|] == Break(0, t.base)
            && forall r :: 0 <= r < |t.breaks| ==> t.breaks[r].hubSeq <= t.base
  {
    ChainRises(w.allowed, LastId(w.client, w.base), w.wire);
    forall r | 0 <= r < |w.breaks| ensures w.breaks[r].hubSeq <= w.hubSeq {
      assert LaterFrom(w, r);
    }
  }

  lemma {:induction false} RunSeparates(bound: nat, n: nat, steps: seq<Step>)
    ensures Separated(n, Run(bound, n, steps))
  {
    if steps == [] {
    } else {
      hide Separated, Inv, Monotone, Apply;
      var before := steps[..|steps| - 1];
      RunSeparates(bound, n, before);
      RunKeeps(bound, n, before);
      RunMonotone(bound, n, before);
      var w := Run(bound, n, before);
      MonotonePrefix(w.client, w.wire);
      SeparatedStep(bound, n, w, steps[|steps| - 1]);
    }
  }

  /** Reconnect `r` keeps `e` from the client: nothing had been received yet, so no
      gap was owed, or the connection broke between a gap and `e` itself. */
  predicate Hides(w: World, r: nat, e: nat)
    requires r < |w.breaks|
  {
    if w.breaks[r].received == 0 then e <= w.breaks[r].hubSeq else CutAt(w.client, w.breaks[r].received, e)
  }

  /** Hidden, and no later subscription overflowed before its first delivery: the gap
      announced then begins at nothing, and so happens to cover `e`. */
  predicate StaysHidden(w: World, r: nat, e: nat)
    requires r < |w.breaks|
  {
    && Hides(w, r, e)
    && forall i :: w.breaks[r].received <= i < |w.client| && w.client[i].TakeGap? ==> w.client[i].fromSeq > 0
  }

  /** Frames before a cut-off gap do not account for its event. */
  lemma NotBefore(client: seq<Frame>, k: nat, e: nat)
    requires 0 < k <= |client| && Monotone(client) && client[k - 1].TakeGap? && client[k - 1].toSeq == e
    ensures forall i :: 0 <= i < k ==> client[i] != Event(e) && !client[i].Covers(e)
  {
  }

  lemma StaysHiddenIsMissed(n: nat, w: World, r: nat, e: nat)
    requires Separated(n, w) && Monotone(w.client)
    requires r < |w.breaks| && StaysHidden(w, r, e)
    ensures !Accounted(w.client, e)
  {
    hide Monotone;
    var all, b := w.client + w.wire, w.breaks[r];
    assert LaterFrom(w, r);
    if b.received > 0 {
      NotBefore(w.client, b.received, e);
      assert e <= b.hubSeq;
    }
    forall i | b.received <= i < |w.client|
      ensures w.client[i] != Event(e) && !w.client[i].Covers(e)
    {
      assert all[i] == w.client[i] && Later(all[i], b.hubSeq, IdAt(w, r));
    }
  }

  /** A hidden event that is announced after all was announced by such a gap. */
  lemma HiddenThenAnnounced(n: nat, w: World, r: nat, e: nat)
    requires Separated(n, w) && r < |w.breaks| && Hides(w, r, e) && !StaysHidden(w, r, e) && e > 0
    ensures Accounted(w.client, e)
  {
    var all, b := w.client + w.wire, w.breaks[r];
    assert LaterFrom(w, r);
    var i :| b.received <= i < |w.client| && w.client[i].TakeGap? && w.client[i].fromSeq == 0;
    assert all[i] == w.client[i] && Later(all[i], b.hubSeq, IdAt(w, r));
    if b.received > 0 {
      assert w.client[b.received - 1].Id() <= b.hubSeq;
    }
    assert w.client[i].Covers(e);
  }

  lemma OwedIsMissing(client: seq<Frame>, e: nat)
    requires Monotone(client) && e in Owed(client)
    ensures !Accounted(client, e)
  {
    NotBefore(client, |client|, e);
  }

  /** In every run, for each event the filter let through since the client first
      connected and up to the last id it has seen: it was neither delivered nor lies
      inside an announced gap exactly if a reconnect hid it for good, or it is the
      event announced by the very last frame received. */
  lemma MissedExactly(bound: nat, n: nat, steps: seq<Step>, e: nat)
    requires var w := Run(bound, n, steps); e in w.allowed && n < e <= LastId(w.client, w.base)
    ensures var w := Run(bound, n, steps);
            !Accounted(w.client, e) <==>
            (exists r :: 0 <= r < |w.breaks| && StaysHidden(w, r, e)) || e in Owed(w.client)
  {
    hide Monotone, Accounted, StaysHidden, Chain;
    var w := Run(bound, n, steps);
    RunKeeps(bound, n, steps);
    RunSeparates(bound, n, steps);
    RunMonotone(bound, n, steps);
    MonotonePrefix(w.client, w.wire);
    if e in Owed(w.client) {
      OwedIsMissing(w.client, e);
    } else if exists r :: 0 <= r < |w.breaks| && StaysHidden(w, r, e) {
      var r :| 0 <= r < |w.breaks| && StaysHidden(w, r, e);
      StaysHiddenIsMissed(n, w, r, e);
    } else if exists r :: 0 <= r < |w.breaks| && Hides(w, r, e) {
      var r :| 0 <= r < |w.breaks| && Hides(w, r, e);
      HiddenThenAnnounced(n, w, r, e);
    } else {
      HiddenOrAccounted(bound, n, w, e);
    }
  }

  /** An event no reconnect hid has reached the client, as itself or inside a gap. */
  lemma HiddenOrAccounted(bound: nat, n: nat, w: World, e: nat)
    requires Inv(bound, w) && Separated(n, w)
    requires e in w.allowed && n < e <= LastId(w.client, w.base) && e !in Owed(w.client)
    ensures Accounted(w.client, e) || exists r :: 0 <= r < |w.breaks| && Hides(w, r, e)
  {
    hide Accounted, Chain, LaterFrom;
    if e <= w.base {
      var r :| 0 <= r < |w.breaks| && w.breaks[r] == Break(0, w.base);
      assert Hides(w, r, e);
    } else if CutOff(w.client, w.breaks, e) {
      var r :| 0 <= r < |w.breaks| && CutAt(w.client, w.breaks[r].received, e);
      assert Hides(w, r, e);
    }
  }

  /** The event announced by the last frame received is the next to arrive, unless
      the client has reconnected since. */
  lemma OwedIsNext(bound: nat, n: nat, steps: seq<Step>, e: nat)
    requires e in Owed(Run(bound, n, steps).client)
    ensures var w := Run(bound, n, steps);
            || (w.wire != [] && w.wire[0] == Event(e))
            || exists r :: 0 <= r < |w.breaks| && w.breaks[r].received == |w.client|
  {
    RunKeeps(bound, n, steps);
  }

  function Publishes(steps: seq<Step>): nat {
    if steps == [] then 0
    else Publishes(steps[..|steps| - 1]) + if steps[|steps| - 1].Publish? then 1 else 0
  }

  /** The hub numbers every event published, let through to this client or not. */
  lemma {:induction false} HubCounts(bound: nat, n: nat, steps: seq<Step>)
    ensures Run(bound, n, steps).hubSeq == n + Publishes(steps)
  {
    if steps == [] {
    } else {
      HubCounts(bound, n, steps[..|steps| - 1]);
    }
  }

  /** How often the queue has overflowed since something was last taken from it. */
  function Overflows(bound: nat, n: nat, steps: seq<Step>): nat {
    if steps == [] then 0
    else
      var before, step := steps[..|steps| - 1], steps[|steps| - 1];
      var waiting := |Run(bound, n, before).sub.queue|;
      match step
      case Publish(allow) => Overflows(bound, n, before) + if allow && bound > 0 && waiting >= bound then 1 else 0
      case Read => if waiting == 0 then Overflows(bound, n, before) else 0
      case Receive => Overflows(bound, n, before)
      case Reconnect => 0
  }

  /** In every run, `dropped` is exactly that. */
  lemma {:induction false} DroppedTells(bound: nat, n: nat, steps: seq<Step>)
    ensures Run(bound, n, steps).sub.dropped == Overflows(bound, n, steps)
  {
    if steps == [] {
    } else {
      DroppedTells(bound, n, steps[..|steps| - 1]);
    }
  }

  // ------------------------------------------------------- where a gap begins

  /** Every frame the client received, and those still on the wire to it. */
  function Sent(w: World): seq<Frame> {
    w.client + w.wire
  }

  /** Where the connection begins that sent frame `i`: at the last reconnect before it. */
  function ConnectionStart(breaks: seq<Break>, i: nat): (k: nat)
    ensures k <= i
  {
    if breaks == [] then 0
    else
      var last := breaks[|breaks| - 1];
      if last.received <= i then last.received else ConnectionStart(breaks[..|breaks| - 1], i)
  }

  /** The number of the last event among some frames; 0 when there is none. */
  function LastEvent(frames: seq<Frame>): nat {
    if frames == [] then 0
    else if frames[|frames| - 1].Event? then frames[|frames| - 1].num
    else LastEvent(frames[..|frames| - 1])
  }

  /** Frame `i`, if it announces a gap, begins it where it should: before a delivery, at the
      last event this connection delivered; after a reconnect, at the last frame received,
      and there it ends where the hub then stood. */
  ghost predicate BeginsRight(frames: seq<Frame>, breaks: seq<Break>, i: nat)
    requires i < |frames|
  {
    match frames[i]
    case Event(_) => true
    case TakeGap(from, _) => from == LastEvent(frames[ConnectionStart(breaks, i)..i])
    case ResumeGap(from, to) => i > 0 && from == frames[i - 1].Id() && Break(i, to) in breaks
  }

  ghost predicate WellBegun(w: World) {
    && (forall r :: 0 <= r < |w.breaks| ==> w.breaks[r].received <= |w.client|)
    && (forall i :: 0 <= i < |Sent(w)| ==> BeginsRight(Sent(w), w.breaks, i))
    && w.sub.lastDelivered == LastEvent(Sent(w)[ConnectionStart(w.breaks, |Sent(w)|)..])
  }

  /** More frames at the end do not matter to an earlier one. */
  lemma PrefixBegins(frames: seq<Frame>, more: seq<Frame>, breaks: seq<Break>, i: nat)
    requires i < |frames|
    ensures BeginsRight(frames + more, breaks, i) == BeginsRight(frames, breaks, i)
  {
    hide LastEvent, ConnectionStart;
    var k := ConnectionStart(breaks, i);
    assert (frames + more)[k..i] == frames[k..i];
  }

  lemma LastEventSnoc(frames: seq<Frame>, f: Frame)
    ensures LastEvent(frames + [f]) == if f.Event? then f.num else LastEvent(frames)
  {
    assert (frames + [f])[..|frames|] == frames;
  }

  lemma ReadBegins(bound: nat, w: World)
    requires WellBegun(w) && w.sub.queue != []
    ensures WellBegun(Apply(bound, w, Read))
  {
    hide LastEvent, BeginsRight, Delivery;
    var t, all, d := Apply(bound, w, Read), Sent(w), Delivery(w.sub);
    var k := ConnectionStart(w.breaks, |all|);
    assert Sent(t) == all + d;
    forall i | 0 <= i < |all| ensures BeginsRight(Sent(t), w.breaks, i) {
      PrefixBegins(all, d, w.breaks, i);
    }
    SameConnection(w.breaks, |w.client|, |all|, |all| + |d|);
    DeliveryBegins(all, w.sub, w.breaks, k);
  }

  /** Past the last reconnect, every place is on the same connection. */
  lemma SameConnection(breaks: seq<Break>, received: nat, i: nat, j: nat)
    requires forall r :: 0 <= r < |breaks| ==> breaks[r].received <= received
    requires received <= i && received <= j
    ensures ConnectionStart(breaks, i) == ConnectionStart(breaks, j) <= received
  {
  }

  lemma DeliveryBegins(all: seq<Frame>, s: Subscription, breaks: seq<Break>, k: nat)
    requires s.queue != [] && k == ConnectionStart(breaks, |all|)
    requires s.lastDelivered == LastEvent(all[k..])
    ensures var next := all + Delivery(s);
            && (forall i :: |all| <= i < |next| ==> BeginsRight(next, breaks, i))
            && LastEvent(next[k..]) == s.queue[0]
  {
    hide LastEvent, ConnectionStart;
    var d := Delivery(s);
    var next, event := all + d, Event(s.queue[0]);
    assert next[k..] == all[k..] + d;
    if s.dropped == 0 {
      assert d == [event];
      LastEventSnoc(all[k..], event);
    } else {
      var gap := d[0];
      assert next[k..] == all[k..] + [gap] + [event];
      LastEventSnoc(all[k..] + [gap], event);
      assert next[k..|all|] == all[k..];
    }
  }

  lemma ReconnectBegins(bound: nat, w: World)
    requires WellBegun(w)
    ensures WellBegun(Apply(bound, w, Reconnect))
  {
    hide LastEvent, ConnectionStart;
    var t, n := Apply(bound, w, Reconnect), |w.client|;
    forall i | 0 <= i < n ensures BeginsRight(Sent(t), t.breaks, i) {
      PrefixBegins(w.client, w.wire, w.breaks, i);
      PrefixBegins(w.client, t.wire, t.breaks, i);
      LaterBreak(w.breaks, t.breaks[|w.breaks|], i);
    }
    LaterBreak(w.breaks, t.breaks[|w.breaks|], |Sent(t)|);
    assert Sent(t)[n..] == t.wire;
    NoEvents(t.wire);
    if t.wire != [] {
      assert Sent(t)[n] == t.wire[0] && Sent(t)[n - 1] == w.client[n - 1];
      assert t.breaks[|w.breaks|] in t.breaks;
    }
  }

  lemma NoEvents(frames: seq<Frame>)
    requires |frames| <= 1 && forall f :: f in frames ==> !f.Event?
    ensures LastEvent(frames) == 0
  {
  }

  lemma LaterBreak(breaks: seq<Break>, b: Break, i: nat)
    ensures ConnectionStart(breaks + [b], i) == if b.received <= i then b.received else ConnectionStart(breaks, i)
  {
    assert (breaks + [b])[..|breaks|] == breaks;
  }

  lemma {:induction false} RunBegins(bound: nat, n: nat, steps: seq<Step>)
    ensures WellBegun(Run(bound, n, steps))
  {
    if steps == [] {
    } else {
      var w, step := Run(bound, n, steps[..|steps| - 1]), steps[|steps| - 1];
      RunBegins(bound, n, steps[..|steps| - 1]);
      hide BeginsRight, LastEvent, ConnectionStart, Delivery;
      match step
      case Publish(allow) => assert Sent(Apply(bound, w, step)) == Sent(w);
      case Read =>
        if w.sub.queue != [] {
          ReadBegins(bound, w);
        }
      case Receive => assert Sent(Apply(bound, w, step)) == Sent(w);
      case Reconnect => ReconnectBegins(bound, w);
    }
  }

  /** In every run, every gap begins at what its client is known to have: before a delivery,
      the last event sent on the same connection, or 0 when there was none; after a
      reconnect, the last frame it received. */
  lemma GapsBeginRight(bound: nat, n: nat, steps: seq<Step>, i: nat)
    requires i < |Sent(Run(bound, n, steps))|
    ensures var w := Run(bound, n, steps); BeginsRight(Sent(w), w.breaks, i)
  {
    RunBegins(bound, n, steps);
  }

  /** So nothing delivered on a connection is announced as lost later on it. */
  lemma DeliveredNotAnnounced(bound: nat, n: nat, steps: seq<Step>, i: nat, j: nat)
    requires var w := Run(bound, n, steps);
             && ConnectionStart(w.breaks, j) <= i < j < |Sent(w)|
             && Sent(w)[i].Event? && Sent(w)[j].TakeGap?
    ensures var w := Run(bound, n, steps);
            Sent(w)[i].num <= Sent(w)[j].fromSeq && !Sent(w)[j].Covers(Sent(w)[i].num)
  {
    var w := Run(bound, n, steps);
    var k := ConnectionStart(w.breaks, j);
    GapsBeginRight(bound, n, steps, j);
    RunMonotone(bound, n, steps);
    hide Run, ConnectionStart;
    LastEventAfter(Sent(w), k, i, j);
  }

  /** The last event before `j` is event `i` or a later one. */
  lemma {:induction false} LastEventAfter(frames: seq<Frame>, k: nat, i: nat, j: nat)
    requires Monotone(frames) && k <= i < j <= |frames| && frames[i].Event?
    ensures frames[i].num <= LastEvent(frames[k..j])
  {
    var last := frames[k..j];
    assert last[|last| - 1] == frames[j - 1];
    if frames[j - 1].Event? {
      assert frames[i].Id() <= frames[j - 1].Id();
    } else {
      assert last[..|last| - 1] == frames[k..j - 1];
      LastEventAfter(frames, k, i, j - 1);
    }
  }

  // ------------------------------------------------------------- the objects

  /** What is published, as far as a filter looks at it. */
  datatype Message = Message(kind: string, data: string)

  class Subscriber {
    const bound: nat
    const filter: Message -> bool
    var queue: seq<nat>
    var dropped: nat
    var lastDelivered: nat

    ghost function View(): Subscription
      reads this
    {
      Subscription(queue, dropped, lastDelivered)
    }

    constructor (bound: nat, filter: Message -> bool)
      ensures View() == FRESH && this.bound == bound && this.filter == filter
    {
      this.bound, this.filter := bound, filter;
      queue, dropped, lastDelivered := [], 0, 0;
    }

    method Accept(e: nat)
      modifies this
      ensures View() == Offer(old(View()), bound, e)
    {
      if bound > 0 && |queue| >= bound {
        queue := queue[1..];
        dropped := dropped + 1;
      }
      queue := queue + [e];
    }

    method TakeGap(upcoming: nat) returns (gap: Option<Frame>)
      modifies this
      ensures gap == if old(dropped) == 0 then None else Some(Frame.TakeGap(lastDelivered, upcoming))
      ensures View() == old(View()).(dropped := 0)
    {
      if dropped == 0 {
        return None;
      }
      gap := Some(Frame.TakeGap(lastDelivered, upcoming));
      dropped := 0;
    }

    /** One turn of the delivery loop: the frames it yields. */
    method Deliver() returns (frames: seq<Frame>)
      requires queue != []
      modifies this
      ensures frames == Delivery(old(View())) && View() == AfterRead(old(View()))
    {
      var e := queue[0];
      queue := queue[1..];
      var gap := TakeGap(e);
      frames := if gap.Some? then [gap.value] else [];
      lastDelivered := e;
      frames := frames + [Event(e)];
    }
  }

  class Hub {
    var subscribers: set<Subscriber>
    var lastSeq: nat

    constructor ()
      ensures subscribers == {} && lastSeq == 0
    {
      subscribers, lastSeq := {}, 0;
    }

    /** Numbers the event and offers it to each subscriber whose filter lets it
        through; the others' queues do not change. */
    method Publish(message: Message) returns (num: nat)
      modifies this`lastSeq, subscribers
      ensures num == lastSeq == old(lastSeq) + 1
      ensures forall s :: s in subscribers ==>
                s.View() == if s.filter(message) then Offer(old(s.View()), s.bound, num) else old(s.View())
    {
      lastSeq := lastSeq + 1;
      num := lastSeq;
      var todo := subscribers;
      while todo != {}
        invariant todo <= subscribers && lastSeq == num
        invariant forall s :: s in todo ==> s.View() == old(s.View())
        invariant forall s :: s in subscribers - todo ==>
                    s.View() == if s.filter(message) then Offer(old(s.View()), s.bound, num) else old(s.View())
        decreases |todo|
      {
        var s :| s in todo;
        todo := todo - {s};
        if s.filter(message) {
          s.Accept(num);
        }
      }
    }

    /** A new connection; a client that names an older last event is owed a gap. */
    method Subscribe(bound: nat, filter: Message -> bool, lastEventId: Option<nat>)
      returns (s: Subscriber, first: seq<Frame>)
      modifies this`subscribers
      ensures fresh(s) && subscribers == old(subscribers) + {s} && s.View() == FRESH
      ensures s.bound == bound && s.filter == filter
      ensures first == if lastEventId.Some? && lastEventId.value < lastSeq
                       then [ResumeGap(lastEventId.value, lastSeq)] else []
    {
      s := new Subscriber(bound, filter);
      subscribers := subscribers + {s};
      first := if lastEventId.Some? && lastEventId.value < lastSeq then [ResumeGap(lastEventId.value, lastSeq)] else [];
    }

    method Remove(s: Subscriber)
      modifies this`subscribers
      ensures subscribers == old(subscribers) - {s}
    {
      subscribers := subscribers - {s};
    }
  }
}
