/** What the ring keeps, on values: entries in insertion order, bounded by count
    and by total size (daemon/src/pporlock/capture/ring.py). */
module RingLaws {
  import opened Seqs

  datatype Entry = Entry(id: string, size: nat)

  function Total(es: seq<Entry>): nat {
    if es == [] then 0 else es[0].size + Total(es[1..])
  }

  predicate Fits(es: seq<Entry>, maxFlows: int, maxBytes: int) {
    |es| <= maxFlows && Total(es) <= maxBytes
  }

  /** How many of the oldest entries go: one at a time until both bounds hold or
      nothing is left. */
  function Cut(es: seq<Entry>, maxFlows: int, maxBytes: int): (k: nat)
    ensures k <= |es|
  {
    if es == [] || Fits(es, maxFlows, maxBytes) then 0 else 1 + Cut(es[1..], maxFlows, maxBytes)
  }

  function Settle(es: seq<Entry>, maxFlows: int, maxBytes: int): seq<Entry> {
    es[Cut(es, maxFlows, maxBytes)..]
  }

  lemma {:induction false} TotalConcat(a: seq<Entry>, b: seq<Entry>)
    ensures Total(a + b) == Total(a) + Total(b)
  {
    if a == [] {
      assert a + b == b;
    } else {
      assert (a + b)[1..] == a[1..] + b;
      TotalConcat(a[1..], b);
    }
  }

  lemma TotalSuffix(es: seq<Entry>, k: nat)
    requires k <= |es|
    ensures Total(es[k..]) <= Total(es)
  {
    TotalConcat(es[..k], es[k..]);
    assert es[..k] + es[k..] == es;
  }

  /** What survives is the longest suffix that fits: it fits, and nothing longer does. */
  lemma {:induction false} CutIsLongest(es: seq<Entry>, maxFlows: int, maxBytes: int)
    ensures var k := Cut(es, maxFlows, maxBytes);
            && (k == |es| || Fits(es[k..], maxFlows, maxBytes))
            && forall i :: 0 <= i < k ==> !Fits(es[i..], maxFlows, maxBytes)
  {
    if es != [] && !Fits(es, maxFlows, maxBytes) {
      CutIsLongest(es[1..], maxFlows, maxBytes);
      var k := Cut(es, maxFlows, maxBytes);
      assert es[1..][k - 1..] == es[k..];
      forall i | 0 <= i < k
        ensures !Fits(es[i..], maxFlows, maxBytes)
      {
        if i == 0 {
          assert es[0..] == es;
        } else {
          assert es[1..][i - 1..] == es[i..];
        }
      }
    } else {
      assert es[0..] == es;
    }
  }

  lemma FitsUncut(es: seq<Entry>, maxFlows: int, maxBytes: int)
    requires es == [] || Fits(es, maxFlows, maxBytes)
    ensures Cut(es, maxFlows, maxBytes) == 0
  {
  }

  /** `Cut` from either side of the boundary it falls on. */
  lemma CutIs(es: seq<Entry>, maxFlows: int, maxBytes: int, k: nat)
    requires k <= |es|
    requires k == |es| || Fits(es[k..], maxFlows, maxBytes)
    requires k == 0 || !Fits(es[k - 1..], maxFlows, maxBytes)
    ensures Cut(es, maxFlows, maxBytes) == k
  {
    CutIsLongest(es, maxFlows, maxBytes);
    var c := Cut(es, maxFlows, maxBytes);
    if c < k {
      FitsSuffix(es, maxFlows, maxBytes, c, k - 1);
    }
  }

  lemma FitsSuffix(es: seq<Entry>, maxFlows: int, maxBytes: int, i: nat, j: nat)
    requires i <= j <= |es| && Fits(es[i..], maxFlows, maxBytes)
    ensures Fits(es[j..], maxFlows, maxBytes)
  {
    TotalSuffix(es[i..], j - i);
    assert es[i..][j - i..] == es[j..];
  }

  /** Evicting from what is left after `k` entries went: the further of the two cuts. */
  lemma SuffixCut(es: seq<Entry>, k: nat, maxFlows: int, maxBytes: int)
    requires k <= |es|
    ensures var c := Cut(es, maxFlows, maxBytes);
            && Cut(es[k..], maxFlows, maxBytes) == (if k < c then c - k else 0)
            && Settle(es[k..], maxFlows, maxBytes) == es[if k < c then c else k..]
  {
    var c := Cut(es, maxFlows, maxBytes);
    var m := if k < c then c else k;
    CutIsLongest(es, maxFlows, maxBytes);
    hide Cut, Fits;
    if c < |es| {
      FitsSuffix(es, maxFlows, maxBytes, c, m);
    }
    assert es[k..][m - k..] == es[m..];
    if m > k {
      assert es[k..][m - k - 1..] == es[m - 1..];
    }
    CutIs(es[k..], maxFlows, maxBytes, m - k);
  }

  /** When entries only arrive at the end and sizes only grow, no fewer have to go. */
  lemma CutGrows(all: seq<Entry>, next: seq<Entry>, maxFlows: int, maxBytes: int)
    requires |all| <= |next|
    requires forall i :: 0 <= i < |all| ==> all[i].size <= next[i].size
    ensures Cut(all, maxFlows, maxBytes) <= Cut(next, maxFlows, maxBytes)
  {
    var k, c := Cut(all, maxFlows, maxBytes), Cut(next, maxFlows, maxBytes);
    CutIsLongest(all, maxFlows, maxBytes);
    CutIsLongest(next, maxFlows, maxBytes);
    if c < k {
      TotalMonotone(all[c..], next[c..]);
    }
  }

  lemma {:induction false} TotalMonotone(a: seq<Entry>, b: seq<Entry>)
    requires |a| <= |b|
    requires forall i :: 0 <= i < |a| ==> a[i].size <= b[i].size
    ensures Total(a) <= Total(b)
  {
    if a == [] {
    } else {
      TotalMonotone(a[1..], b[1..]);
    }
  }

  // ------------------------------------------------------------ whole histories

  /** What happens to a ring: a record is added, replacing one of the same id; the
      record of that id, if held, changes its size; everything goes. */
  datatype Op = Add(id: string, size: nat) | Resize(id: string, size: nat) | Clear

  function IndexOf(es: seq<Entry>, id: string): (i: nat)
    ensures i <= |es|
    ensures i < |es| ==> es[i].id == id
    ensures forall j :: 0 <= j < i ==> es[j].id != id
  {
    First(es, (e: Entry) => e.id == id)
  }

  function Dropped(es: seq<Entry>, id: string): seq<Entry> {
    var i := IndexOf(es, id);
    if i < |es| then es[..i] + es[i + 1..] else es
  }

  function Resized(es: seq<Entry>, id: string, size: nat): seq<Entry> {
    var i := IndexOf(es, id);
    if i < |es| then es[i := Entry(id, size)] else es
  }

  /** One operation on the ring. */
  function RingStep(es: seq<Entry>, op: Op, maxFlows: int, maxBytes: int): seq<Entry> {
    match op
    case Add(id, size) => Settle(Dropped(es, id) + [Entry(id, size)], maxFlows, maxBytes)
    case Resize(id, size) => if IndexOf(es, id) < |es| then Settle(Resized(es, id, size), maxFlows, maxBytes) else es
    case Clear => []
  }

  function Ring(ops: seq<Op>, maxFlows: int, maxBytes: int): seq<Entry> {
    if ops == [] then []
    else RingStep(Ring(ops[..|ops| - 1], maxFlows, maxBytes), ops[|ops| - 1], maxFlows, maxBytes)
  }

  /** An entry, and the number of operations before the one that inserted it. */
  datatype Dated = Dated(entry: Entry, born: nat)

  function Plain(ds: seq<Dated>): (es: seq<Entry>)
    ensures |es| == |ds|
    ensures forall i :: 0 <= i < |ds| ==> es[i] == ds[i].entry
  {
    seq(|ds|, i requires 0 <= i < |ds| => ds[i].entry)
  }

  function EverythingStep(ds: seq<Dated>, op: Op, now: nat): seq<Dated> {
    match op
    case Add(id, size) =>
      var i := IndexOf(Plain(ds), id);
      (if i < |ds| then ds[..i] + ds[i + 1..] else ds) + [Dated(Entry(id, size), now)]
    case Resize(id, size) =>
      var i := IndexOf(Plain(ds), id);
      if i < |ds| then ds[i := Dated(Entry(id, size), ds[i].born)] else ds
    case Clear => []
  }

  /** Everything inserted since the ring was last cleared, evicted or not, that has
      not been replaced: in insertion order, with its size now. */
  function Everything(ops: seq<Op>): seq<Dated> {
    if ops == [] then []
    else EverythingStep(Everything(ops[..|ops| - 1]), ops[|ops| - 1], |ops| - 1)
  }

  /** Where the longest suffix that fits begins: the date of its first entry, or the
      present when none fits. */
  function Threshold(ds: seq<Dated>, now: nat, maxFlows: int, maxBytes: int): nat {
    var k := Cut(Plain(ds), maxFlows, maxBytes);
    if k == |ds| then now else ds[k].born
  }

  function ThresholdAt(ops: seq<Op>, n: nat, maxFlows: int, maxBytes: int): nat
    requires n <= |ops|
  {
    Threshold(Everything(ops[..n]), n, maxFlows, maxBytes)
  }

  /** The highest threshold there has been. */
  function Floor(ops: seq<Op>, maxFlows: int, maxBytes: int): nat {
    if ops == [] then 0
    else
      var before := Floor(ops[..|ops| - 1], maxFlows, maxBytes);
      var now := Threshold(Everything(ops), |ops|, maxFlows, maxBytes);
      if before < now then now else before
  }

  /** How many entries are older than `date`. */
  function Older(ds: seq<Dated>, date: nat): (k: nat)
    ensures k <= |ds|
    ensures forall i :: 0 <= i < k ==> ds[i].born < date
    ensures k < |ds| ==> ds[k].born >= date
  {
    First(ds, (d: Dated) => d.born >= date)
  }

  predicate InOrder(ds: seq<Dated>, now: nat) {
    && (forall i :: 0 <= i < |ds| ==> ds[i].born < now)
    && (forall i, j :: 0 <= i < j < |ds| ==> ds[i].born < ds[j].born && ds[i].entry.id != ds[j].entry.id)
  }

  lemma OlderIs(ds: seq<Dated>, now: nat, date: nat, k: nat)
    requires InOrder(ds, now) && k <= |ds|
    requires k > 0 ==> ds[k - 1].born < date
    requires k < |ds| ==> ds[k].born >= date
    ensures Older(ds, date) == k
  {
    hide Older;
    var o := Older(ds, date);
  }

  lemma DropInOrder(ds: seq<Dated>, i: nat, e: Entry, now: nat)
    requires InOrder(ds, now) && i <= |ds|
    requires forall k :: 0 <= k < |ds| && k != i ==> ds[k].entry.id != e.id
    ensures InOrder((if i < |ds| then ds[..i] + ds[i + 1..] else ds) + [Dated(e, now)], now + 1)
  {
    var rest := if i < |ds| then ds[..i] + ds[i + 1..] else ds;
    assert forall k :: 0 <= k < |rest| ==> rest[k] == ds[if k < i then k else k + 1];
  }

  lemma StepInOrder(ds: seq<Dated>, op: Op, now: nat)
    requires InOrder(ds, now)
    ensures InOrder(EverythingStep(ds, op, now), now + 1)
  {
    hide IndexOf;
    if op.Add? {
      var i := IndexOf(Plain(ds), op.id);
      forall k | 0 <= k < |ds| && k != i ensures ds[k].entry.id != op.id {
        assert k < i ==> Plain(ds)[k].id != op.id;
      }
      DropInOrder(ds, i, Entry(op.id, op.size), now);
    }
  }

  lemma {:induction false} EverythingInOrder(ops: seq<Op>)
    ensures InOrder(Everything(ops), |ops|)
  {
    if ops == [] {
    } else {
      EverythingInOrder(ops[..|ops| - 1]);
      StepInOrder(Everything(ops[..|ops| - 1]), ops[|ops| - 1], |ops| - 1);
    }
  }

  /** The operation before any eviction, on the ring. */
  function Changed(es: seq<Entry>, op: Op): seq<Entry> {
    match op
    case Add(id, size) => Dropped(es, id) + [Entry(id, size)]
    case Resize(id, size) => Resized(es, id, size)
    case Clear => []
  }

  /** Looking in what is not older than a date. */
  lemma IndexInSuffix(ds: seq<Dated>, now: nat, k: nat, id: string)
    requires InOrder(ds, now) && k <= |ds|
    ensures var i, j := IndexOf(Plain(ds), id), IndexOf(Plain(ds)[k..], id);
            j == if k <= i < |ds| then i - k else |ds| - k
  {
    hide IndexOf;
    var es := Plain(ds);
    var i, j := IndexOf(es, id), IndexOf(es[k..], id);
    assert j < |ds| - k ==> es[k..][j] == ds[k + j].entry;
    assert k <= i < |ds| ==> es[k..][i - k] == ds[i].entry;
  }

  lemma PlainTail(ds: seq<Dated>, k: nat)
    requires k <= |ds|
    ensures Plain(ds)[k..] == Plain(ds[k..])
  {
  }

  lemma PlainSnoc(ds: seq<Dated>, d: Dated)
    ensures Plain(ds + [d]) == Plain(ds) + [d.entry]
  {
  }

  lemma PlainWithout(ds: seq<Dated>, i: nat)
    requires i < |ds|
    ensures Plain(ds[..i] + ds[i + 1..]) == Plain(ds)[..i] + Plain(ds)[i + 1..]
  {
  }

  /** Replacing something old: one old entry fewer, and the new one at the end. */
  lemma ReplaceOld(ds: seq<Dated>, i: nat, d: Dated, date: nat)
    requires InOrder(ds, d.born) && date <= d.born && i < Older(ds, date)
    requires InOrder(ds[..i] + ds[i + 1..] + [d], d.born + 1)
    ensures var next := ds[..i] + ds[i + 1..] + [d];
            next[Older(next, date)..] == ds[Older(ds, date)..] + [d]
  {
    hide Older, InOrder;
    var next, k := ds[..i] + ds[i + 1..] + [d], Older(ds, date);
    assert k > 1 ==> next[k - 2] == if k - 2 < i then ds[k - 2] else ds[k - 1];
    assert next[k - 1] == if k < |ds| then ds[k] else d;
    OlderIs(next, d.born + 1, date, k - 1);
  }

  /** Replacing something young. */
  lemma ReplaceYoung(ds: seq<Dated>, i: nat, d: Dated, date: nat)
    requires InOrder(ds, d.born) && date <= d.born && Older(ds, date) <= i < |ds|
    requires InOrder(ds[..i] + ds[i + 1..] + [d], d.born + 1)
    ensures var next, young := ds[..i] + ds[i + 1..] + [d], ds[Older(ds, date)..];
            var j := i - Older(ds, date);
            next[Older(next, date)..] == young[..j] + young[j + 1..] + [d]
  {
    hide Older;
    var next, k := ds[..i] + ds[i + 1..] + [d], Older(ds, date);
    assert k > 0 ==> next[k - 1] == ds[k - 1];
    assert next[k] == if k < i then ds[k] else if k + 1 < |ds| then ds[k + 1] else d;
    OlderIs(next, d.born + 1, date, k);
  }

  lemma AddYoung(ds: seq<Dated>, d: Dated, date: nat)
    requires InOrder(ds, d.born) && date <= d.born && InOrder(ds + [d], d.born + 1)
    ensures (ds + [d])[Older(ds + [d], date)..] == ds[Older(ds, date)..] + [d]
  {
    hide Older, InOrder;
    var next, k := ds + [d], Older(ds, date);
    assert next[k] == if k < |ds| then ds[k] else d;
    OlderIs(next, d.born + 1, date, k);
  }

  /** Adding to everything and looking at what is young is adding to what is young. */
  lemma AddToSuffix(ds: seq<Dated>, id: string, size: nat, now: nat, date: nat)
    requires InOrder(ds, now) && date <= now
    ensures var next := EverythingStep(ds, Add(id, size), now);
            Plain(next)[Older(next, date)..] == Changed(Plain(ds)[Older(ds, date)..], Add(id, size))
  {
    hide IndexOf, Older, InOrder, Plain;
    var k, i, d := Older(ds, date), IndexOf(Plain(ds), id), Dated(Entry(id, size), now);
    var next := EverythingStep(ds, Add(id, size), now);
    StepInOrder(ds, Add(id, size), now);
    IndexInSuffix(ds, now, k, id);
    PlainTail(ds, k);
    PlainTail(next, Older(next, date));
    if i < k {
      ReplaceOld(ds, i, d, date);
      PlainSnoc(ds[k..], d);
    } else if i < |ds| {
      ReplaceYoung(ds, i, d, date);
      var young := ds[k..];
      PlainWithout(young, i - k);
      PlainSnoc(young[..i - k] + young[i - k + 1..], d);
    } else {
      AddYoung(ds, d, date);
      PlainSnoc(ds[k..], d);
    }
  }

  lemma ResizeInSuffix(ds: seq<Dated>, id: string, size: nat, now: nat, date: nat)
    requires InOrder(ds, now)
    ensures var next := EverythingStep(ds, Resize(id, size), now);
            Plain(next)[Older(next, date)..] == Changed(Plain(ds)[Older(ds, date)..], Resize(id, size))
  {
    hide IndexOf, Older;
    var next := EverythingStep(ds, Resize(id, size), now);
    var k := Older(ds, date);
    StepInOrder(ds, Resize(id, size), now);
    IndexInSuffix(ds, now, k, id);
    OlderIs(next, now + 1, date, k);
  }

  lemma StepOnSuffix(ds: seq<Dated>, op: Op, now: nat, date: nat)
    requires InOrder(ds, now) && date <= now
    ensures var next := EverythingStep(ds, op, now);
            Plain(next)[Older(next, date)..] == Changed(Plain(ds)[Older(ds, date)..], op)
  {
    hide Older, Changed, EverythingStep;
    match op
    case Add(id, size) => AddToSuffix(ds, id, size, now, date);
    case Resize(id, size) => ResizeInSuffix(ds, id, size, now, date);
    case Clear => ClearSuffix(ds, now, date);
  }

  lemma ClearSuffix(ds: seq<Dated>, now: nat, date: nat)
    ensures var next := EverythingStep(ds, Clear, now);
            Plain(next)[Older(next, date)..] == Changed(Plain(ds)[Older(ds, date)..], Clear)
  {
  }

  /** Evicting from what is not older than a date leaves what is not older than the
      later of that date and the threshold. */
  lemma SettleSuffix(ds: seq<Dated>, now: nat, date: nat, maxFlows: int, maxBytes: int)
    requires InOrder(ds, now)
    ensures var t := Threshold(ds, now, maxFlows, maxBytes);
            Settle(Plain(ds)[Older(ds, date)..], maxFlows, maxBytes) ==
            Plain(ds)[Older(ds, if date < t then t else date)..]
  {
    hide Older, Cut;
    var c, k := Cut(Plain(ds), maxFlows, maxBytes), Older(ds, date);
    var t := Threshold(ds, now, maxFlows, maxBytes);
    SuffixCut(Plain(ds), k, maxFlows, maxBytes);
    OlderIs(ds, now, t, c);
    if date < t {
      assert k <= c;
    } else {
      assert c <= k;
    }
  }

  lemma {:induction false} RingFits(ops: seq<Op>, maxFlows: int, maxBytes: int)
    ensures var es := Ring(ops, maxFlows, maxBytes); es == [] || Fits(es, maxFlows, maxBytes)
  {
    if ops == [] {
    } else {
      var before := Ring(ops[..|ops| - 1], maxFlows, maxBytes);
      RingFits(ops[..|ops| - 1], maxFlows, maxBytes);
      CutIsLongest(Changed(before, ops[|ops| - 1]), maxFlows, maxBytes);
    }
  }

  /** In a ring that fits, every operation is the change and one eviction. */
  lemma StepSettles(es: seq<Entry>, op: Op, maxFlows: int, maxBytes: int)
    requires es == [] || Fits(es, maxFlows, maxBytes)
    ensures RingStep(es, op, maxFlows, maxBytes) == Settle(Changed(es, op), maxFlows, maxBytes)
  {
  }

  /** After any history the ring holds exactly the insertions no older than the
      highest threshold there has been. */
  lemma {:induction false} RingIsYoungest(ops: seq<Op>, maxFlows: int, maxBytes: int)
    ensures var ds := Everything(ops);
            Ring(ops, maxFlows, maxBytes) == Plain(ds)[Older(ds, Floor(ops, maxFlows, maxBytes))..]
    ensures Floor(ops, maxFlows, maxBytes) <= |ops|
  {
    if ops == [] {
    } else {
      hide Older, Settle, Changed, RingStep, EverythingStep, InOrder;
      var n := |ops| - 1;
      var before, op := ops[..n], ops[n];
      var floor := Floor(before, maxFlows, maxBytes);
      RingIsYoungest(before, maxFlows, maxBytes);
      EverythingInOrder(before);
      EverythingInOrder(ops);
      RingFits(before, maxFlows, maxBytes);
      StepSettles(Ring(before, maxFlows, maxBytes), op, maxFlows, maxBytes);
      StepOnSuffix(Everything(before), op, n, floor);
      SettleSuffix(Everything(ops), |ops|, floor, maxFlows, maxBytes);
      ThresholdIsPast(Everything(ops), |ops|, maxFlows, maxBytes);
    }
  }

  lemma ThresholdIsPast(ds: seq<Dated>, now: nat, maxFlows: int, maxBytes: int)
    requires InOrder(ds, now)
    ensures Threshold(ds, now, maxFlows, maxBytes) <= now
  {
  }

  lemma {:induction false} FloorBounds(ops: seq<Op>, n: nat, maxFlows: int, maxBytes: int)
    requires n <= |ops|
    ensures ThresholdAt(ops, n, maxFlows, maxBytes) <= Floor(ops, maxFlows, maxBytes)
  {
    hide Threshold, Everything;
    if n == |ops| {
      assert ops[..n] == ops;
      if ops == [] {
        NothingYet(maxFlows, maxBytes);
      }
    } else {
      FloorBounds(ops[..|ops| - 1], n, maxFlows, maxBytes);
      assert ops[..|ops| - 1][..n] == ops[..n];
    }
  }

  lemma NothingYet(maxFlows: int, maxBytes: int)
    ensures Threshold(Everything([]), 0, maxFlows, maxBytes) == 0
  {
  }

  lemma {:induction false} FloorReached(ops: seq<Op>, maxFlows: int, maxBytes: int) returns (n: nat)
    ensures n <= |ops| && ThresholdAt(ops, n, maxFlows, maxBytes) == Floor(ops, maxFlows, maxBytes)
  {
    hide Threshold, Everything;
    assert ops[..|ops|] == ops;
    n := |ops|;
    if ops == [] {
      NothingYet(maxFlows, maxBytes);
    } else if ThresholdAt(ops, n, maxFlows, maxBytes) <= Floor(ops[..n - 1], maxFlows, maxBytes) {
      n := FloorReached(ops[..n - 1], maxFlows, maxBytes);
      assert ops[..|ops| - 1][..n] == ops[..n];
    }
  }

  /** The floor is the largest threshold of any moment. */
  lemma FloorIsHighest(ops: seq<Op>, maxFlows: int, maxBytes: int)
    ensures var floor := Floor(ops, maxFlows, maxBytes);
            && (forall n :: 0 <= n <= |ops| ==> ThresholdAt(ops, n, maxFlows, maxBytes) <= floor)
            && exists n :: 0 <= n <= |ops| && ThresholdAt(ops, n, maxFlows, maxBytes) == floor
  {
    hide ThresholdAt, Floor;
    var reached := FloorReached(ops, maxFlows, maxBytes);
    forall n | 0 <= n <= |ops|
      ensures ThresholdAt(ops, n, maxFlows, maxBytes) <= Floor(ops, maxFlows, maxBytes)
    {
      FloorBounds(ops, n, maxFlows, maxBytes);
    }
  }

  /** Insertion by insertion: one is still held exactly when at every moment since
      it was made it has lain in the longest suffix of everything that fits. */
  lemma HeldThroughout(ops: seq<Op>, i: nat, maxFlows: int, maxBytes: int)
    requires i < |Everything(ops)|
    ensures var d := Everything(ops)[i];
            var held := Ring(ops, maxFlows, maxBytes);
            i >= |Everything(ops)| - |held| <==>
            forall n :: d.born < n <= |ops| ==> ThresholdAt(ops, n, maxFlows, maxBytes) <= d.born
  {
    var ds, floor := Everything(ops), Floor(ops, maxFlows, maxBytes);
    RingIsYoungest(ops, maxFlows, maxBytes);
    FloorIsHighest(ops, maxFlows, maxBytes);
    EverythingInOrder(ops);
    hide Floor, Ring, Everything, Older;
    var n :| 0 <= n <= |ops| && ThresholdAt(ops, n, maxFlows, maxBytes) == floor;
    EverythingInOrder(ops[..n]);
    ThresholdIsPast(Everything(ops[..n]), n, maxFlows, maxBytes);
    if floor <= ds[i].born {
      OlderThan(ds, |ops|, floor, i);
    } else {
      OlderThan(ds, |ops|, floor, i);
      assert ds[i].born < n;
    }
  }

  /** The same by the flow's id, which is in the ring only as that insertion. */
  lemma HeldById(ops: seq<Op>, i: nat, maxFlows: int, maxBytes: int)
    requires i < |Everything(ops)|
    ensures var d := Everything(ops)[i];
            var held := Ring(ops, maxFlows, maxBytes);
            IndexOf(held, d.entry.id) < |held| <==>
            forall n :: d.born < n <= |ops| ==> ThresholdAt(ops, n, maxFlows, maxBytes) <= d.born
  {
    var ds, floor := Everything(ops), Floor(ops, maxFlows, maxBytes);
    RingIsYoungest(ops, maxFlows, maxBytes);
    HeldThroughout(ops, i, maxFlows, maxBytes);
    EverythingInOrder(ops);
    hide Floor, Ring, Everything, ThresholdAt, Older, IndexOf;
    IndexInSuffix(ds, |ops|, Older(ds, floor), ds[i].entry.id);
    IndexOfOwn(ds, |ops|, i);
  }

  lemma IndexOfOwn(ds: seq<Dated>, now: nat, i: nat)
    requires InOrder(ds, now) && i < |ds|
    ensures IndexOf(Plain(ds), ds[i].entry.id) == i
  {
  }

  lemma OlderThan(ds: seq<Dated>, now: nat, date: nat, i: nat)
    requires InOrder(ds, now) && i < |ds|
    ensures i < Older(ds, date) <==> ds[i].born < date
  {
  }

  /** So the ring is the longest suffix that fits now exactly when no earlier
      threshold was higher: a record that shrinks does not bring anything back. */
  lemma RingIsLongestSuffix(ops: seq<Op>, maxFlows: int, maxBytes: int)
    ensures Ring(ops, maxFlows, maxBytes) == Settle(Plain(Everything(ops)), maxFlows, maxBytes) <==>
            Floor(ops, maxFlows, maxBytes) == Threshold(Everything(ops), |ops|, maxFlows, maxBytes)
  {
    var ds, floor := Everything(ops), Floor(ops, maxFlows, maxBytes);
    var t := Threshold(ds, |ops|, maxFlows, maxBytes);
    RingIsYoungest(ops, maxFlows, maxBytes);
    EverythingInOrder(ops);
    FloorIsHighest(ops, maxFlows, maxBytes);
    assert ops[..|ops|] == ops;
    assert ThresholdAt(ops, |ops|, maxFlows, maxBytes) == t <= floor;
    hide Floor, Ring, Everything, Older, Cut;
    var c := Cut(Plain(ds), maxFlows, maxBytes);
    OlderIs(ds, |ops|, t, c);
    if t < floor {
      assert c < |ds|;
      OlderThan(ds, |ops|, floor, c);
    }
  }

  /** A history in which ids are never used again, nothing is cleared and records
      only grow. */
  predicate Growing(ops: seq<Op>) {
    ops == [] ||
    (var ds := Everything(ops[..|ops| - 1]);
     && Growing(ops[..|ops| - 1])
     && match ops[|ops| - 1]
        case Add(id, _) => IndexOf(Plain(ds), id) == |ds|
        case Resize(id, size) => var i := IndexOf(Plain(ds), id); i < |ds| ==> ds[i].entry.size <= size
        case Clear => false)
  }

  /** For those the ring is always the longest suffix of insertion order that fits. */
  lemma {:induction false} GrowingRing(ops: seq<Op>, maxFlows: int, maxBytes: int)
    requires Growing(ops)
    ensures Ring(ops, maxFlows, maxBytes) == Settle(Plain(Everything(ops)), maxFlows, maxBytes)
    ensures Floor(ops, maxFlows, maxBytes) == Threshold(Everything(ops), |ops|, maxFlows, maxBytes)
  {
    if ops != [] {
      var n := |ops| - 1;
      hide Ring, Threshold, EverythingStep, InOrder, IndexOf;
      var was := Everything(ops[..n]);
      GrowingRing(ops[..n], maxFlows, maxBytes);
      EverythingInOrder(ops[..n]);
      ThresholdRises(was, ops[n], n, maxFlows, maxBytes);
    }
    RingIsLongestSuffix(ops, maxFlows, maxBytes);
  }

  lemma ThresholdRises(ds: seq<Dated>, op: Op, now: nat, maxFlows: int, maxBytes: int)
    requires InOrder(ds, now) && !op.Clear?
    requires var i := IndexOf(Plain(ds), op.id);
             if op.Add? then i == |ds| else i < |ds| ==> ds[i].entry.size <= op.size
    ensures Threshold(ds, now, maxFlows, maxBytes) <=
            Threshold(EverythingStep(ds, op, now), now + 1, maxFlows, maxBytes)
  {
    hide IndexOf, Cut;
    var next := EverythingStep(ds, op, now);
    CutGrows(Plain(ds), Plain(next), maxFlows, maxBytes);
  }

  lemma TotalOfTwo(a: Entry, b: Entry)
    ensures Total([a]) == a.size && Total([a, b]) == a.size + b.size
  {
    assert [a, b][1..] == [b] && [a][1..] == [] && [b][1..] == [];
  }

  lemma ShrinkSettles()
    ensures var a, b, small := Entry("a", 600), Entry("b", 600), Entry("b", 100);
            && Settle([a], 10, 1000) == [a]
            && Settle([a, b], 10, 1000) == [b]
            && Settle([small], 10, 1000) == [small]
            && Settle([a, small], 10, 1000) == [a, small]
  {
    hide Total, Cut;
    var a, b, small := Entry("a", 600), Entry("b", 600), Entry("b", 100);
    TotalOfTwo(a, b);
    TotalOfTwo(b, b);
    TotalOfTwo(a, small);
    TotalOfTwo(small, small);
    FitsUncut([a], 10, 1000);
    FitsUncut([small], 10, 1000);
    FitsUncut([a, small], 10, 1000);
    assert [a, b][0..] == [a, b] && [a, b][1..] == [b];
    CutIs([a, b], 10, 1000, 1);
  }

  /** Two flows of 600 bytes in a ring of 1000, the second then shrinking to 100:
      both would fit, and only the second is there. */
  lemma ShrinkWitness()
    ensures var ops := [Add("a", 600), Add("b", 600), Resize("b", 100)];
            && Ring(ops, 10, 1000) == [Entry("b", 100)]
            && Settle(Plain(Everything(ops)), 10, 1000) == [Entry("a", 600), Entry("b", 100)]
  {
    hide Settle, Cut, Total, IndexOf;
    var x, y, z := Add("a", 600), Add("b", 600), Resize("b", 100);
    var a, b, small := Entry("a", 600), Entry("b", 600), Entry("b", 100);
    assert [x, y, z][..2] == [x, y] && [x, y][..1] == [x] && [x][..0] == [];
    ShrinkSettles();
    assert Dropped([], "a") + [a] == [a] && Dropped([a], "b") + [b] == [a, b];
    assert Ring([x], 10, 1000) == [a];
    assert Ring([x, y], 10, 1000) == [b];
    assert Resized([b], "b", 100) == [small];
    assert Everything([x]) == [Dated(a, 0)];
    assert Everything([x, y]) == [Dated(a, 0), Dated(b, 1)];
    assert Everything([x, y, z]) == [Dated(a, 0), Dated(small, 1)];
    assert Plain(Everything([x, y, z])) == [a, small];
  }
}

/** Flow records, the ring that holds them, and the sink that also writes to
    records the ring already holds (daemon/src/pporlock/capture/records.py,
    daemon/src/pporlock/capture/ring.py, daemon/src/pporlock/capture/sink.py). */
module RingBuffer {
  import opened Seqs
  import opened Utf8
  import opened RingLaws

  datatype Kind = Http | WebSocket | Passthrough

  datatype Frame = Frame(index: int, direction: string, opcode: string, payload: seq<Byte>, truncated: bool)

  function PayloadBytes(frames: seq<Frame>): nat {
    if frames == [] then 0 else |frames[0].payload| + PayloadBytes(frames[1..])
  }

  function BodyBytes(body: Option<seq<Byte>>): nat {
    if body.Some? then |body.value| else 0
  }

  /** Frames kept of all those received: the longest suffix within the bound. */
  function KeptFrames(frames: seq<Frame>, maxBytes: int): seq<Frame> {
    if frames == [] || PayloadBytes(frames) <= maxBytes then frames
    else KeptFrames(frames[1..], maxBytes)
  }

  /** Values to write into a record that is already held; its flow id is never patched. */
  datatype Patch = Patch(
    kind: Option<Kind>,
    tabId: Option<Option<int>>,
    requestBody: Option<Option<seq<Byte>>>,
    responseBody: Option<Option<seq<Byte>>>,
    wsMessages: Option<seq<Frame>>,
    wsDropped: Option<nat>,
    wsClosed: Option<bool>,
    wsCloseCode: Option<Option<int>>,
    requestCut: Option<bool>,
    responseCut: Option<bool>)

  class FlowRecord {
    const flowId: string
    var kind: Kind
    var tabId: Option<int>
    var requestBody: Option<seq<Byte>>
    var responseBody: Option<seq<Byte>>
    var requestCut: bool
    var responseCut: bool
    var wsMessages: seq<Frame>
    var wsDropped: nat
    var wsClosed: bool
    var wsCloseCode: Option<int>
    /** Every frame recorded so far, kept or not. */
    ghost var received: seq<Frame>

    constructor (flowId: string, kind: Kind, requestBody: Option<seq<Byte>>, responseBody: Option<seq<Byte>>)
      ensures this.flowId == flowId && this.kind == kind && tabId == None
      ensures this.requestBody == requestBody && this.responseBody == responseBody
      ensures wsMessages == [] && wsDropped == 0 && received == [] && !wsClosed && wsCloseCode == None
      ensures !requestCut && !responseCut
    {
      this.flowId, this.kind, tabId := flowId, kind, None;
      this.requestBody, this.responseBody := requestBody, responseBody;
      wsMessages, wsDropped, received := [], 0, [];
      wsClosed, wsCloseCode := false, None;
      requestCut, responseCut := false, false;
    }

    function SizeBytes(): nat
      reads this
    {
      512 + BodyBytes(requestBody) + BodyBytes(responseBody) + PayloadBytes(wsMessages)
    }

    /** Just the patched fields changed, to the patched values. */
    twostate predicate Patched(changes: Patch)
      reads this
    {
      && kind == changes.kind.GetOr(old(kind))
      && tabId == changes.tabId.GetOr(old(tabId))
      && requestBody == changes.requestBody.GetOr(old(requestBody))
      && responseBody == changes.responseBody.GetOr(old(responseBody))
      && wsMessages == changes.wsMessages.GetOr(old(wsMessages))
      && wsDropped == changes.wsDropped.GetOr(old(wsDropped))
      && wsClosed == changes.wsClosed.GetOr(old(wsClosed))
      && wsCloseCode == changes.wsCloseCode.GetOr(old(wsCloseCode))
      && requestCut == changes.requestCut.GetOr(old(requestCut))
      && responseCut == changes.responseCut.GetOr(old(responseCut))
      && received == old(received)
    }

    /** One more frame; apart from the frames kept and dropped, nothing else changed. */
    twostate predicate Received(f: Frame)
      reads this
    {
      && received == old(received) + [f] && kind == WebSocket
      && tabId == old(tabId)
      && requestBody == old(requestBody) && responseBody == old(responseBody)
      && wsClosed == old(wsClosed) && wsCloseCode == old(wsCloseCode)
      && requestCut == old(requestCut) && responseCut == old(responseCut)
    }

    method Apply(changes: Patch)
      modifies this
      ensures Patched(changes)
    {
      kind := changes.kind.GetOr(kind);
      tabId := changes.tabId.GetOr(tabId);
      requestBody := changes.requestBody.GetOr(requestBody);
      responseBody := changes.responseBody.GetOr(responseBody);
      wsMessages := changes.wsMessages.GetOr(wsMessages);
      wsDropped := changes.wsDropped.GetOr(wsDropped);
      wsClosed := changes.wsClosed.GetOr(wsClosed);
      wsCloseCode := changes.wsCloseCode.GetOr(wsCloseCode);
      requestCut := changes.requestCut.GetOr(requestCut);
      responseCut := changes.responseCut.GetOr(responseCut);
    }

    /** The retained frames are the longest suffix within the bound, and the drop
        count is the rest. */
    ghost predicate Windowed(maxWsBytes: int)
      reads this
    {
      && wsMessages == KeptFrames(received, maxWsBytes)
      && wsDropped + |wsMessages| == |received|
    }
  }

  ghost function Entries(rs: seq<FlowRecord>): (es: seq<Entry>)
    reads rs
    ensures |es| == |rs|
    ensures forall i :: 0 <= i < |rs| ==> es[i] == Entry(rs[i].flowId, rs[i].SizeBytes())
  {
    seq(|rs|, i requires 0 <= i < |rs| reads rs => Entry(rs[i].flowId, rs[i].SizeBytes()))
  }

  /** The entries are determined record by record. */
  lemma EntriesAre(rs: seq<FlowRecord>, es: seq<Entry>)
    requires |es| == |rs|
    requires forall i :: 0 <= i < |rs| ==> es[i] == Entry(rs[i].flowId, rs[i].SizeBytes())
    ensures Entries(rs) == es
  {
  }

  lemma EntriesConcat(a: seq<FlowRecord>, b: seq<FlowRecord>)
    ensures Entries(a + b) == Entries(a) + Entries(b)
  {
  }

  lemma EntriesSuffix(rs: seq<FlowRecord>, k: nat)
    requires k <= |rs|
    ensures |Entries(rs)| == |rs| && Entries(rs[k..]) == Entries(rs)[k..]
  {
  }

  predicate DistinctIds(rs: seq<FlowRecord>) {
    forall i, j :: 0 <= i < j < |rs| ==> rs[i].flowId != rs[j].flowId
  }

  function Find(rs: seq<FlowRecord>, flowId: string): (i: nat)
    ensures i <= |rs|
    ensures i < |rs| ==> rs[i].flowId == flowId
    ensures forall j :: 0 <= j < i ==> rs[j].flowId != flowId
  {
    First(rs, (r: FlowRecord) => r.flowId == flowId)
  }

  function Without(rs: seq<FlowRecord>, flowId: string): seq<FlowRecord> {
    var i := Find(rs, flowId);
    if i < |rs| then rs[..i] + rs[i + 1..] else rs
  }

  /** Searching and removing see the same on records as on their entries. */
  lemma EntriesFound(rs: seq<FlowRecord>, flowId: string)
    ensures IndexOf(Entries(rs), flowId) == Find(rs, flowId)
    ensures Entries(Without(rs, flowId)) == Dropped(Entries(rs), flowId)
  {
    hide IndexOf, Find;
    var i, j := IndexOf(Entries(rs), flowId), Find(rs, flowId);
    assert i < |rs| ==> Entries(rs)[i].id == rs[i].flowId;
    assert j < |rs| ==> Entries(rs)[j].id == rs[j].flowId;
  }

  lemma AtLeastEmpty(r: FlowRecord)
    ensures r.SizeBytes() >= 512
  {
  }

  /** Removing one record takes just its size off the total. */
  lemma WithoutTotal(rs: seq<FlowRecord>, flowId: string)
    ensures var i := Find(rs, flowId);
            Total(Entries(rs)) ==
            Total(Entries(Without(rs, flowId))) + (if i < |rs| then rs[i].SizeBytes() else 0)
  {
    var i := Find(rs, flowId);
    if i < |rs| {
      var a, b := rs[..i], rs[i + 1..];
      assert rs == a + ([rs[i]] + b);
      EntriesConcat(a, [rs[i]] + b);
      EntriesConcat([rs[i]], b);
      EntriesConcat(a, b);
      TotalConcat(Entries(a), Entries([rs[i]] + b));
      TotalConcat(Entries([rs[i]]), Entries(b));
      TotalConcat(Entries(a), Entries(b));
      assert Total(Entries([rs[i]])) == rs[i].SizeBytes() by {
        assert Entries([rs[i]]) == [Entry(rs[i].flowId, rs[i].SizeBytes())];
      }
    }
  }

  lemma SnocTotal(rs: seq<FlowRecord>, r: FlowRecord)
    ensures Total(Entries(rs + [r])) == Total(Entries(rs)) + r.SizeBytes()
  {
    var e := Entry(r.flowId, r.SizeBytes());
    assert Entries(rs + [r]) == Entries(rs) + [e];
    TotalConcat(Entries(rs), [e]);
  }

  /** The account of the others, when one record is taken out of it. */
  lemma OthersTotal(rs: seq<FlowRecord>, i: nat)
    requires DistinctIds(rs) && i < |rs|
    ensures Total(Entries(Without(rs, rs[i].flowId))) == Total(Entries(rs)) - rs[i].SizeBytes()
    ensures forall r :: r in Without(rs, rs[i].flowId) ==> r != rs[i]
  {
    WithoutTotal(rs, rs[i].flowId);
    WithoutDistinct(rs, rs[i].flowId);
    assert Find(rs, rs[i].flowId) == i;
  }

  lemma WithoutDistinct(rs: seq<FlowRecord>, flowId: string)
    requires DistinctIds(rs)
    ensures DistinctIds(Without(rs, flowId))
    ensures forall r :: r in Without(rs, flowId) ==> r in rs && r.flowId != flowId
  {
  }

  class RingBuffer {
    const maxFlows: int
    const maxBytes: int
    var records: seq<FlowRecord>
    var bytes: int
    var evicted: nat
    /** Everything that was done to the ring, and to the sizes of what it holds. */
    ghost var history: seq<Op>

    constructor (maxFlows: int, maxBytes: int)
      ensures Valid() && this.maxFlows == maxFlows && this.maxBytes == maxBytes
      ensures records == [] && evicted == 0 && history == []
    {
      this.maxFlows, this.maxBytes := maxFlows, maxBytes;
      records, bytes, evicted, history := [], 0, 0, [];
    }

    /** The account is in order, and the ring holds what its history says. */
    ghost predicate Valid()
      reads this, records
    {
      Sound() && Entries(records) == Ring(history, maxFlows, maxBytes)
    }

    /** The byte counter is exact, and both bounds hold. */
    ghost predicate Sound()
      reads this`records, this`bytes, records
    {
      && DistinctIds(records)
      && bytes == Total(Entries(records))
      && (records == [] || (|records| <= maxFlows && bytes <= maxBytes))
    }

    /** How far the counter is off. */
    ghost function Drift(): int
      reads this, records
    {
      bytes - Total(Entries(records))
    }

    /** A flow inserted since the last clear is in the ring exactly when at every moment
        since it was inserted it lay in the longest suffix of everything that fitted. */
    lemma HeldExactly(i: nat)
      requires Valid() && i < |Everything(history)|
      ensures var d := Everything(history)[i];
              Find(records, d.entry.id) < |records| <==>
              forall n :: d.born < n <= |history| ==> ThresholdAt(history, n, maxFlows, maxBytes) <= d.born
    {
      hide *;
      HeldById(history, i, maxFlows, maxBytes);
      EntriesFound(records, Everything(history)[i].entry.id);
      RingIs();
    }

    lemma RingIs()
      requires Valid()
      ensures Entries(records) == Ring(history, maxFlows, maxBytes) && |Entries(records)| == |records|
    {
    }

    /** One operation done is one operation more in the history. */
    ghost method Log(op: Op)
      requires Sound() && Entries(records) == RingStep(Ring(history, maxFlows, maxBytes), op, maxFlows, maxBytes)
      modifies this`history
      ensures Valid() && history == old(history) + [op]
    {
      hide RingStep;
      history := history + [op];
      assert history[..|history| - 1] == old(history);
    }

    /** The ring's entries are those the operation makes of what it held. */
    twostate predicate Did(op: Op)
      reads this`records, records
    {
      Entries(records) == RingStep(old(Entries(records)), op, maxFlows, maxBytes)
    }

    lemma EvictedSettles(all: seq<FlowRecord>, before: nat)
      requires Evicted(all, before)
      ensures Entries(records) == Settle(Entries(all), maxFlows, maxBytes)
    {
      hide Cut;
      EntriesSuffix(all, Cut(Entries(all), maxFlows, maxBytes));
    }

    /** Evicting after one record changed its size is resizing it. */
    lemma ResizedOne(was: seq<FlowRecord>, record: FlowRecord, sizes: seq<Entry>, count: nat)
      requires record in was && DistinctIds(was) && |sizes| == |was|
      requires forall i :: 0 <= i < |was| ==> sizes[i].id == was[i].flowId
      requires Entries(was) == Resized(sizes, record.flowId, record.SizeBytes()) && Evicted(was, count)
      ensures Entries(records) ==
              RingStep(sizes, Resize(record.flowId, record.SizeBytes()), maxFlows, maxBytes)
    {
      hide Cut, Total, IndexOf, FlowRecord.SizeBytes;
      EvictedSettles(was, count);
      var i :| 0 <= i < |was| && was[i] == record;
      assert sizes[i].id == record.flowId;
    }

    method PopOldest()
      requires records != []
      modifies this`records, this`bytes, this`evicted
      ensures records == old(records)[1..] && evicted == old(evicted) + 1
      ensures bytes == old(bytes) - old(records)[0].SizeBytes()
    {
      var oldest := records[0];
      records := records[1..];
      bytes := bytes - oldest.SizeBytes();
      evicted := evicted + 1;
    }

    /** Oldest first, until both bounds hold by the counter's reckoning. The
        counter's error, if it has one, stays what it was. */
    method Evict()
      modifies this`records, this`bytes, this`evicted
      ensures Drift() == old(Drift())
      ensures var k := Cut(old(Entries(records)), maxFlows, maxBytes - old(Drift()));
              && k <= |old(records)|
              && records == old(records)[k..]
              && evicted == old(evicted) + k
      ensures records == [] || (|records| <= maxFlows && bytes <= maxBytes)
      ensures forall r :: r in records ==> r in old(records)
    {
      ghost var was, es, drift := records, Entries(records), Drift();
      ghost var n: nat := 0;
      assert was[0..] == was && es[0..] == es;
      while records != [] && (|records| > maxFlows || bytes > maxBytes)
        invariant n <= |was| == |es| && records == was[n..] && evicted == old(evicted) + n
        invariant bytes == drift + Total(es[n..])
        invariant n > 0 ==> !Fits(es[n - 1..], maxFlows, maxBytes - drift)
        decreases |records|
      {
        assert es[n..][1..] == es[n + 1..];
        assert records[0].SizeBytes() == es[n..][0].size;
        PopOldest();
        n := n + 1;
      }
      EntriesSuffix(was, n);
      CutIs(es, maxFlows, maxBytes - drift, n);
    }

    /** Inserts as the newest, replacing a record of the same id. */
    method Add(record: FlowRecord)
      requires Valid()
      modifies this
      ensures Valid() && history == old(history) + [RingLaws.Add(record.flowId, record.SizeBytes())]
      ensures Evicted(Without(old(records), record.flowId) + [record], old(evicted))
      ensures forall r :: r in records ==> r in old(records) || r == record
      ensures record in records || records == []
    {
      hide Cut, Total, Find, IndexOf, DistinctIds, FlowRecord.SizeBytes, RingStep, Entries, Sound, Without;
      history := history + [RingLaws.Add(record.flowId, record.SizeBytes())];
      Insert(record);
      assert history[..|history| - 1] == old(history);
    }

    method Insert(record: FlowRecord)
      requires Sound()
      modifies this`records, this`bytes, this`evicted
      ensures Sound()
      ensures Evicted(Without(old(records), record.flowId) + [record], old(evicted))
      ensures Did(RingLaws.Add(record.flowId, record.SizeBytes()))
      ensures forall r :: r in records ==> r in old(records) || r == record
      ensures record in records || records == []
    {
      hide Cut, Total, Find, IndexOf, DistinctIds, FlowRecord.SizeBytes, Sound;
      ghost var rest := Without(records, record.flowId);
      EntriesFound(records, record.flowId);
      EntriesConcat(rest, [record]);
      EntriesAre([record], [Entry(record.flowId, record.SizeBytes())]);
      AddUnsettled(record);
      SettleExact(rest + [record]);
      EvictedSettles(rest + [record], old(evicted));
    }

    /** Inserts a record of an id that is not held. */
    method AddNew(record: FlowRecord)
      requires Sound() && Find(records, record.flowId) == |records|
      modifies this`records, this`bytes, this`evicted
      ensures Sound()
      ensures var k := Cut(old(Entries(records)) + [Entry(record.flowId, record.SizeBytes())], maxFlows, maxBytes);
              && k <= |old(records)| + 1
              && records == (old(records) + [record])[k..] && evicted == old(evicted) + k
      ensures forall r :: r in records ==> r in old(records) || r == record
      ensures record in records || records == []
    {
      hide Cut, Total, IndexOf, FlowRecord.SizeBytes, RingStep, DistinctIds;
      EntriesConcat(records, [record]);
      EntriesAre([record], [Entry(record.flowId, record.SizeBytes())]);
      Insert(record);
    }

    /** Evicting with an exact counter. */
    method SettleExact(ghost all: seq<FlowRecord>)
      requires records == all && DistinctIds(all) && bytes == Total(Entries(all))
      modifies this`records, this`bytes, this`evicted
      ensures Sound() && Evicted(all, old(evicted))
      ensures forall r :: r in records ==> r in all
      ensures records == [] || records[|records| - 1] == all[|all| - 1]
    {
      hide Cut, Total;
      Evict();
    }

    method AddUnsettled(record: FlowRecord)
      requires Sound()
      modifies this`records, this`bytes
      ensures records == Without(old(records), record.flowId) + [record]
      ensures DistinctIds(records) && bytes == Total(Entries(records))
      ensures forall r :: r in records ==> r in old(records) || r == record
    {
      hide Total, Entries;
      var i := Find(records, record.flowId);
      var rest := Without(records, record.flowId);
      WithoutTotal(records, record.flowId);
      WithoutDistinct(records, record.flowId);
      SnocTotal(rest, record);
      var gone := if i < |records| then records[i].SizeBytes() else 0;
      records, bytes := rest + [record], bytes - gone + record.SizeBytes();
    }

    /** Patches a held record in place and settles the account. */
    method Update(flowId: string, changes: Patch) returns (r: Option<FlowRecord>)
      requires Valid()
      modifies this, records
      ensures Valid()
      ensures r.Some? <==> Find(old(records), flowId) < |old(records)|
      ensures r.Some? ==> r.value == old(records)[Find(old(records), flowId)] && r.value.Patched(changes)
      ensures forall x :: x in old(records) && r != Some(x) ==> unchanged(x)
      ensures r.None? ==> records == old(records) && evicted == old(evicted)
      ensures r.Some? ==> Evicted(old(records), old(evicted))
      ensures history == old(history) + (if r.Some? then [Resize(flowId, r.value.SizeBytes())] else [])
    {
      var i := Find(records, flowId);
      if i == |records| {
        return None;
      }
      hide Evicted, Valid, FlowRecord.SizeBytes, FlowRecord.Patched;
      var record := records[i];
      UpdateHeld(record, i, changes);
      return Some(record);
    }

    method UpdateHeld(record: FlowRecord, i: nat, changes: Patch)
      requires Valid() && i < |records| && records[i] == record && i == Find(records, record.flowId)
      modifies this, record
      ensures Valid() && record.Patched(changes) && Evicted(old(records), old(evicted))
      ensures history == old(history) + [Resize(record.flowId, record.SizeBytes())]
    {
      hide Cut, Total, IndexOf, FlowRecord.SizeBytes, FlowRecord.Patched, RingStep, DistinctIds, Ring, Entries, Sound, Find;
      PatchSettled(record, i, changes);
      Log(Resize(record.flowId, record.SizeBytes()));
    }

    method PatchSettled(record: FlowRecord, i: nat, changes: Patch)
      requires Sound() && i < |records| && records[i] == record && i == Find(records, record.flowId)
      modifies this`records, this`bytes, this`evicted, record
      ensures Sound() && record.Patched(changes)
      ensures Evicted(old(records), old(evicted)) && Did(Resize(record.flowId, record.SizeBytes()))
    {
      hide Cut, Total, IndexOf, FlowRecord.SizeBytes, FlowRecord.Patched, RingStep, Resized, Find;
      ghost var all, sizes := records, Entries(records);
      PatchAccount(record, i, changes);
      SettleExact(all);
      ResizedOne(all, record, sizes, old(evicted));
    }

    /** The oldest of `all` are gone, as many as the bounds asked for, and counted. */
    ghost predicate Evicted(all: seq<FlowRecord>, before: nat)
      reads this`records, this`evicted, all
    {
      var k := Cut(Entries(all), maxFlows, maxBytes);
      k <= |all| && records == all[k..] && evicted == before + k
    }

    method PatchAccount(record: FlowRecord, i: nat, changes: Patch)
      requires DistinctIds(records) && bytes == Total(Entries(records))
      requires i < |records| && records[i] == record && i == Find(records, record.flowId)
      modifies this`bytes, record
      ensures bytes == Total(Entries(records)) && record.Patched(changes)
      ensures Entries(records) == Resized(old(Entries(records)), record.flowId, record.SizeBytes())
    {
      hide Total, Find, FlowRecord.SizeBytes;
      ghost var was := Entries(records);
      EntriesFound(records, record.flowId);
      ghost var rest := Without(records, record.flowId);
      OthersTotal(records, i);
      ghost var es := Entries(rest);
      bytes := bytes - record.SizeBytes();
      record.Apply(changes);
      EntriesAre(rest, es);
      OthersTotal(records, i);
      EntriesAre(records, was[i := Entry(record.flowId, record.SizeBytes())]);
      bytes := bytes + record.SizeBytes();
    }

    /** Accounts for `delta` bytes that a held record has gained or lost. */
    method Adjust(flowId: string, delta: int)
      requires DistinctIds(records)
      modifies this`records, this`bytes, this`evicted
      ensures if Find(old(records), flowId) == |old(records)| || delta == 0 then
                records == old(records) && bytes == old(bytes) && evicted == old(evicted)
              else
                && Drift() == old(Drift()) + delta
                && (var k := Cut(old(Entries(records)), maxFlows, maxBytes - old(Drift()) - delta);
                    k <= |old(records)| && records == old(records)[k..] && evicted == old(evicted) + k)
                && (records == [] || (|records| <= maxFlows && bytes <= maxBytes))
      ensures forall r :: r in records ==> r in old(records)
    {
      if Find(records, flowId) == |records| || delta == 0 {
        return;
      }
      bytes := bytes + delta;
      Evict();
    }

    /** Adjusting by just what a held record has gained makes the account exact again. */
    method AdjustHeld(record: FlowRecord, delta: int)
      requires record in records && DistinctIds(records) && Drift() == -delta
      requires |records| <= maxFlows && bytes <= maxBytes
      modifies this`records, this`bytes, this`evicted
      ensures Sound() && Evicted(old(records), old(evicted))
      ensures forall r :: r in records ==> r in old(records)
    {
      hide Cut, Total, IndexOf;
      if delta == 0 {
        FitsUncut(Entries(records), maxFlows, maxBytes);
      }
      Adjust(record.flowId, delta);
    }

    method AdjustMissing(flowId: string, delta: int)
      requires Sound() && Find(records, flowId) == |records|
      modifies this`records, this`bytes, this`evicted
      ensures Sound() && records == old(records) && Evicted(records, old(evicted))
    {
      hide Cut, Total;
      FitsUncut(Entries(records), maxFlows, maxBytes);
      Adjust(flowId, delta);
    }

    method Clear()
      modifies this`records, this`bytes, this`history
      ensures Valid() && records == [] && history == old(history) + [RingLaws.Clear]
    {
      records, bytes := [], 0;
      Log(RingLaws.Clear);
    }
  }

  // ---------------------------------------------------------- WebSocket frames

  lemma PayloadOfOne(f: Frame)
    ensures PayloadBytes([f]) == |f.payload| && PayloadBytes([]) == 0
  {
    assert [f][1..] == [];
  }

  lemma {:induction false} PayloadConcat(a: seq<Frame>, b: seq<Frame>)
    ensures PayloadBytes(a + b) == PayloadBytes(a) + PayloadBytes(b)
  {
    if a == [] {
      assert a + b == b;
    } else {
      assert (a + b)[1..] == a[1..] + b;
      PayloadConcat(a[1..], b);
    }
  }

  /** The kept frames are a suffix within the bound, and no longer suffix is. */
  lemma {:induction false} KeptIsLongest(frames: seq<Frame>, maxBytes: int)
    ensures var kept := KeptFrames(frames, maxBytes);
            var k := |frames| - |kept|;
            && 0 <= k && kept == frames[k..]
            && (kept == [] || PayloadBytes(kept) <= maxBytes)
            && forall i :: 0 <= i < k ==> PayloadBytes(frames[i..]) > maxBytes
  {
    if frames != [] && PayloadBytes(frames) > maxBytes {
      KeptIsLongest(frames[1..], maxBytes);
      var k := |frames| - |KeptFrames(frames, maxBytes)|;
      assert frames[1..][k - 1..] == frames[k..];
      forall i | 0 <= i < k
        ensures PayloadBytes(frames[i..]) > maxBytes
      {
        if i == 0 {
          assert frames[0..] == frames;
        } else {
          assert frames[1..][i - 1..] == frames[i..];
        }
      }
    } else {
      assert frames[0..] == frames;
    }
  }

  /** Trimming as frames arrive keeps what trimming everything at the end would. */
  lemma {:induction false} KeptIncrementally(frames: seq<Frame>, f: Frame, maxBytes: int)
    ensures KeptFrames(KeptFrames(frames, maxBytes) + [f], maxBytes) == KeptFrames(frames + [f], maxBytes)
  {
    if frames != [] && PayloadBytes(frames) > maxBytes {
      PayloadConcat(frames, [f]);
      assert (frames + [f])[1..] == frames[1..] + [f];
      KeptIncrementally(frames[1..], f, maxBytes);
    }
  }

  lemma {:induction false} TotalUpdate(es: seq<Entry>, i: nat, e: Entry)
    requires i < |es|
    ensures Total(es[i := e]) == Total(es) - es[i].size + e.size
  {
    if i > 0 {
      assert es[i := e][1..] == es[1..][i - 1 := e];
      TotalUpdate(es[1..], i - 1, e);
    } else {
      assert es[0 := e][1..] == es[1..];
    }
  }

  /** A body cut to `cap` bytes, and whether it was cut. */
  function Truncate(body: seq<Byte>, cap: nat): (seq<Byte>, bool) {
    if |body| <= cap then (body, false) else (body[..cap], true)
  }

  /** A body that may be missing: what is kept of it, and whether it was cut. */
  method TruncateBody(body: Option<seq<Byte>>, cap: nat) returns (kept: Option<seq<Byte>>, wasLong: bool)
    ensures BodyCutTo(body, kept, cap) && (wasLong <==> Longer(body, cap))
  {
    if body.None? {
      return None, false;
    }
    TruncateCuts(body.value, cap);
    var (bytes, cut) := Truncate(body.value, cap);
    return Some(bytes), cut;
  }

  /** What is stored of bytes under a cap: their beginning, all of it or just the cap's worth. */
  predicate CutTo(given: seq<Byte>, kept: seq<Byte>, cap: nat) {
    kept <= given && |kept| <= cap && (kept == given || |kept| == cap)
  }

  predicate BodyCutTo(given: Option<seq<Byte>>, kept: Option<seq<Byte>>, cap: nat) {
    (kept.Some? <==> given.Some?) && (given.Some? ==> CutTo(given.value, kept.value, cap))
  }

  /** How many bytes of a body are stored under a cap. */
  function StoredBytes(body: Option<seq<Byte>>, cap: nat): nat {
    if body.None? then 0 else if |body.value| <= cap then |body.value| else cap
  }

  predicate Longer(body: Option<seq<Byte>>, cap: nat) {
    body.Some? && |body.value| > cap
  }

  /** A frame as it is stored, and flagged exactly if something is missing. */
  predicate FrameStores(f: Frame, index: int, direction: string, opcode: string, payload: seq<Byte>, cap: nat) {
    && f.index == index && f.direction == direction && f.opcode == opcode
    && CutTo(payload, f.payload, cap)
    && (f.truncated <==> f.payload != payload)
    && (f.truncated <==> |payload| > cap)
  }

  lemma TruncateCuts(body: seq<Byte>, cap: nat)
    ensures CutTo(body, Truncate(body, cap).0, cap)
    ensures Truncate(body, cap).1 <==> |body| > cap
    ensures Truncate(body, cap).1 <==> Truncate(body, cap).0 != body
  {
  }

  function FrameOf(index: int, direction: string, opcode: string, payload: seq<Byte>, cap: nat): Frame {
    var (bytes, cut) := Truncate(payload, cap);
    Frame(index, direction, opcode, bytes, cut)
  }

  /** Drops the oldest frames until the payload fits; says how many bytes that released. */
  method TrimFrames(record: FlowRecord, maxBytes: int) returns (released: nat)
    modifies record`wsMessages, record`wsDropped
    ensures record.wsMessages == KeptFrames(old(record.wsMessages), maxBytes)
    ensures |record.wsMessages| + record.wsDropped == |old(record.wsMessages)| + old(record.wsDropped)
    ensures released == PayloadBytes(old(record.wsMessages)) - PayloadBytes(record.wsMessages)
  {
    var total := PayloadBytes(record.wsMessages);
    var dropped := 0;
    released := 0;
    while record.wsMessages != [] && total - released > maxBytes
      invariant total - released == PayloadBytes(record.wsMessages)
      invariant KeptFrames(record.wsMessages, maxBytes) == KeptFrames(old(record.wsMessages), maxBytes)
      invariant record.wsDropped == old(record.wsDropped)
      invariant |record.wsMessages| + dropped == |old(record.wsMessages)|
      decreases |record.wsMessages|
    {
      released := released + |record.wsMessages[0].payload|;
      record.wsMessages := record.wsMessages[1..];
      dropped := dropped + 1;
    }
    record.wsDropped := record.wsDropped + dropped;
  }

  /** Appends one frame to a record's list and trims it; `delta` is what the record grew by. */
  method AppendFrame(record: FlowRecord, f: Frame, maxWsBytes: int) returns (delta: int)
    requires record.Windowed(maxWsBytes)
    modifies record
    ensures record.Windowed(maxWsBytes) && record.Received(f)
    ensures delta == record.SizeBytes() - old(record.SizeBytes())
  {
    record.kind := WebSocket;
    KeptIncrementally(record.received, f, maxWsBytes);
    PayloadConcat(record.wsMessages, [f]);
    record.wsMessages := record.wsMessages + [f];
    record.received := record.received + [f];
    var released := TrimFrames(record, maxWsBytes);
    delta := |f.payload| - released;
  }

  /** The sink. The record each method returns is also what it hands to the
      session writer and announces. */
  class RingSink {
    const ring: RingBuffer
    const maxBodyBytes: nat
    const maxWsBytes: int
    /** The ring's account is exact, and every held record is a true window on its frames. */
    ghost predicate Valid()
      reads this, ring, ring.records
    {
      ring.Valid() && AllWindowed()
    }

    ghost predicate AllWindowed()
      reads this, ring, ring.records
    {
      forall r :: r in ring.records ==> r.Windowed(maxWsBytes)
    }

    /** The same, apart from the history. */
    ghost predicate Sound()
      reads this, ring, ring.records
    {
      ring.Sound() && AllWindowed()
    }

    constructor (ring: RingBuffer, maxBodyBytes: nat, maxWsBytes: int)
      requires ring.Valid() && forall r :: r in ring.records ==> r.Windowed(maxWsBytes)
      ensures Valid() && this.ring == ring
      ensures this.maxBodyBytes == maxBodyBytes && this.maxWsBytes == maxWsBytes
    {
      this.ring, this.maxBodyBytes, this.maxWsBytes := ring, maxBodyBytes, maxWsBytes;
    }

    method Emit(record: FlowRecord)
      requires Valid() && record.Windowed(maxWsBytes)
      modifies ring
      ensures Valid()
      ensures ring.Evicted(Without(old(ring.records), record.flowId) + [record], old(ring.evicted))
      ensures ring.history == old(ring.history) + [RingLaws.Add(record.flowId, record.SizeBytes())]
    {
      hide Cut, Total, Find, IndexOf, Entries, FlowRecord.SizeBytes, FlowRecord.Windowed, RingStep;
      ring.Add(record);
    }

    /** A completed exchange: bodies are cut to the cap before the ring sees them. */
    method RecordHttp(flowId: string, requestBody: Option<seq<Byte>>, requestCut: bool,
                      responseBody: Option<seq<Byte>>, responseCut: bool)
      returns (record: FlowRecord)
      requires Valid()
      modifies ring
      ensures Valid() && fresh(record)
      ensures record.flowId == flowId && record.kind == Http && record.wsMessages == []
      ensures BodyCutTo(requestBody, record.requestBody, maxBodyBytes)
      ensures BodyCutTo(responseBody, record.responseBody, maxBodyBytes)
      ensures record.requestCut <==> requestCut || Longer(requestBody, maxBodyBytes)
      ensures record.responseCut <==> responseCut || Longer(responseBody, maxBodyBytes)
      ensures ring.Evicted(Without(old(ring.records), flowId) + [record], old(ring.evicted))
      ensures ring.history == old(ring.history) +
                [RingLaws.Add(flowId, 512 + StoredBytes(requestBody, maxBodyBytes) + StoredBytes(responseBody, maxBodyBytes))]
    {
      hide Sound, RingBuffer.Valid, RingBuffer.Evicted, FlowRecord.SizeBytes, FlowRecord.Windowed, BodyCutTo, Ring, Without;
      record := HttpRecord(flowId, requestBody, requestCut, responseBody, responseCut);
      Emit(record);
    }

    method HttpRecord(flowId: string, requestBody: Option<seq<Byte>>, requestCut: bool,
                      responseBody: Option<seq<Byte>>, responseCut: bool)
      returns (record: FlowRecord)
      ensures fresh(record) && record.Windowed(maxWsBytes)
      ensures record.flowId == flowId && record.kind == Http && record.wsMessages == []
      ensures BodyCutTo(requestBody, record.requestBody, maxBodyBytes)
      ensures BodyCutTo(responseBody, record.responseBody, maxBodyBytes)
      ensures record.requestCut <==> requestCut || Longer(requestBody, maxBodyBytes)
      ensures record.responseCut <==> responseCut || Longer(responseBody, maxBodyBytes)
      ensures record.SizeBytes() == 512 + StoredBytes(requestBody, maxBodyBytes) + StoredBytes(responseBody, maxBodyBytes)
    {
      var request, wasLong := TruncateBody(requestBody, maxBodyBytes);
      var response, wasLongToo := TruncateBody(responseBody, maxBodyBytes);
      record := new FlowRecord(flowId, Http, request, response);
      record.requestCut := requestCut || wasLong;
      record.responseCut := responseCut || wasLongToo;
    }

    /** A new, empty record for a flow the ring does not hold; the ring may be too
        small to keep even that. */
    method AddEmpty(flowId: string) returns (record: FlowRecord)
      requires Sound() && Find(ring.records, flowId) == |ring.records|
      modifies ring`records, ring`bytes, ring`evicted
      ensures Sound() && record.Windowed(maxWsBytes) && fresh(record)
      ensures record.flowId == flowId && record.received == []
      ensures record in ring.records || Find(ring.records, flowId) == |ring.records|
      ensures var k := Cut(old(Entries(ring.records)) + [Entry(flowId, 512)], ring.maxFlows, ring.maxBytes);
              && k <= |old(ring.records)| + 1
              && ring.records == (old(ring.records) + [record])[k..]
              && ring.evicted == old(ring.evicted) + k
    {
      hide Cut, Total, KeptFrames, PayloadBytes, FlowRecord.SizeBytes, FlowRecord.Windowed, Entries, DistinctIds;
      record := new FlowRecord(flowId, WebSocket, None, None);
      NothingReceived(record);
      ring.AddNew(record);
    }

    lemma NothingReceived(record: FlowRecord)
      requires record.wsMessages == [] && record.received == [] && record.wsDropped == 0
      requires record.requestBody.None? && record.responseBody.None?
      ensures record.Windowed(maxWsBytes) && record.SizeBytes() == 512
    {
    }

    /** The first frame of a flow the ring does not hold. */
    method StartWithFrame(flowId: string, f: Frame) returns (record: FlowRecord)
      requires Sound() && Find(ring.records, flowId) == |ring.records|
      modifies ring`records, ring`bytes, ring`evicted
      ensures Sound() && record.Windowed(maxWsBytes) && fresh(record)
      ensures record.flowId == flowId && record.kind == WebSocket && record.received == [f]
      ensures ring.Evicted(old(ring.records) + [record], old(ring.evicted))
    {
      hide Cut, Total, KeptFrames, PayloadBytes, FlowRecord.SizeBytes, FlowRecord.Windowed, Find, Entries, Sound,
           RingBuffer.Evicted;
      ghost var was, sizes, count := ring.records, Entries(ring.records), ring.evicted;
      record := AddEmpty(flowId);
      ghost var mid := ring.records;
      AccountFrame(record, f);
      EntriesAre(was, sizes);
      EvictedTwice(was, record, sizes, mid, count);
    }

    /** Evicting from the old records and a new one is adding it. */
    lemma AddedOne(was: seq<FlowRecord>, record: FlowRecord, sizes: seq<Entry>, count: nat)
      requires Find(was, record.flowId) == |was| && sizes == Entries(was)
      requires ring.Evicted(was + [record], count)
      ensures Entries(ring.records) ==
              RingStep(sizes, RingLaws.Add(record.flowId, record.SizeBytes()), ring.maxFlows, ring.maxBytes)
    {
      hide Cut, Total, Find, IndexOf, FlowRecord.SizeBytes;
      ring.EvictedSettles(was + [record], count);
      EntriesFound(was, record.flowId);
      EntriesConcat(was, [record]);
      EntriesAre([record], [Entry(record.flowId, record.SizeBytes())]);
    }

    /** One frame: appended to the flow's record if the ring holds it, or to a new
        one, trimmed, and accounted for. */
    method RecordWebsocketMessage(flowId: string, index: int, direction: string, opcode: string, payload: seq<Byte>)
      returns (record: FlowRecord)
      requires Valid()
      modifies ring, ring.records
      ensures Valid() && record.Windowed(maxWsBytes)
      ensures record.flowId == flowId && record.kind == WebSocket
      ensures record.received != [] &&
              FrameStores(record.received[|record.received| - 1], index, direction, opcode, payload, maxBodyBytes)
      ensures forall x :: x in old(ring.records) && x != record ==> unchanged(x)
      ensures var f := FrameOf(index, direction, opcode, payload, maxBodyBytes);
              if Find(old(ring.records), flowId) < |old(ring.records)| then
                && record in old(ring.records) && record.Received(f)
                && ring.Evicted(old(ring.records), old(ring.evicted))
                && ring.history == old(ring.history) + [Resize(flowId, record.SizeBytes())]
              else
                && fresh(record) && record.received == [f]
                && ring.Evicted(old(ring.records) + [record], old(ring.evicted))
                && ring.history == old(ring.history) + [RingLaws.Add(flowId, record.SizeBytes())]
    {
      hide Cut, Total, KeptFrames, PayloadBytes, FlowRecord.SizeBytes, FlowRecord.Windowed, Find, IndexOf, Truncate,
           Ring, RingStep;
      ghost var was, sizes := ring.records, Entries(ring.records);
      var f := FrameOf(index, direction, opcode, payload, maxBodyBytes);
      TruncateCuts(payload, maxBodyBytes);
      var i := Find(ring.records, flowId);
      if i < |ring.records| {
        record := ring.records[i];
        AccountFrame(record, f);
        ring.ResizedOne(was, record, sizes, old(ring.evicted));
        ring.Log(Resize(flowId, record.SizeBytes()));
      } else {
        record := StartWithFrame(flowId, f);
        EntriesAre(was, sizes);
        AddedOne(was, record, sizes, old(ring.evicted));
        ring.Log(RingLaws.Add(flowId, record.SizeBytes()));
      }
    }

    /** Evicting for the empty record and again for its frame is evicting once. */
    lemma EvictedTwice(was: seq<FlowRecord>, record: FlowRecord, sizes: seq<Entry>, mid: seq<FlowRecord>, count: nat)
      requires sizes == Entries(was)
      requires var k := Cut(sizes + [Entry(record.flowId, 512)], ring.maxFlows, ring.maxBytes);
               k <= |was| + 1 && mid == (was + [record])[k..] && ring.Evicted(mid, count + k)
      ensures ring.Evicted(was + [record], count)
    {
      hide Cut, FlowRecord.SizeBytes;
      var all, es := was + [record], sizes + [Entry(record.flowId, 512)];
      var now, k := Entries(all), Cut(es, ring.maxFlows, ring.maxBytes);
      AtLeastEmpty(record);
      assert forall i :: 0 <= i < |all| ==> es[i].size <= now[i].size;
      CutGrows(es, now, ring.maxFlows, ring.maxBytes);
      SuffixCut(now, k, ring.maxFlows, ring.maxBytes);
      EntriesSuffix(all, k);
      var m := Cut(now[k..], ring.maxFlows, ring.maxBytes);
      assert all[k..][m..] == all[k + m..];
    }

    /** Appends to a record the ring may hold and settles the ring's account. */
    method AccountFrame(record: FlowRecord, f: Frame)
      requires Sound() && record.Windowed(maxWsBytes)
      requires record in ring.records || Find(ring.records, record.flowId) == |ring.records|
      modifies ring`records, ring`bytes, ring`evicted, record
      ensures Sound() && record.Windowed(maxWsBytes) && record.Received(f)
      ensures ring.Evicted(old(ring.records), old(ring.evicted))
      ensures forall r :: r in ring.records ==> r in old(ring.records)
      ensures record in old(ring.records) ==>
                Entries(old(ring.records)) == Resized(old(Entries(ring.records)), record.flowId, record.SizeBytes())
    {
      hide Cut, Total, KeptFrames, PayloadBytes, FlowRecord.SizeBytes, Find, IndexOf, DistinctIds, Resized, Entries;
      var delta := AppendCounted(record, f);
      Reaccount(record, delta);
    }

    lemma HeldIndex(rs: seq<FlowRecord>, record: FlowRecord)
      requires record in rs && DistinctIds(rs)
      ensures IndexOf(Entries(rs), record.flowId) < |rs| && rs[IndexOf(Entries(rs), record.flowId)] == record
    {
      hide IndexOf;
      var i :| 0 <= i < |rs| && rs[i] == record;
      assert Entries(rs)[i].id == record.flowId;
      var j := IndexOf(Entries(rs), record.flowId);
      assert Entries(rs)[j].id == rs[j].flowId;
    }

    method Reaccount(record: FlowRecord, delta: int)
      requires DistinctIds(ring.records)
      requires if record in ring.records then
                 ring.Drift() == -delta && |ring.records| <= ring.maxFlows && ring.bytes <= ring.maxBytes
               else
                 ring.Sound() && Find(ring.records, record.flowId) == |ring.records|
      modifies ring`records, ring`bytes, ring`evicted
      ensures ring.Sound() && ring.Evicted(old(ring.records), old(ring.evicted))
      ensures forall r :: r in ring.records ==> r in old(ring.records)
    {
      if record in ring.records {
        ring.AdjustHeld(record, delta);
      } else {
        ring.AdjustMissing(record.flowId, delta);
      }
    }

    /** The append alone: the ring's counter is now off by `delta` if it holds the record. */
    method AppendCounted(record: FlowRecord, f: Frame) returns (delta: int)
      requires DistinctIds(ring.records) && record.Windowed(maxWsBytes)
      modifies record
      ensures record.Windowed(maxWsBytes) && record.Received(f)
      ensures ring.Drift() == old(ring.Drift()) - (if record in ring.records then delta else 0)
      ensures record in ring.records ==>
                Entries(ring.records) == Resized(old(Entries(ring.records)), record.flowId, record.SizeBytes())
      ensures (forall r :: r in ring.records ==> old(r.Windowed(maxWsBytes))) ==>
                forall r :: r in ring.records ==> r.Windowed(maxWsBytes)
    {
      hide Total, IndexOf, KeptFrames, PayloadBytes;
      ghost var rs, es := ring.records, Entries(ring.records);
      delta := AppendFrame(record, f, maxWsBytes);
      if record in rs {
        HeldIndex(rs, record);
        ghost var i := IndexOf(es, record.flowId);
        ghost var now := es[i := Entry(record.flowId, record.SizeBytes())];
        assert forall j :: 0 <= j < |rs| && j != i ==> rs[j] != record;
        EntriesAre(rs, now);
        TotalUpdate(es, i, now[i]);
      } else {
        assert forall j :: 0 <= j < |rs| ==> rs[j] in rs;
        EntriesAre(rs, es);
      }
    }

    /** The socket closed: noted on the held record, if there is one, which is
        then re-queued. */
    method RecordWebsocketClose(flowId: string, closeCode: Option<int>) returns (queued: Option<FlowRecord>)
      requires Valid()
      modifies ring.records
      ensures Valid() && ring.records == old(ring.records)
      ensures var i := Find(ring.records, flowId);
              queued == if i < |ring.records| then Some(ring.records[i]) else None
      ensures queued.Some? ==>
                && queued.value.Patched(Patch(None, None, None, None, None, None, Some(true), Some(closeCode), None, None))
                && queued.value.SizeBytes() == old(queued.value.SizeBytes())
      ensures forall x :: x in ring.records && queued != Some(x) ==> unchanged(x)
    {
      hide Total, KeptFrames, PayloadBytes, Ring, Find, BodyBytes;
      var i := Find(ring.records, flowId);
      if i == |ring.records| {
        return None;
      }
      ghost var es := Entries(ring.records);
      var record := ring.records[i];
      record.wsClosed := true;
      record.wsCloseCode := closeCode;
      EntriesAre(ring.records, es);
      return Some(record);
    }
  }
}
