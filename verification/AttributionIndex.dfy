/** Joining observed requests to proxied flows (daemon/src/pporlock/capture/attribution.py). */
module AttributionIndex {
  import opened Seqs
  import opened Text

  datatype Entry = Entry(httpMethod: string, url: string, ts: real, tabId: int)

  type Key = (string, string)

  function KeyOf(e: Entry): Key {
    (ToUpper(e.httpMethod), e.url)
  }

  /** The same text but for the case of ASCII letters. */
  predicate SameFolded(a: string, b: string) {
    |a| == |b| && forall i :: 0 <= i < |a| ==>
      || a[i] == b[i]
      || ('a' <= a[i] <= 'z' && a[i] as int - b[i] as int == 32)
      || ('a' <= b[i] <= 'z' && b[i] as int - a[i] as int == 32)
  }

  /** The entry was observed for this request: the same URL, and the same method in any case. */
  predicate Observes(e: Entry, httpMethod: string, url: string) {
    e.url == url && SameFolded(e.httpMethod, httpMethod)
  }

  lemma FoldedExactly(a: string, b: string)
    ensures ToUpper(a) == ToUpper(b) <==> SameFolded(a, b)
  {
    var x, y := ToUpper(a), ToUpper(b);
    if x == y {
      forall i | 0 <= i < |a|
        ensures || a[i] == b[i]
                || ('a' <= a[i] <= 'z' && a[i] as int - b[i] as int == 32)
                || ('a' <= b[i] <= 'z' && b[i] as int - a[i] as int == 32)
      {
        assert x[i] == y[i];
      }
    }
  }

  /** Two requests meet under one key exactly if they are the same. */
  lemma KeyExactly(e: Entry, httpMethod: string, url: string)
    ensures KeyOf(e) == (ToUpper(httpMethod), url) <==> Observes(e, httpMethod, url)
  {
    FoldedExactly(e.httpMethod, httpMethod);
  }

  /** An entry in the ordered dictionary; `serial` is the number of submissions before it. */
  datatype Held = Held(serial: nat, entry: Entry)

  /** One successful resolve: what was asked, which submission answered, and how many
      there had been by then. */
  datatype Answer = Answer(key: Key, moment: real, serial: nat, tabId: int, size: nat)

  /** `pending` is the dictionary in its order. `log`, `answers`, `overwritten` and
      `cleared` are history: every submission, every successful resolve, and how many
      entries a newer one or `clear` displaced. */
  datatype State = State(
    window: real,
    maxPending: nat,
    pending: seq<Held>,
    submitted: nat,
    resolved: nat,
    unresolved: nat,
    dropped: nat,
    log: seq<Entry>,
    answers: seq<Answer>,
    overwritten: nat,
    cleared: nat)

  function Start(window: real, maxPending: nat): State {
    State(window, maxPending, [], 0, 0, 0, 0, [], [], 0, 0)
  }

  function Place(pending: seq<Held>, key: Key): (i: nat)
    ensures i <= |pending|
    ensures forall k :: 0 <= k < i ==> KeyOf(pending[k].entry) != key
    ensures i < |pending| ==> KeyOf(pending[i].entry) == key
  {
    First(pending, (h: Held) => KeyOf(h.entry) == key)
  }

  function Without<T>(xs: seq<T>, i: nat): seq<T>
    requires i < |xs|
  {
    xs[..i] + xs[i + 1..]
  }

  /** Assign under the key and move to the end. */
  function Put(s: State, e: Entry): State {
    var i := Place(s.pending, KeyOf(e));
    var found := i < |s.pending|;
    s.(pending := (if found then Without(s.pending, i) else s.pending) + [Held(s.submitted, e)],
       submitted := s.submitted + 1,
       log := s.log + [e],
       overwritten := s.overwritten + if found then 1 else 0)
  }

  function PutAll(s: State, entries: seq<Entry>): State
    decreases |entries|
  {
    if entries == [] then s else PutAll(Put(s, entries[0]), entries[1..])
  }

  predicate Fresh(h: Held, now: real, window: real) {
    now - h.entry.ts <= window * 2.0
  }

  function FreshOnes(pending: seq<Held>, now: real, window: real): seq<Held> {
    Filter(pending, (h: Held) => Fresh(h, now, window))
  }

  /** Stale entries go first, then the oldest beyond the bound. */
  function Evict(s: State, now: real): State {
    var recent := FreshOnes(s.pending, now, s.window);
    var over := if |recent| > s.maxPending then |recent| - s.maxPending else 0;
    s.(pending := recent[over..], dropped := s.dropped + (|s.pending| - |recent|) + over)
  }

  predicate Near(moment: real, ts: real, window: real) {
    (if moment >= ts then moment - ts else ts - moment) <= window
  }

  function Resolve(s: State, httpMethod: string, url: string, moment: real): (State, Option<int>) {
    var key := (ToUpper(httpMethod), url);
    var i := Place(s.pending, key);
    if i == |s.pending| || !Near(moment, s.pending[i].entry.ts, s.window) then
      (s.(unresolved := s.unresolved + 1), None)
    else
      var h := s.pending[i];
      (s.(pending := Without(s.pending, i), resolved := s.resolved + 1,
          answers := s.answers + [Answer(key, moment, h.serial, h.entry.tabId, |s.log|)]),
       Some(h.entry.tabId))
  }

  datatype Event =
    | Submitted(entries: seq<Entry>, now: real)
    | Resolving(httpMethod: string, url: string, moment: real)
    | Cleared

  function Apply(s: State, event: Event): State {
    match event
    case Submitted(entries, now) => Evict(PutAll(s, entries), now)
    case Resolving(httpMethod, url, moment) => Resolve(s, httpMethod, url, moment).0
    case Cleared => s.(pending := [], cleared := s.cleared + |s.pending|)
  }

  function Run(s: State, events: seq<Event>): State
    decreases |events|
  {
    if events == [] then s else Run(Apply(s, events[0]), events[1..])
  }

  // -------------------------------------------------------------------- invariants

  /** Submission `n` is the latest for its key among the first `size`. */
  ghost predicate Latest(log: seq<Entry>, n: nat, size: nat)
    requires n < size <= |log|
  {
    forall k :: n < k < size ==> KeyOf(log[k]) != KeyOf(log[n])
  }

  ghost predicate PendingSound(pending: seq<Held>, log: seq<Entry>) {
    && (forall i :: 0 <= i < |pending| ==>
          && pending[i].serial < |log|
          && log[pending[i].serial] == pending[i].entry
          && Latest(log, pending[i].serial, |log|))
    && (forall i, j :: 0 <= i < j < |pending| ==> pending[i].serial < pending[j].serial)
  }

  /** Each answer named the tab of the latest submission for its key at the time,
      within the window. */
  ghost predicate AnswersSound(s: State) {
    forall i :: 0 <= i < |s.answers| ==>
      var a := s.answers[i];
      && a.serial < a.size <= |s.log|
      && KeyOf(s.log[a.serial]) == a.key
      && s.log[a.serial].tabId == a.tabId
      && Latest(s.log, a.serial, a.size)
      && -s.window <= a.moment - s.log[a.serial].ts <= s.window
  }

  /** No submission has answered twice, and none that has answered is still held. */
  ghost predicate AnsweredOnce(s: State) {
    && (forall i, j :: 0 <= i < j < |s.answers| ==> s.answers[i].serial != s.answers[j].serial)
    && (forall i, j :: 0 <= i < |s.answers| && 0 <= j < |s.pending| ==> s.answers[i].serial != s.pending[j].serial)
  }

  ghost predicate Inv(s: State) {
    && PendingSound(s.pending, s.log)
    && AnswersSound(s)
    && AnsweredOnce(s)
    && s.submitted == |s.log|
    && s.resolved == |s.answers|
    && s.submitted == s.resolved + s.dropped + |s.pending| + s.overwritten + s.cleared
  }

  lemma KeysDistinct(pending: seq<Held>, log: seq<Entry>, i: nat, j: nat)
    requires PendingSound(pending, log) && i < j < |pending|
    ensures KeyOf(pending[i].entry) != KeyOf(pending[j].entry)
  {
  }

  /** Dropping entries keeps what is left sound. */
  lemma LessIsSound(pending: seq<Held>, log: seq<Entry>, i: nat)
    requires PendingSound(pending, log) && i < |pending|
    ensures PendingSound(Without(pending, i), log)
    ensures forall k :: 0 <= k < |pending| - 1 ==> Without(pending, i)[k] in pending
    ensures forall k :: 0 <= k < |pending| - 1 ==> Without(pending, i)[k].serial != pending[i].serial
  {
  }

  lemma PutKeeps(s: State, e: Entry)
    requires Inv(s)
    ensures Inv(Put(s, e))
  {
    var i := Place(s.pending, KeyOf(e));
    var base := s.pending;
    if i < |s.pending| {
      base := Without(s.pending, i);
      LessIsSound(s.pending, s.log, i);
      forall k | 0 <= k < |base| ensures KeyOf(base[k].entry) != KeyOf(e) {
        if k >= i {
          KeysDistinct(s.pending, s.log, i, k + 1);
        }
      }
    }
    var r := Put(s, e);
    assert r.pending == base + [Held(s.submitted, e)];
    PutIsSound(base, s.log, e);
    AnswersOutlive(s, r);
  }

  lemma PutIsSound(base: seq<Held>, log: seq<Entry>, e: Entry)
    requires PendingSound(base, log)
    requires forall k :: 0 <= k < |base| ==> KeyOf(base[k].entry) != KeyOf(e)
    ensures PendingSound(base + [Held(|log|, e)], log + [e])
  {
  }

  lemma AnswersOutlive(s: State, r: State)
    requires AnswersSound(s) && r.answers == s.answers && s.log <= r.log && r.window == s.window
    ensures AnswersSound(r)
  {
  }

  lemma {:induction false} PutAllKeeps(s: State, entries: seq<Entry>)
    requires Inv(s)
    ensures Inv(PutAll(s, entries))
    decreases |entries|
  {
    hide Inv, Put;
    if entries == [] {
    } else {
      PutKeeps(s, entries[0]);
      PutAllKeeps(Put(s, entries[0]), entries[1..]);
    }
  }

  lemma PutLogs(s: State, e: Entry)
    ensures Put(s, e).log == s.log + [e] && Put(s, e).maxPending == s.maxPending
    ensures Put(s, e).resolved == s.resolved && Put(s, e).unresolved == s.unresolved
  {
  }

  lemma {:induction false} PutAllLogs(s: State, entries: seq<Entry>)
    ensures PutAll(s, entries).log == s.log + entries
    ensures PutAll(s, entries).maxPending == s.maxPending
    ensures PutAll(s, entries).resolved == s.resolved && PutAll(s, entries).unresolved == s.unresolved
    decreases |entries|
  {
    hide Put;
    if entries == [] {
      assert s.log + entries == s.log;
    } else {
      PutLogs(s, entries[0]);
      PutAllLogs(Put(s, entries[0]), entries[1..]);
      assert s.log + [entries[0]] + entries[1..] == s.log + entries;
    }
  }

  /** What the stale-entry pass leaves: exactly the fresh entries. */
  lemma {:induction false} FreshOnesAre(pending: seq<Held>, now: real, window: real)
    ensures forall h :: h in FreshOnes(pending, now, window) <==> h in pending && Fresh(h, now, window)
  {
    if pending == [] {
    } else {
      FreshOnesAre(pending[1..], now, window);
      assert pending == [pending[0]] + pending[1..];
    }
  }

  lemma PrependIsSound(h: Held, pending: seq<Held>, log: seq<Entry>)
    requires PendingSound([h], log) && PendingSound(pending, log)
    requires forall i :: 0 <= i < |pending| ==> h.serial < pending[i].serial
    ensures PendingSound([h] + pending, log)
  {
  }

  lemma SoundTail(pending: seq<Held>, log: seq<Entry>)
    requires PendingSound(pending, log) && pending != []
    ensures PendingSound(pending[..1], log) && PendingSound(pending[1..], log)
    ensures forall h :: h in pending[1..] ==> pending[0].serial < h.serial
  {
    hide Latest;
  }

  /** ... in their order. */
  lemma {:induction false} FreshOnesKeep(pending: seq<Held>, log: seq<Entry>, now: real, window: real)
    requires PendingSound(pending, log)
    ensures PendingSound(FreshOnes(pending, now, window), log)
  {
    if pending == [] {
    } else {
      hide Fresh, PendingSound;
      var h, rest := pending[0], FreshOnes(pending[1..], now, window);
      SoundTail(pending, log);
      FreshOnesKeep(pending[1..], log, now, window);
      FreshOnesAre(pending[1..], now, window);
      forall i | 0 <= i < |rest| ensures h.serial < rest[i].serial {
        assert rest[i] in pending[1..];
      }
      PrependIsSound(h, rest, log);
    }
  }

  lemma EvictKeeps(s: State, now: real)
    requires Inv(s)
    ensures Inv(Evict(s, now))
    ensures |Evict(s, now).pending| <= s.maxPending
  {
    hide Latest, AnswersSound;
    FreshOnesAre(s.pending, now, s.window);
    FreshOnesKeep(s.pending, s.log, now, s.window);
    var r := Evict(s, now);
    var recent := FreshOnes(s.pending, now, s.window);
    assert forall k :: 0 <= k < |r.pending| ==> r.pending[k] in recent;
    AnswersOutlive(s, r);
  }

  /** Eviction removes an entry only if it is stale, or if `maxPending` fresh entries
      submitted after it remain. */
  lemma EvictedBecause(s: State, now: real, h: Held)
    requires Inv(s) && h in s.pending
    ensures var r := Evict(s, now);
            h in r.pending <==>
            now - h.entry.ts <= 2.0 * s.window && !(|r.pending| == s.maxPending && forall k :: k in r.pending ==> h.serial < k.serial)
  {
    hide Latest, AnswersSound, AnsweredOnce, FreshOnes;
    FreshOnesAre(s.pending, now, s.window);
    FreshOnesKeep(s.pending, s.log, now, s.window);
    var recent, r := FreshOnes(s.pending, now, s.window), Evict(s, now);
    var over := |recent| - |r.pending|;
    assert r.pending == recent[over..];
    if h in recent {
      SuffixMembers(recent, s.log, over, h);
      if over == 0 {
        assert h in r.pending;
      }
    } else {
      assert forall k :: 0 <= k < |r.pending| ==> r.pending[k] == recent[over + k];
    }
  }

  /** In submission order, an entry is in a suffix exactly when it does not precede
      all of it. */
  lemma SuffixMembers(recent: seq<Held>, log: seq<Entry>, over: nat, h: Held)
    requires PendingSound(recent, log) && over <= |recent| && h in recent
    ensures h in recent[over..] <==> !(forall k :: k in recent[over..] ==> h.serial < k.serial)
  {
  }

  lemma ResolveKeeps(s: State, httpMethod: string, url: string, moment: real)
    requires Inv(s)
    ensures Inv(Resolve(s, httpMethod, url, moment).0)
  {
    var key := (ToUpper(httpMethod), url);
    var i := Place(s.pending, key);
    var r := Resolve(s, httpMethod, url, moment).0;
    if i < |s.pending| && Near(moment, s.pending[i].entry.ts, s.window) {
      hide Latest;
      LessIsSound(s.pending, s.log, i);
    }
  }

  lemma StepKeeps(s: State, event: Event)
    requires Inv(s)
    ensures Inv(Apply(s, event))
  {
    hide Inv, PutAll, Evict, Resolve;
    match event {
      case Submitted(entries, now) =>
        PutAllKeeps(s, entries);
        EvictKeeps(PutAll(s, entries), now);
      case Resolving(httpMethod, url, moment) =>
        ResolveKeeps(s, httpMethod, url, moment);
      case Cleared =>
        ClearKeeps(s);
    }
  }

  lemma ClearKeeps(s: State)
    requires Inv(s)
    ensures Inv(Apply(s, Cleared))
  {
  }

  /** In every history: each answer is the tab of the then-latest submission for the
      key, within the window; no submission answers twice; and every submission is
      resolved, dropped, pending, overwritten or cleared. */
  lemma {:induction false} RunKeeps(s: State, events: seq<Event>)
    requires Inv(s)
    ensures Inv(Run(s, events))
    decreases |events|
  {
    if events == [] {
    } else {
      hide Inv, Apply;
      StepKeeps(s, events[0]);
      RunKeeps(Apply(s, events[0]), events[1..]);
    }
  }

  lemma EveryHistory(window: real, maxPending: nat, events: seq<Event>)
    ensures Inv(Run(Start(window, maxPending), events))
  {
    RunKeeps(Start(window, maxPending), events);
  }

  /** How many resolves there were, and what was submitted. */
  function Resolves(events: seq<Event>): nat {
    if events == [] then 0 else (if events[0].Resolving? then 1 else 0) + Resolves(events[1..])
  }

  function SubmittedIn(events: seq<Event>): seq<Entry> {
    if events == [] then []
    else (if events[0].Submitted? then events[0].entries else []) + SubmittedIn(events[1..])
  }

  lemma StepCounts(s: State, event: Event)
    ensures var t := Apply(s, event);
            && t.log == s.log + (if event.Submitted? then event.entries else [])
            && t.resolved + t.unresolved == s.resolved + s.unresolved + if event.Resolving? then 1 else 0
  {
    hide Put, Filter;
    match event
    case Submitted(entries, now) => PutAllLogs(s, entries);
    case _ =>
  }

  /** Every entry submitted is on record, and every resolve counts once, as resolved or
      as unresolved. */
  lemma {:induction false} ResolvesCounted(s: State, events: seq<Event>)
    ensures var t := Run(s, events);
            && t.log == s.log + SubmittedIn(events)
            && t.resolved + t.unresolved == s.resolved + s.unresolved + Resolves(events)
    decreases |events|
  {
    if events == [] {
      assert s.log + [] == s.log;
    } else {
      hide Apply;
      var t := Apply(s, events[0]);
      StepCounts(s, events[0]);
      ResolvesCounted(t, events[1..]);
      var first := if events[0].Submitted? then events[0].entries else [];
      assert s.log + first + SubmittedIn(events[1..]) == s.log + (first + SubmittedIn(events[1..]));
    }
  }

  /** After every submit the dictionary is within its bound. */
  lemma SubmitBounds(s: State, entries: seq<Entry>, now: real)
    requires Inv(s)
    ensures |Apply(s, Submitted(entries, now)).pending| <= s.maxPending
  {
    hide Inv, PutAll, Evict;
    PutAllKeeps(s, entries);
    PutAllLogs(s, entries);
    EvictKeeps(PutAll(s, entries), now);
  }

  /** Submission `n` is still in the dictionary. */
  ghost predicate Holds(s: State, n: nat) {
    exists h :: h in s.pending && h.serial == n
  }

  /** A resolve finds a tab exactly when the latest submission for the key is still
      held and near enough in time, and then it is that submission's tab. */
  lemma ResolveFindsLatest(s: State, httpMethod: string, url: string, moment: real, n: nat)
    requires Inv(s)
    requires n < |s.log| && Observes(s.log[n], httpMethod, url)
    requires forall k :: n < k < |s.log| ==> !Observes(s.log[k], httpMethod, url)
    ensures Resolve(s, httpMethod, url, moment).1 ==
            if Holds(s, n) && -s.window <= moment - s.log[n].ts <= s.window then Some(s.log[n].tabId) else None
  {
    forall k | n <= k < |s.log|
      ensures KeyOf(s.log[k]) == (ToUpper(httpMethod), url) <==> Observes(s.log[k], httpMethod, url)
    {
      KeyExactly(s.log[k], httpMethod, url);
    }
    hide KeyOf, Observes;
    assert Latest(s.log, n, |s.log|);
  }

  /** A key never submitted is never found. */
  lemma ResolveUnknown(s: State, httpMethod: string, url: string, moment: real)
    requires Inv(s)
    requires forall n :: 0 <= n < |s.log| ==> !Observes(s.log[n], httpMethod, url)
    ensures Resolve(s, httpMethod, url, moment).1 == None
  {
    forall n | 0 <= n < |s.log|
      ensures KeyOf(s.log[n]) != (ToUpper(httpMethod), url)
    {
      KeyExactly(s.log[n], httpMethod, url);
    }
  }

  // ------------------------------------------------------------------------ the class

  class Index {
    const window: real
    const maxPending: nat
    var pending: seq<Held>
    var submitted: nat
    var resolved: nat
    var unresolved: nat
    var dropped: nat
    ghost var log: seq<Entry>
    ghost var answers: seq<Answer>
    ghost var overwritten: nat
    ghost var cleared: nat

    ghost function View(): State
      reads this
    {
      State(window, maxPending, pending, submitted, resolved, unresolved, dropped, log, answers, overwritten, cleared)
    }

    constructor (window: real, maxPending: nat)
      ensures View() == Start(window, maxPending)
    {
      this.window, this.maxPending := window, maxPending;
      pending, submitted, resolved, unresolved, dropped := [], 0, 0, 0, 0;
      log, answers, overwritten, cleared := [], [], 0, 0;
    }

    method Submit(entries: seq<Entry>, now: real) returns (accepted: nat)
      modifies this
      ensures View() == Apply(old(View()), Submitted(entries, now))
      ensures accepted == |entries|
    {
      accepted := 0;
      for i := 0 to |entries|
        invariant accepted == i
        invariant PutAll(View(), entries[i..]) == old(PutAll(View(), entries))
      {
        assert entries[i..][0] == entries[i] && entries[i..][1..] == entries[i + 1..];
        SetItem(entries[i]);
        accepted := accepted + 1;
      }
      EvictAt(now);
    }

    /** Assignment under the entry's key, moved to the end. */
    method SetItem(e: Entry)
      modifies this
      ensures View() == Put(old(View()), e)
    {
      var i := Place(pending, KeyOf(e));
      if i < |pending| {
        pending := Without(pending, i);
        overwritten := overwritten + 1;
      }
      pending := pending + [Held(submitted, e)];
      submitted := submitted + 1;
      log := log + [e];
    }

    method EvictAt(now: real)
      modifies this
      ensures View() == Evict(old(View()), now)
    {
      DropStale(now);
      DropOldest();
    }

    method DropOldest()
      modifies this
      ensures var over := if |old(pending)| > maxPending then |old(pending)| - maxPending else 0;
              View() == old(View()).(pending := old(pending)[over..], dropped := old(dropped) + over)
    {
      var i := 0;
      while |pending| > maxPending
        invariant i <= |old(pending)| && pending == old(pending)[i..] && dropped == old(dropped) + i
        invariant i > 0 ==> |pending| >= maxPending
        invariant View() == old(View()).(pending := pending, dropped := dropped)
        decreases |pending|
      {
        pending := pending[1..];
        dropped := dropped + 1;
        i := i + 1;
      }
    }

    method DropStale(now: real)
      modifies this
      ensures var recent := FreshOnes(old(pending), now, window);
              View() == old(View()).(pending := recent, dropped := old(dropped) + (|old(pending)| - |recent|))
    {
      var kept: seq<Held> := [];
      for i := 0 to |pending|
        invariant FreshOnes(pending, now, window) == kept + FreshOnes(pending[i..], now, window)
      {
        assert pending[i..][1..] == pending[i + 1..];
        if !(now - pending[i].entry.ts > window * 2.0) {
          kept := kept + [pending[i]];
        }
      }
      assert kept == FreshOnes(pending, now, window);
      dropped := dropped + (|pending| - |kept|);
      pending := kept;
    }

    method ResolveTab(httpMethod: string, url: string, when: Option<real>, now: real) returns (tab: Option<int>)
      modifies this
      ensures (View(), tab) == Resolve(old(View()), httpMethod, url, when.GetOr(now))
    {
      var key := (ToUpper(httpMethod), url);
      var i := Place(pending, key);
      if i == |pending| {
        unresolved := unresolved + 1;
        return None;
      }
      var entry := pending[i].entry;
      var moment := if when.None? then now else when.value;
      if !Near(moment, entry.ts, window) {
        unresolved := unresolved + 1;
        return None;
      }
      answers := answers + [Answer(key, moment, pending[i].serial, entry.tabId, |log|)];
      pending := Without(pending, i);
      resolved := resolved + 1;
      return Some(entry.tabId);
    }

    method Clear()
      modifies this
      ensures View() == Apply(old(View()), Cleared)
    {
      cleared := cleared + |pending|;
      pending := [];
    }
  }
}
