/** Filtered, cursor-paginated reads: oldest first from a session file
    (daemon/src/pporlock/capture/session.py), newest first from the ring
    (daemon/src/pporlock/capture/ring.py). */
module Paging {
  import opened Seqs

  /** How many leading elements hold the first `limit` matches; all of them when
      there are fewer. */
  function Consumed<T>(xs: seq<T>, p: T -> bool, limit: nat): (n: nat)
    ensures n <= |xs|
  {
    if limit == 0 || xs == [] then 0
    else 1 + Consumed(xs[1..], p, if p(xs[0]) then limit - 1 else limit)
  }

  /** A scan that stops early stops right after the match that filled the page. */
  lemma {:induction false} ConsumedShort<T>(xs: seq<T>, p: T -> bool, limit: nat)
    ensures var n := Consumed(xs, p, limit);
            && |Filter(xs[..n], p)| <= limit
            && (n < |xs| ==> |Filter(xs[..n], p)| == limit)
            && (|Filter(xs[..n], p)| == limit > 0 ==>
                  && n > 0 && p(xs[n - 1])
                  && Filter(xs[..n], p) != [] && Filter(xs[..n], p)[limit - 1] == xs[n - 1])
  {
    if limit > 0 && xs != [] {
      var rest := if p(xs[0]) then limit - 1 else limit;
      var n := Consumed(xs, p, limit);
      ConsumedShort(xs[1..], p, rest);
      assert xs[..n][1..] == xs[1..][..n - 1];
    }
  }

  lemma FilterSplit<T>(xs: seq<T>, p: T -> bool, n: nat)
    requires n <= |xs|
    ensures Filter(xs, p) == Filter(xs[..n], p) + Filter(xs[n..], p)
  {
    hide Filter;
    var a, b := xs[..n], xs[n..];
    assert xs == a + b;
    FilterConcat(a, b, p);
  }

  /** What a scan reads has the first matches; if they are all that was asked for, the last
      of them is the last element read, and otherwise there are no more. */
  lemma ScanFills<T>(xs: seq<T>, p: T -> bool, limit: nat)
    requires limit > 0
    ensures var n := Consumed(xs, p, limit);
            var flows, all := Filter(xs[..n], p), Filter(xs, p);
            && flows <= all
            && |flows| == (if |all| < limit then |all| else limit)
            && (|flows| < limit ==> n == |xs|)
            && (|flows| == limit ==> n > 0 && flows[limit - 1] == xs[n - 1])
  {
    var n := Consumed(xs, p, limit);
    ConsumedShort(xs, p, limit);
    FilterSplit(xs, p, n);
    if n == |xs| {
      assert xs[..n] == xs && xs[n..] == [];
    }
  }

  /** A scan in progress: `k` elements read, `found` the matches among them, and
      the page not over-full. */
  predicate Scanned<T(==)>(xs: seq<T>, p: T -> bool, limit: nat, k: nat, found: seq<T>) {
    && k <= |xs|
    && found == Filter(xs[..k], p)
    && |found| <= limit
    && Consumed(xs, p, limit) == k + Consumed(xs[k..], p, limit - |found|)
  }

  lemma ScanStart<T>(xs: seq<T>, p: T -> bool, limit: nat)
    ensures Scanned(xs, p, limit, 0, [])
  {
  }

  lemma ScanStep<T>(xs: seq<T>, p: T -> bool, limit: nat, k: nat, found: seq<T>)
    requires Scanned(xs, p, limit, k, found)
    requires k < |xs| && |found| < limit
    ensures Scanned(xs, p, limit, k + 1, if p(xs[k]) then found + [xs[k]] else found)
  {
    var head := xs[..k + 1];
    assert head == xs[..k] + [xs[k]];
    FilterConcat(xs[..k], [xs[k]], p);
    assert Filter([xs[k]], p) == if p(xs[k]) then [xs[k]] else [];
    assert found + [] == found;
    assert xs[k..][0] == xs[k] && xs[k..][1..] == xs[k + 1..];
  }

  /** A scan is over when the page is full or the elements are exhausted. */
  lemma ScanEnd<T>(xs: seq<T>, p: T -> bool, limit: nat, k: nat, found: seq<T>)
    requires Scanned(xs, p, limit, k, found)
    requires |found| == limit || k == |xs|
    ensures k == Consumed(xs, p, limit)
    ensures k < |xs| && limit > 0 ==> found != [] && found[|found| - 1] == xs[k - 1]
  {
    ConsumedShort(xs, p, limit);
  }

  function Clamp(limit: int): (n: nat)
    ensures 1 <= n <= 1000
    ensures 1 <= limit <= 1000 ==> n == limit
    ensures limit < 1 ==> n == 1
    ensures limit > 1000 ==> n == 1000
  {
    if limit < 1 then 1 else if limit > 1000 then 1000 else limit
  }
}

module SessionReader {
  import opened Seqs
  import opened Paging

  datatype Stored<T> = Stored(seqNo: int, record: T)

  datatype Page<T> = Page(flows: seq<Stored<T>>, next: Option<int>)

  /** The `flows` table in `seq` order. */
  predicate Ascending<T>(rows: seq<Stored<T>>) {
    && (forall i :: 0 <= i < |rows| ==> rows[i].seqNo > 0)
    && (forall i, j :: 0 <= i < j < |rows| ==> rows[i].seqNo < rows[j].seqNo)
  }

  /** How many rows lie at or before the cursor. */
  function Skip<T>(rows: seq<Stored<T>>, after: int): (k: nat)
    ensures k <= |rows|
  {
    First(rows, (r: Stored<T>) => r.seqNo > after)
  }

  /** `WHERE seq > after ORDER BY seq`. */
  function After<T>(rows: seq<Stored<T>>, after: int): seq<Stored<T>> {
    rows[Skip(rows, after)..]
  }

  /** Selecting after the `k`th row of the table. */
  lemma SkipIs<T>(rows: seq<Stored<T>>, after: int, k: nat)
    requires Ascending(rows) && k <= |rows|
    requires k > 0 ==> rows[k - 1].seqNo <= after
    requires k < |rows| ==> rows[k].seqNo > after
    ensures Skip(rows, after) == k
  {
  }

  /** Selecting after the `k`th selected row selects what follows it. */
  lemma SelectNext<T>(rows: seq<Stored<T>>, after: int, k: nat)
    requires Ascending(rows) && k <= |After(rows, after)|
    ensures var rest := After(rows, after);
            var next := if k == 0 then after else rest[k - 1].seqNo;
            && Skip(rows, next) == Skip(rows, after) + k
            && After(rows, next) == rest[k..]
            && (k > 0 ==> next > after)
  {
    var s := Skip(rows, after);
    if k > 0 {
      assert After(rows, after)[k - 1] == rows[s + k - 1];
      assert rows[s].seqNo <= rows[s + k - 1].seqNo;
      SkipIs(rows, rows[s + k - 1].seqNo, s + k);
    }
  }

  /** A page: the first `limit` matches after the cursor, and a cursor on the last
      row read when rows remain. */
  function PageOf<T>(rows: seq<Stored<T>>, p: Stored<T> -> bool, limit: nat, after: int): Page<T>
    requires limit > 0
  {
    var rest := After(rows, after);
    var n := Consumed(rest, p, limit);
    Page(Filter(rest[..n], p),
         if 0 < n < |rest| then Some(rest[n - 1].seqNo) else None)
  }

  lemma AfterIs<T>(rows: seq<Stored<T>>, p: Stored<T> -> bool, after: int)
    requires Ascending(rows)
    ensures Filter(rows, (r: Stored<T>) => r.seqNo > after && p(r)) == Filter(After(rows, after), p)
  {
    var s, past := Skip(rows, after), (r: Stored<T>) => r.seqNo > after && p(r);
    FilterSplit(rows, past, s);
    FilterNone(rows[..s], past);
    assert forall i :: s <= i < |rows| ==> rows[i].seqNo > after;
    FilterSame(rows[s..], past, p);
  }

  /** A page, without its scan: the first matches past the cursor, as many as there are or
      were asked for; and a cursor, on the last of them, exactly if the page is full and
      the table goes on after it. */
  lemma PageIs<T>(rows: seq<Stored<T>>, p: Stored<T> -> bool, limit: nat, after: int)
    requires Ascending(rows) && limit > 0
    ensures var all := Filter(rows, (r: Stored<T>) => r.seqNo > after && p(r));
            var page := PageOf(rows, p, limit, after);
            var last := if page.flows == [] then after else page.flows[|page.flows| - 1].seqNo;
            && page.flows <= all
            && |page.flows| == (if |all| < limit then |all| else limit)
            && page.next == if |page.flows| == limit && last < rows[|rows| - 1].seqNo then Some(last) else None
  {
    var rest := After(rows, after);
    var n := Consumed(rest, p, limit);
    AfterIs(rows, p, after);
    ScanFills(rest, p, limit);
    hide Consumed, Filter, Skip;
    if n > 0 {
      assert rest[n - 1] == rows[|rows| - |rest| + n - 1];
    }
  }

  /** One SELECT: at most `n` of the rows after `lastSeq`. */
  method Select<T>(rows: seq<Stored<T>>, lastSeq: int, n: nat, ghost after: int, ghost k: nat)
    returns (batch: seq<Stored<T>>)
    requires Ascending(rows) && k <= |After(rows, after)| && n > 0
    requires lastSeq == if k == 0 then after else After(rows, after)[k - 1].seqNo
    ensures batch <= After(rows, after)[k..]
    ensures batch == [] ==> k == |After(rows, after)|
  {
    SelectNext(rows, after, k);
    var left := After(rows, lastSeq);
    batch := if |left| <= n then left else left[..n];
  }

  /** The batched read gives that page, whatever the batches cut through. */
  method Query<T>(rows: seq<Stored<T>>, p: Stored<T> -> bool, limit: int, cursor: Option<int>) returns (page: Page<T>)
    requires Ascending(rows)
    ensures page == PageOf(rows, p, Clamp(limit), if cursor.Some? then cursor.value else 0)
  {
    var after := if cursor.Some? then cursor.value else 0;
    ghost var rest := After(rows, after);
    ghost var k: nat;
    var matched, lastSeq, more;
    matched, lastSeq, more, k := Scan(rows, p, Clamp(limit), after);
    if !more {
      var left := Select(rows, lastSeq, 1, after, k);
      more := left != [];
    }
    ScanEnd(rest, p, Clamp(limit), k, matched);
    return Page(matched, if more then Some(lastSeq) else None);
  }

  /** The loop over batches: reads until the page is full or the rows run out. */
  method Scan<T>(rows: seq<Stored<T>>, p: Stored<T> -> bool, limit: nat, after: int)
    returns (matched: seq<Stored<T>>, lastSeq: int, more: bool, ghost k: nat)
    requires Ascending(rows) && limit > 0
    ensures var rest := After(rows, after);
            && Scanned(rest, p, limit, k, matched)
            && (|matched| == limit || k == |rest|)
            && lastSeq == (if k == 0 then after else rest[k - 1].seqNo)
            && (more ==> k < |rest|)
            && (k > 0 || !more)
  {
    hide Consumed, Filter, Skip, Ascending;
    ghost var rest := After(rows, after);
    ScanStart(rest, p, limit);
    matched, lastSeq, more, k := [], after, false, 0;
    while |matched| < limit && !more
      invariant Scanned(rest, p, limit, k, matched)
      invariant lastSeq == if k == 0 then after else rest[k - 1].seqNo
      invariant more ==> 0 < k < |rest| && |matched| == limit
      decreases |rest| - k
    {
      var batch := Select(rows, lastSeq, limit * 4, after, k);
      if batch == [] {
        return;
      }
      var read;
      matched, read, more := ReadBatch(batch, p, limit, matched, rest, k);
      k := k + read;
      lastSeq := batch[read - 1].seqNo;
    }
  }

  /** One batch of rows, stopping before the row that would over-fill the page. */
  method ReadBatch<T>(batch: seq<Stored<T>>, p: Stored<T> -> bool, limit: nat, found: seq<Stored<T>>,
                      ghost rest: seq<Stored<T>>, ghost k: nat)
    returns (matched: seq<Stored<T>>, read: nat, more: bool)
    requires k <= |rest| && batch <= rest[k..] && batch != []
    requires Scanned(rest, p, limit, k, found) && |found| < limit
    ensures 0 < read <= |batch| && Scanned(rest, p, limit, k + read, matched)
    ensures if more then read < |batch| && |matched| == limit else read == |batch|
  {
    matched, read, more := found, 0, false;
    while read < |batch|
      invariant 0 <= read <= |batch| && Scanned(rest, p, limit, k + read, matched)
      invariant read == 0 ==> |matched| < limit
    {
      if |matched| >= limit {
        more := true;
        return;
      }
      assert batch[read] == rest[k..][read];
      ScanStep(rest, p, limit, k + read, matched);
      if p(batch[read]) {
        matched := matched + [batch[read]];
      }
      read := read + 1;
    }
  }

  /** Following cursors from `after` to the end, each page at any limit the client likes. */
  function Follow<T>(rows: seq<Stored<T>>, p: Stored<T> -> bool, limitAt: int -> int, after: int): seq<Stored<T>>
    requires Ascending(rows)
    decreases |rows| - Skip(rows, after)
  {
    var page := PageOf(rows, p, Clamp(limitAt(after)), after);
    if page.next.None? then page.flows
    else
      PageProgress(rows, p, Clamp(limitAt(after)), after);
      page.flows + Follow(rows, p, limitAt, page.next.value)
  }

  /** A page with a cursor is full, its cursor lies ahead, and fewer rows remain. */
  lemma PageProgress<T>(rows: seq<Stored<T>>, p: Stored<T> -> bool, limit: nat, after: int)
    requires Ascending(rows) && limit > 0
    ensures var page := PageOf(rows, p, limit, after);
            page.next.Some? ==>
              && |page.flows| == limit
              && page.next.value > after
              && Skip(rows, page.next.value) > Skip(rows, after)
  {
    var rest := After(rows, after);
    var n := Consumed(rest, p, limit);
    ConsumedShort(rest, p, limit);
    SelectNext(rows, after, n);
  }

  /** Following the cursors visits every matching flow exactly once, in order. */
  lemma {:induction false} FollowVisitsAll<T>(rows: seq<Stored<T>>, p: Stored<T> -> bool, limitAt: int -> int, after: int)
    requires Ascending(rows)
    ensures Follow(rows, p, limitAt, after) == Filter(After(rows, after), p)
    decreases |rows| - Skip(rows, after)
  {
    var rest := After(rows, after);
    var limit := Clamp(limitAt(after));
    var n := Consumed(rest, p, limit);
    ConsumedShort(rest, p, limit);
    FilterSplit(rest, p, n);
    if 0 < n < |rest| {
      SelectNext(rows, after, n);
      FollowVisitsAll(rows, p, limitAt, rest[n - 1].seqNo);
    } else {
      assert n == |rest|;
      assert rest[n..] == [];
    }
  }

  lemma FollowFromStart<T>(rows: seq<Stored<T>>, p: Stored<T> -> bool, limitAt: int -> int)
    requires Ascending(rows)
    ensures Follow(rows, p, limitAt, 0) == Filter(rows, p)
  {
    SkipIs(rows, 0, 0);
    FollowVisitsAll(rows, p, limitAt, 0);
  }
}

module RingReader {
  import opened Seqs
  import opened Paging

  datatype Held<T> = Held(id: string, record: T)

  datatype Page<T> = Page(flows: seq<Held<T>>, next: Option<string>)

  predicate DistinctIds<T>(records: seq<Held<T>>) {
    forall i, j :: 0 <= i < j < |records| ==> records[i].id != records[j].id
  }

  /** Where a page starts: past the cursor's record, or at the top when the
      cursor is absent or its record is gone. */
  function Start<T>(newest: seq<Held<T>>, cursor: Option<string>): (k: nat)
    ensures k <= |newest|
  {
    if cursor.None? then 0
    else
      var i := First(newest, (h: Held<T>) => h.id == cursor.value);
      if i < |newest| then i + 1 else 0
  }

  function PageOf<T>(newest: seq<Held<T>>, p: Held<T> -> bool, limit: nat, cursor: Option<string>): Page<T>
    requires limit > 0
  {
    var rest := newest[Start(newest, cursor)..];
    var n := Consumed(rest, p, limit);
    Page(Filter(rest[..n], p), if 0 < n < |rest| then Some(rest[n - 1].id) else None)
  }

  /** Where a page starts: right past the record the cursor names, or at the top. */
  lemma StartIs<T>(newest: seq<Held<T>>, cursor: Option<string>)
    requires DistinctIds(newest)
    ensures forall i :: 0 <= i < |newest| && cursor == Some(newest[i].id) ==> Start(newest, cursor) == i + 1
    ensures (forall i :: 0 <= i < |newest| ==> cursor != Some(newest[i].id)) ==> Start(newest, cursor) == 0
  {
  }

  /** A page, without its scan: of what follows the cursor, the first matches, as many as
      there are or were asked for; and a cursor, on the last of them, exactly if the page is
      full and the ring goes on after it. */
  lemma PageIs<T>(newest: seq<Held<T>>, p: Held<T> -> bool, limit: nat, cursor: Option<string>)
    requires DistinctIds(newest) && limit > 0
    ensures var rest := newest[Start(newest, cursor)..];
            var all := Filter(rest, p);
            var page := PageOf(newest, p, limit, cursor);
            && page.flows <= all
            && |page.flows| == (if |all| < limit then |all| else limit)
            && page.next ==
               if |page.flows| == limit && page.flows[limit - 1].id != newest[|newest| - 1].id
               then Some(page.flows[limit - 1].id) else None
  {
    var rest := newest[Start(newest, cursor)..];
    var n := Consumed(rest, p, limit);
    ScanFills(rest, p, limit);
    hide Consumed, Filter, Start;
    if n > 0 {
      assert rest[n - 1] == newest[|newest| - |rest| + n - 1];
    }
  }

  function Reversed<T>(xs: seq<T>): (r: seq<T>)
    ensures |r| == |xs|
    ensures forall i :: 0 <= i < |xs| ==> r[i] == xs[|xs| - 1 - i]
  {
    seq(|xs|, i requires 0 <= i < |xs| => xs[|xs| - 1 - i])
  }

  /** The search for the cursor's record. */
  method FindStart<T>(newest: seq<Held<T>>, cursor: string) returns (start: nat)
    ensures start == Start(newest, Some(cursor))
  {
    var same := (h: Held<T>) => h.id == cursor;
    for i := 0 to |newest|
      invariant forall k :: 0 <= k < i ==> !same(newest[k])
    {
      if newest[i].id == cursor {
        FirstIs(newest, same, i);
        return i + 1;
      }
    }
    FirstIs(newest, same, |newest|);
    return 0;
  }

  /** The scan of one page from `start`. */
  method ScanPage<T>(newest: seq<Held<T>>, p: Held<T> -> bool, limit: nat, start: nat)
    returns (matched: seq<Held<T>>, index: nat)
    requires start <= |newest|
    ensures start <= index <= |newest|
    ensures Scanned(newest[start..], p, limit, index - start, matched)
    ensures |matched| == limit || index == |newest|
  {
    ghost var rest := newest[start..];
    ScanStart(rest, p, limit);
    matched, index := [], start;
    while index < |newest| && |matched| < limit
      invariant start <= index <= |newest|
      invariant Scanned(rest, p, limit, index - start, matched)
    {
      assert newest[index] == rest[index - start];
      ScanStep(rest, p, limit, index - start, matched);
      if p(newest[index]) {
        matched := matched + [newest[index]];
      }
      index := index + 1;
    }
  }

  /** The loop over the reversed ring gives that page. */
  method Query<T>(records: seq<Held<T>>, p: Held<T> -> bool, limit: int, cursor: Option<string>) returns (page: Page<T>)
    ensures page == PageOf(Reversed(records), p, Clamp(limit), cursor)
  {
    hide Consumed, Filter;
    var newest := Reversed(records);
    var start := 0;
    if cursor.Some? {
      start := FindStart(newest, cursor.value);
    }
    var matched, index := ScanPage(newest, p, Clamp(limit), start);
    ScanEnd(newest[start..], p, Clamp(limit), index - start, matched);
    var more := index < |newest|;
    return Page(matched, if more && matched != [] then Some(matched[|matched| - 1].id) else None);
  }

  /** A page whose last record read is the `n`th resumes right after it. */
  lemma StartAfter<T>(newest: seq<Held<T>>, s: nat, n: nat)
    requires DistinctIds(newest) && 0 < n && s + n <= |newest|
    ensures newest[s..][n - 1] == newest[s + n - 1]
    ensures Start(newest, Some(newest[s..][n - 1].id)) == s + n
    ensures newest[s..][n..] == newest[s + n..]
  {
  }

  /** Following cursors to the end over an unchanged ring. */
  function Follow<T>(newest: seq<Held<T>>, p: Held<T> -> bool, limitAt: Option<string> -> int, cursor: Option<string>): seq<Held<T>>
    requires DistinctIds(newest)
    decreases |newest| - Start(newest, cursor)
  {
    var page := PageOf(newest, p, Clamp(limitAt(cursor)), cursor);
    if page.next.None? then page.flows
    else
      PageProgress(newest, p, Clamp(limitAt(cursor)), cursor);
      page.flows + Follow(newest, p, limitAt, page.next)
  }

  lemma PageProgress<T>(newest: seq<Held<T>>, p: Held<T> -> bool, limit: nat, cursor: Option<string>)
    requires DistinctIds(newest) && limit > 0
    ensures var page := PageOf(newest, p, limit, cursor);
            page.next.Some? ==>
              && |page.flows| == limit
              && Start(newest, page.next) > Start(newest, cursor)
  {
    var s := Start(newest, cursor);
    var rest := newest[s..];
    var n := Consumed(rest, p, limit);
    ConsumedShort(rest, p, limit);
    if 0 < n < |rest| {
      StartAfter(newest, s, n);
    }
  }

  /** Following the cursors visits every matching flow past the first cursor
      exactly once, newest first. */
  lemma {:induction false} FollowVisitsAll<T>(newest: seq<Held<T>>, p: Held<T> -> bool, limitAt: Option<string> -> int, cursor: Option<string>)
    requires DistinctIds(newest)
    ensures Follow(newest, p, limitAt, cursor) == Filter(newest[Start(newest, cursor)..], p)
    decreases |newest| - Start(newest, cursor)
  {
    hide Consumed, Filter, Start, DistinctIds;
    var s := Start(newest, cursor);
    var rest := newest[s..];
    var limit := Clamp(limitAt(cursor));
    var n := Consumed(rest, p, limit);
    var page := PageOf(newest, p, limit, cursor);
    ConsumedShort(rest, p, limit);
    FilterSplit(rest, p, n);
    if 0 < n < |rest| {
      StartAfter(newest, s, n);
      FollowVisitsAll(newest, p, limitAt, page.next);
      assert Follow(newest, p, limitAt, page.next) == Filter(rest[n..], p);
    } else {
      assert rest[n..] == [];
    }
  }
}
