/** The backwards log reader (daemon/src/pporlock/cli/logs.py). */
module LogTail {
  import opened Seqs
  import opened Utf8

  /** Where the line splitter breaks a text. */
  predicate IsBreak(c: char) {
    || '\n' <= c <= '\r'
    || '\U{1C}' <= c <= '\U{1E}'
    || c == '\U{85}' || c == '\U{2028}' || c == '\U{2029}'
  }

  function FirstBreak(t: string): (i: nat)
    ensures i <= |t|
    ensures i < |t| ==> IsBreak(t[i])
    ensures forall k :: 0 <= k < i ==> !IsBreak(t[k])
  {
    if t == "" || IsBreak(t[0]) then 0 else 1 + FirstBreak(t[1..])
  }

  /** A carriage return and the line feed after it are one break. */
  function BreakLength(t: string, i: nat): nat
    requires i < |t|
  {
    if t[i] == '\r' && i + 1 < |t| && t[i + 1] == '\n' then 2 else 1
  }

  /** The lines of a text, without their breaks; nothing follows a final break. */
  function SplitLines(t: string): seq<string>
    decreases |t|
  {
    if t == "" then []
    else
      var i := FirstBreak(t);
      if i == |t| then [t] else [t[..i]] + SplitLines(t[i + BreakLength(t, i)..])
  }

  function Last<T>(xs: seq<T>, n: nat): seq<T> {
    if |xs| <= n then xs else xs[|xs| - n..]
  }

  function CountLf(data: seq<Byte>): nat {
    if data == [] then 0 else (if data[0] == LF then 1 else 0) + CountLf(data[1..])
  }

  /** A line and its break come off the front of a text. */
  lemma SplitLine(line: string, brk: string, rest: string)
    requires forall k :: 0 <= k < |line| ==> !IsBreak(line[k])
    requires brk == "\r\n" || (|brk| == 1 && IsBreak(brk[0]) && !(brk == "\r" && rest != "" && rest[0] == '\n'))
    ensures SplitLines(line + brk + rest) == [line] + SplitLines(rest)
  {
    var t, i := line + brk + rest, |line|;
    assert forall k :: 0 <= k < i ==> t[k] == line[k];
    assert t[i] == brk[0];
    assert FirstBreak(t) == i by {
      hide IsBreak, FirstBreak, SplitLines;
      assert t[i] == brk[0];
    }
    assert t[..i] == line;
    assert t[i + BreakLength(t, i)..] == rest;
  }

  lemma SplitNothing()
    ensures SplitLines("") == []
  {
  }

  lemma LineOfBoth(line: string, brk: string, rest: string, y: string)
    requires forall k :: 0 <= k < |line| ==> !IsBreak(line[k])
    requires brk == "\r\n" || (|brk| == 1 && IsBreak(brk[0]) && !(brk == "\r" && (rest == "" || rest[0] == '\n')))
    ensures SplitLines(line + brk + rest + "\n" + y) == [line] + SplitLines(rest + "\n" + y)
    ensures SplitLines(line + brk + rest + "\n") == [line] + SplitLines(rest + "\n")
  {
    hide SplitLines, IsBreak;
    assert line + brk + rest + "\n" + y == line + brk + (rest + "\n" + y);
    assert line + brk + rest + "\n" == line + brk + (rest + "\n");
    SplitLine(line, brk, rest + "\n" + y);
    SplitLine(line, brk, rest + "\n");
  }

  /** A text without breaks, but perhaps a final carriage return, is one line. */
  lemma OneLine(line: string, brk: string, y: string)
    requires forall k :: 0 <= k < |line| ==> !IsBreak(line[k])
    requires brk == "\n" || brk == "\r\n"
    ensures SplitLines(line + brk + y) == SplitLines(line + brk) + SplitLines(y)
  {
    assert IsBreak('\n');
    hide SplitLines, IsBreak;
    SplitLine(line, brk, y);
    SplitLine(line, brk, "");
    assert line + brk + "" == line + brk;
    SplitNothing();
    assert [line] + [] == [line];
  }

  /** A text with a break that is not just a final carriage return has a first line. */
  lemma FirstLine(x: string) returns (line: string, brk: string, rest: string)
    requires FirstBreak(x) < |x| && x[FirstBreak(x)..] != "\r"
    ensures x == line + brk + rest && |rest| < |x|
    ensures forall k :: 0 <= k < |line| ==> !IsBreak(line[k])
    ensures brk == "\r\n" || (|brk| == 1 && IsBreak(brk[0]) && !(brk == "\r" && (rest == "" || rest[0] == '\n')))
  {
    hide FirstBreak, IsBreak;
    var i := FirstBreak(x);
    var n := BreakLength(x, i);
    line, brk, rest := x[..i], x[i..i + n], x[i + n..];
  }

  /** Lines can be split separately on either side of a line feed. */
  lemma {:induction false} SplitAtLf(x: string, y: string)
    ensures SplitLines(x + "\n" + y) == SplitLines(x + "\n") + SplitLines(y)
    decreases |x|
  {
    hide SplitLines, IsBreak, FirstBreak;
    var i := FirstBreak(x);
    if i == |x| {
      OneLine(x, "\n", y);
    } else if x[i..] == "\r" {
      OneLine(x[..i], "\r\n", y);
      assert x == x[..i] + "\r";
      assert x + "\n" == x[..i] + "\r\n";
    } else {
      var line, brk, rest := FirstLine(x);
      LineOfBoth(line, brk, rest, y);
      SplitAtLf(rest, y);
    }
  }

  lemma LfEndsALine(x: string)
    ensures |SplitLines(x + "\n")| >= 1
  {
  }

  lemma SomeLf(data: seq<Byte>) returns (j: nat)
    requires CountLf(data) > 0
    ensures j < |data| && data[j] == LF && CountLf(data[j + 1..]) == CountLf(data) - 1
  {
    if data[0] == LF {
      j := 0;
    } else {
      var k := SomeLf(data[1..]);
      j := k + 1;
      assert data[1..][k + 1..] == data[j + 1..];
    }
  }

  lemma CountLfTells(b: Byte, data: seq<Byte>)
    ensures CountLf([]) == 0 && CountLf([b] + data) == CountLf(data) + if b == LF then 1 else 0
  {
    assert ([b] + data)[1..] == data;
  }

  /** A text has at least as many lines as its bytes have line feeds. */
  lemma {:induction false} LinesAtLeast(data: seq<Byte>)
    ensures |SplitLines(DecodeLossy(data))| >= CountLf(data)
    decreases |data|
  {
    if CountLf(data) > 0 {
      var j := SomeLf(data);
      var a, r := data[..j], data[j + 1..];
      LinesAtLeast(r);
      assert data == a + [LF] + r;
      LossyAtLf(a, r);
      SplitAtLf(DecodeLossy(a), DecodeLossy(r));
      LfEndsALine(DecodeLossy(a));
    }
  }

  /** A suffix of a file holding more than `n` line feeds ends in the same `n` lines as
      the file, even where it starts inside a character. */
  lemma SuffixHasLastLines(before: seq<Byte>, data: seq<Byte>, n: nat)
    requires CountLf(data) > n
    ensures Last(SplitLines(DecodeLossy(data)), n) == Last(SplitLines(DecodeLossy(before + data)), n)
  {
    hide SplitLines, DecodeLossy, CountLf;
    var j := SomeLf(data);
    var a, r := data[..j], data[j + 1..];
    assert data == a + [LF] + r;
    assert before + data == (before + a) + [LF] + r;
    LossyAtLf(a, r);
    LossyAtLf(before + a, r);
    var tail := SplitLines(DecodeLossy(r));
    LinesAtLeast(r);
    SplitAtLf(DecodeLossy(a), DecodeLossy(r));
    SplitAtLf(DecodeLossy(before + a), DecodeLossy(r));
    LastOfAppended(SplitLines(DecodeLossy(a) + "\n"), tail, n);
    LastOfAppended(SplitLines(DecodeLossy(before + a) + "\n"), tail, n);
  }

  lemma LastOfAppended<T>(xs: seq<T>, tail: seq<T>, n: nat)
    requires |tail| >= n
    ensures Last(xs + tail, n) == Last(tail, n)
  {
  }

  /** Reading backwards block by block gives the last lines of the whole file, for
      every block size. A file that is missing, or cannot be read, has none. No more than
      needed is read: with `held` bytes in hand, and so before the last block of the `read`
      bytes, there were not yet line feeds enough. */
  method Tail(file: Option<seq<Byte>>, lines: int, block: nat, readable: bool)
    returns (r: seq<string>, ghost read: nat, ghost held: nat)
    requires block >= 1
    ensures file.Some? && lines >= 1 && readable ==>
              && held <= read <= |file.value| && read <= held + block
              && (read > 0 ==> CountLf(file.value[|file.value| - held..]) <= lines)
    ensures file.None? || lines < 1 || !readable ==> r == []
    ensures file.Some? && lines >= 1 && readable ==>
              var all := SplitLines(DecodeLossy(file.value));
              && |r| == (if |all| < lines then |all| else lines)
              && r == all[|all| - |r|..]
  {
    hide SplitLines, DecodeLossy, CountLf, Last;
    read, held := 0, 0;
    if file.None? || lines < 1 || !readable {
      return [], 0, 0;
    }
    var content := file.value;
    var end, data: seq<Byte> := |content|, [];
    while end > 0 && CountLf(data) <= lines
      invariant 0 <= end <= |content| && data == content[end..]
      invariant held <= |content| - end == read <= held + block
      invariant read > 0 ==> CountLf(content[|content| - held..]) <= lines
    {
      held := |content| - end;
      var step := if block < end then block else end;
      end := end - step;
      assert content[end..] == content[end..end + step] + content[end + step..];
      data := content[end..end + step] + data;
      read := read + step;
    }
    BlocksEnough(content, end, lines);
    r := Last(SplitLines(DecodeLossy(data)), lines);
    LastAre(SplitLines(DecodeLossy(content)), lines);
  }

  lemma LastAre<T>(xs: seq<T>, n: nat)
    ensures var r := Last(xs, n); |r| == (if |xs| < n then |xs| else n) && r == xs[|xs| - |r|..]
  {
  }

  /** What is in hand when the loop stops has the last lines of the whole file. */
  lemma BlocksEnough(content: seq<Byte>, end: nat, n: nat)
    requires end <= |content| && (end == 0 || CountLf(content[end..]) > n)
    ensures Last(SplitLines(DecodeLossy(content[end..])), n) == Last(SplitLines(DecodeLossy(content)), n)
  {
    hide SplitLines, DecodeLossy, CountLf, Last;
    assert content == content[..end] + content[end..];
    if end > 0 {
      SuffixHasLastLines(content[..end], content[end..], n);
    } else {
      assert content[end..] == content;
    }
  }
}

/** Rotation of a log into numbered generations (daemon/src/pporlock/cli/logs.py). */
module LogRotation {
  import opened Seqs
  import opened Utf8

  type Files = map<int, seq<Byte>>

  function Gen(files: Files, i: int): Option<seq<Byte>> {
    if i in files then Some(files[i]) else None
  }

  function Unlink(files: Files, i: int): (r: Files)
    ensures forall j :: Gen(r, j) == if j == i then None else Gen(files, j)
  {
    files - {i}
  }

  function Write(files: Files, i: int, content: seq<Byte>): (r: Files)
    ensures forall j :: Gen(r, j) == if j == i then Some(content) else Gen(files, j)
  {
    files[i := content]
  }

  /** Generation `i` renamed over the next. */
  function Move(files: Files, i: int): (r: Files)
    requires i in files
    ensures forall j :: Gen(r, j) == if j == i then None else if j == i + 1 then Gen(files, i) else Gen(files, j)
  {
    Unlink(Write(files, i + 1, files[i]), i)
  }

  /** Generations 1 to `retain`, newest first; `None` where a file is missing. */
  function Generations(files: Files, retain: nat): (r: seq<Option<seq<Byte>>>)
    ensures |r| == retain
    ensures forall i :: 0 <= i < retain ==> r[i] == Gen(files, i + 1)
  {
    seq(retain, i => Gen(files, i + 1))
  }

  /** Files the rotation has no business with: names outside 1 to `retain`. */
  ghost predicate OthersSame(before: Files, after: Files, retain: int) {
    forall i :: !(1 <= i <= retain) ==> Gen(after, i) == Gen(before, i)
  }

  /** Everything except the oldest generation is still somewhere: where it was, or one
      generation on. */
  ghost predicate NothingElseLost(before: Files, after: Files, retain: int) {
    forall i :: 1 <= i < retain && i in before ==>
      Gen(after, i) == Some(before[i]) || Gen(after, i + 1) == Some(before[i])
  }

  /** What generation `i` holds when the descending shift has reached `k`. */
  function Shifted(before: Files, retain: int, k: int, i: int): Option<seq<Byte>> {
    if i < k || i > retain then Gen(before, i) else if i == k then None else Gen(before, i - 1)
  }

  ghost predicate ShiftedTo(before: Files, after: Files, retain: int, k: int) {
    forall i :: Gen(after, i) == Shifted(before, retain, k, i)
  }

  lemma ShiftStarts(files: Files, retain: int)
    ensures ShiftedTo(files, Unlink(files, retain), retain, retain)
    ensures retain !in files ==> ShiftedTo(files, files, retain, retain)
  {
  }

  lemma ShiftGoesOn(before: Files, files: Files, retain: int, k: int)
    requires ShiftedTo(before, files, retain, k + 1) && k < retain
    ensures k in files ==> ShiftedTo(before, Move(files, k), retain, k)
    ensures k !in files ==> ShiftedTo(before, files, retain, k)
  {
    hide Move;
    assert Gen(files, k) == Gen(before, k);
    var r := if k in files then Move(files, k) else files;
    forall i ensures Gen(r, i) == Shifted(before, retain, k, i) {
      assert Gen(files, i) == Shifted(before, retain, k + 1, i);
    }
  }

  lemma ShiftLosesNothing(before: Files, files: Files, retain: int, k: int)
    requires ShiftedTo(before, files, retain, k) && 1 <= k <= retain
    ensures OthersSame(before, files, retain) && NothingElseLost(before, files, retain)
  {
  }

  lemma UnchangedLosesNothing(files: Files, retain: int)
    ensures OthersSame(files, files, retain) && NothingElseLost(files, files, retain)
  {
  }

  lemma ShiftEnds(before: Files, files: Files, retain: nat, content: seq<Byte>)
    requires ShiftedTo(before, files, retain, 1) && retain >= 1
    ensures var r := Write(files, 1, content);
            && OthersSame(before, r, retain) && NothingElseLost(before, r, retain)
            && Generations(r, retain) == [Some(content)] + Generations(before, retain)[..retain - 1]
  {
  }

  /** One rotation: the numbered copies and the live log before, both after, and
      whether it reported success. */
  datatype Attempt = Attempt(
    before: Files, live: Option<seq<Byte>>, after: Files, left: Option<seq<Byte>>, rotated: bool)

  /** Whether a log is to be rotated at all. */
  predicate Due(live: Option<seq<Byte>>, maxBytes: int, retain: int) {
    live.Some? && |live.value| >= maxBytes && retain >= 1
  }

  /** A success puts the live contents first, every generation one further and the
      oldest away; anything else leaves the live log as it was. Either way nothing but
      the oldest is lost, and nothing happens at all unless a rotation is due. */
  ghost predicate Outcome(a: Attempt, maxBytes: int, retain: int) {
    && (a.rotated ==>
          && Due(a.live, maxBytes, retain) && a.left == Some([])
          && Generations(a.after, retain) == [a.live] + Generations(a.before, retain)[..retain - 1])
    && (!a.rotated ==> a.left == a.live)
    && (!Due(a.live, maxBytes, retain) ==> a.after == a.before)
    && OthersSame(a.before, a.after, retain)
    && NothingElseLost(a.before, a.after, retain)
  }

  /** The log and its numbered copies. `calls` is how many more operations the file
      system will carry out before it starts to fail. */
  class LogFile {
    var live: Option<seq<Byte>>
    var files: Files
    var calls: nat

    constructor (live: Option<seq<Byte>>, files: Files, calls: nat)
      ensures this.live == live && this.files == files && this.calls == calls
    {
      this.live, this.files, this.calls := live, files, calls;
    }

    /** One file-system operation: whether it succeeds. */
    method Call() returns (ok: bool)
      modifies this`calls
      ensures ok == (old(calls) > 0)
      ensures calls == if old(calls) > 0 then old(calls) - 1 else 0
    {
      ok := calls > 0;
      if ok {
        calls := calls - 1;
      }
    }

    /** Rotation past the threshold. A rotation that completes puts the live contents
        first, every generation one further and the oldest away. One that fails
        part-way leaves the live log as it was and loses nothing but the oldest;
        `torn` is what a failed write leaves behind in the first copy. */
    method Rotate(maxBytes: int, retain: int, torn: Option<seq<Byte>>) returns (rotated: bool)
      modifies this
      ensures Outcome(Attempt(old(files), old(live), files, live, rotated), maxBytes, retain)
      ensures Due(old(live), maxBytes, retain) && old(calls) >= retain + 3 ==> rotated
    {
      if live.None? || |live.value| < maxBytes || retain < 1 {
        UnchangedLosesNothing(files, retain);
        return false;
      }
      hide OthersSame, NothingElseLost, ShiftedTo, Write, Generations;
      var k, ok := MakeRoom(retain);
      if files == old(files) {
        UnchangedLosesNothing(files, retain);
      } else {
        ShiftLosesNothing(old(files), files, retain, k);
      }
      if !ok {
        return false;
      }
      ok := Call();
      if !ok {
        if torn.Some? {
          ShiftEnds(old(files), files, retain, torn.value);
          files := Write(files, 1, torn.value);
        }
        return false;
      }
      ShiftEnds(old(files), files, retain, live.value);
      files := Write(files, 1, live.value);
      ok := Call();
      if !ok {
        return false;
      }
      ok := Call();
      if !ok {
        return false;
      }
      live := Some([]);
      return true;
    }

    /** The oldest generation unlinked and the others moved one on, from the highest
        down; `k` is how far the shift got. */
    method MakeRoom(retain: int) returns (k: int, ok: bool)
      requires retain >= 1
      modifies `files, `calls
      ensures 1 <= k <= retain && (ok ==> k == 1)
      ensures ShiftedTo(old(files), files, retain, k) || (!ok && files == old(files))
      ensures old(calls) >= retain ==> ok
      ensures calls + retain >= old(calls)
    {
      hide ShiftedTo, Unlink, Move;
      k := retain;
      ShiftStarts(files, retain);
      if retain in files {
        ok := Call();
        if !ok {
          return;
        }
        files := Unlink(files, retain);
      }
      var index := retain - 1;
      while index > 0
        invariant 0 <= index < retain && k == index + 1
        invariant ShiftedTo(old(files), files, retain, k)
        invariant calls + (retain - index) >= old(calls)
      {
        ShiftGoesOn(old(files), files, retain, index);
        if index in files {
          ok := Call();
          if !ok {
            return;
          }
          files := Move(files, index);
        }
        index := index - 1;
        k := index + 1;
      }
      ok := true;
    }
  }

  // ------------------------------------------------------------- over many rotations

  predicate Successive(attempts: seq<Attempt>) {
    forall i :: 0 < i < |attempts| ==> attempts[i].before == attempts[i - 1].after
  }

  ghost predicate AllOutcomes(attempts: seq<Attempt>, maxBytes: int, retain: int) {
    Successive(attempts) && forall i :: 0 <= i < |attempts| ==> Outcome(attempts[i], maxBytes, retain)
  }

  function Successes(attempts: seq<Attempt>): nat {
    if attempts == [] then 0
    else Successes(attempts[..|attempts| - 1]) + if attempts[|attempts| - 1].rotated then 1 else 0
  }

  lemma SuccessesTell(attempts: seq<Attempt>, a: Attempt)
    ensures Successes([]) == 0 && Successes(attempts + [a]) == Successes(attempts) + if a.rotated then 1 else 0
  {
    assert (attempts + [a])[..|attempts|] == attempts;
  }

  /** Where one attempt leaves the contents of generation `q`. */
  lemma OneAttempt(a: Attempt, maxBytes: int, retain: int, q: nat) returns (next: nat)
    requires Outcome(a, maxBytes, retain) && 1 <= q < retain && q in a.before
    ensures Gen(a.after, next) == Some(a.before[q])
    ensures if a.rotated then next == q + 1 else q <= next <= q + 1
  {
    if a.rotated {
      next := q + 1;
      assert Generations(a.after, retain)[q] == Generations(a.before, retain)[q - 1];
    } else {
      next := if Gen(a.after, q) == Some(a.before[q]) then q else q + 1;
    }
  }

  /** Through any attempts, failed ones included, contents move on by one for each
      success and by at most one for each failure, and are not lost before the last
      generation. */
  lemma {:induction false} ContentsTravel(attempts: seq<Attempt>, maxBytes: int, retain: int, p: nat) returns (q: nat)
    requires attempts != [] && AllOutcomes(attempts, maxBytes, retain)
    requires 1 <= p && p + |attempts| <= retain && p in attempts[0].before
    ensures p + Successes(attempts) <= q <= p + |attempts|
    ensures Gen(attempts[|attempts| - 1].after, q) == Some(attempts[0].before[p])
  {
    var n := |attempts| - 1;
    if n == 0 {
      q := OneAttempt(attempts[0], maxBytes, retain, p);
      assert attempts[..0] == [] && Successes([]) == 0;
    } else {
      var was := ContentsTravel(attempts[..n], maxBytes, retain, p);
      assert attempts[n].before == attempts[n - 1].after;
      q := OneAttempt(attempts[n], maxBytes, retain, was);
    }
  }

  /** What one rotation saved is still there after up to `retain - 1` more attempts. */
  lemma RotatedIsKept(attempts: seq<Attempt>, maxBytes: int, retain: int) returns (q: nat)
    requires 1 < |attempts| <= retain && AllOutcomes(attempts, maxBytes, retain) && attempts[0].rotated
    ensures 1 + Successes(attempts[1..]) <= q <= |attempts|
    ensures Gen(attempts[|attempts| - 1].after, q) == attempts[0].live
  {
    var first, rest := attempts[0], attempts[1..];
    assert Generations(first.after, retain)[0] == first.live;
    assert rest[0].before == first.after;
    q := ContentsTravel(rest, maxBytes, retain, 1);
  }

  /** The live contents of each attempt, the latest first. */
  function LatestFirst(attempts: seq<Attempt>): seq<Option<seq<Byte>>> {
    if attempts == [] then []
    else [attempts[|attempts| - 1].live] + LatestFirst(attempts[..|attempts| - 1])
  }

  lemma OneInFront<T>(x: T, before: seq<T>, first: seq<T>)
    requires first != []
    ensures ([x] + before + first)[..|first|] == [x] + (before + first)[..|first|][..|first| - 1]
  {
  }

  /** When every attempt succeeds the generations are the contents rotated away, newest
      first, and behind them what was there before. */
  lemma {:induction false} GenerationsHoldLatest(attempts: seq<Attempt>, maxBytes: int, retain: nat)
    requires attempts != [] && AllOutcomes(attempts, maxBytes, retain)
    requires forall i :: 0 <= i < |attempts| ==> attempts[i].rotated
    ensures Generations(attempts[|attempts| - 1].after, retain) ==
            (LatestFirst(attempts) + Generations(attempts[0].before, retain))[..retain]
  {
    hide Generations, OthersSame, NothingElseLost;
    var n := |attempts| - 1;
    var last, first := attempts[n], Generations(attempts[0].before, retain);
    assert Outcome(last, maxBytes, retain);
    if n == 0 {
      assert LatestFirst(attempts[..0]) == [];
      OneInFront(last.live, [], first);
      assert [] + first == first && first[..retain] == first;
    } else {
      var before := LatestFirst(attempts[..n]);
      GenerationsHoldLatest(attempts[..n], maxBytes, retain);
      assert last.before == attempts[n - 1].after;
      OneInFront(last.live, before, first);
    }
  }
}
