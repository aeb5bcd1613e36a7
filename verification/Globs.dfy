/** The glob language of exclusion patterns and the greedy matcher that decides
    it (web/src/lib/exclusions.ts). */
module Globs {
  import opened Text

  /** The pattern from `i` matches the host from `j`: `*` stands for any run,
      `?` for one character, everything else for itself. */
  predicate GlobAt(p: string, h: string, i: nat, j: nat)
    requires i <= |p| && j <= |h|
    decreases |p| - i
  {
    if i == |p| then j == |h|
    else if p[i] == '*' then
      var rest := i + 1;
      exists k :: j <= k <= |h| && GlobAt(p, h, rest, k)
    else j < |h| && (p[i] == '?' || p[i] == h[j]) && GlobAt(p, h, i + 1, j + 1)
  }

  predicate Glob(p: string, h: string) {
    GlobAt(p, h, 0, 0)
  }

  predicate AllStars(p: string, i: nat)
    requires i <= |p|
  {
    forall k :: i <= k < |p| ==> p[k] == '*'
  }

  /** What the matcher's loop answers from one configuration of its four cursors.
      `star` is the last `*` passed, or -1, and `resume` the host position its
      run currently ends at. */
  function Scan(p: string, h: string, pi: nat, hi: nat, star: int, resume: nat): bool
    requires pi <= |p| && -1 <= star < pi && resume <= hi <= |h|
    decreases |p| - star, |h| - resume, |h| - hi
  {
    if hi == |h| then AllStars(p, pi)
    else if pi < |p| && (p[pi] == '?' || p[pi] == h[hi]) then Scan(p, h, pi + 1, hi + 1, star, resume)
    else if pi < |p| && p[pi] == '*' then Scan(p, h, pi + 1, hi, pi, hi)
    else if star >= 0 then Scan(p, h, star + 1, resume + 1, star, resume + 1)
    else false
  }

  function ScanAll(p: string, h: string): bool {
    Scan(p, h, 0, 0, -1, 0)
  }

  // ------------------------------------------------- facts about the language

  /** Where the run a star takes ends. */
  lemma RunOf(p: string, h: string, i: nat, j: nat) returns (k: nat)
    requires i < |p| && j <= |h| && p[i] == '*'
    requires GlobAt(p, h, i, j)
    ensures j <= k <= |h| && GlobAt(p, h, i + 1, k)
  {
    var rest := i + 1;
    k :| j <= k <= |h| && GlobAt(p, h, rest, k);
  }

  /** A star-free stretch of pattern consumes exactly its own length. */
  lemma {:induction false} StretchConsumes(p: string, h: string, i: nat, j: nat, n: nat)
    requires i + n <= |p| && j <= |h|
    requires forall q :: i <= q < i + n ==> p[q] != '*'
    requires GlobAt(p, h, i, j)
    ensures j + n <= |h| && GlobAt(p, h, i + n, j + n)
    decreases n
  {
    if n == 0 {
    } else {
      assert p[i] != '*';
      StretchConsumes(p, h, i + 1, j + 1, n - 1);
    }
  }

  /** The stretch `p[i..i+n]` lines up, character by character, with the host at `j`. */
  predicate LinesUp(p: string, h: string, i: nat, j: nat, n: nat) {
    && i + n <= |p|
    && j + n <= |h|
    && forall q :: i <= q < i + n ==> p[q] != '*' && (p[q] == '?' || p[q] == h[j + q - i])
  }

  lemma {:induction false} StretchMatches(p: string, h: string, i: nat, j: nat, n: nat)
    requires LinesUp(p, h, i, j, n)
    ensures GlobAt(p, h, i, j) == GlobAt(p, h, i + n, j + n)
    decreases n
  {
    if n == 0 {
    } else {
      assert p[i] != '*' && (p[i] == '?' || p[i] == h[j]);
      StretchMatches(p, h, i + 1, j + 1, n - 1);
    }
  }

  /** At the end of the host only stars can remain. */
  lemma {:induction false} MatchesNothing(p: string, h: string, i: nat)
    requires i <= |p|
    ensures GlobAt(p, h, i, |h|) == AllStars(p, i)
    decreases |p| - i
  {
    if i == |p| {
    } else {
      MatchesNothing(p, h, i + 1);
      if p[i] == '*' {
        assert GlobAt(p, h, i, |h|) == GlobAt(p, h, i + 1, |h|);
      }
    }
  }

  // ------------------------------------------------------ the loop is correct

  /** The cursors' meaning: everything since the last `*` lines up with the host
      from `resume` to `hi`. */
  predicate Cursors(p: string, h: string, pi: nat, hi: nat, star: int, resume: nat) {
    && pi <= |p| && -1 <= star < pi && resume <= hi <= |h|
    && (star >= 0 ==>
          && p[star] == '*'
          && hi - resume == pi - star - 1
          && LinesUp(p, h, star + 1, resume, pi - star - 1))
  }

  /** What is still to be decided in a configuration. */
  predicate Goal(p: string, h: string, pi: nat, hi: nat, star: int, resume: nat)
    requires Cursors(p, h, pi, hi, star, resume)
  {
    if star < 0 then GlobAt(p, h, pi, hi) else GlobAt(p, h, star, resume)
  }

  /** When the host runs out, no longer run of the last star can help. */
  lemma GoalAtEnd(p: string, h: string, pi: nat, star: int, resume: nat)
    requires Cursors(p, h, pi, |h|, star, resume)
    ensures Goal(p, h, pi, |h|, star, resume) == AllStars(p, pi)
  {
    MatchesNothing(p, h, pi);
    if star >= 0 {
      var n := pi - star - 1;
      StretchMatches(p, h, star + 1, resume, n);
      if GlobAt(p, h, star, resume) {
        var k := RunOf(p, h, star, resume);
        StretchConsumes(p, h, star + 1, k, n);
      }
    }
  }

  /** A later star supersedes an earlier one: what the earlier run could still
      take, the later one can take too. */
  lemma LaterStarWins(p: string, h: string, pi: nat, hi: nat, star: int, resume: nat)
    requires Cursors(p, h, pi, hi, star, resume)
    requires pi < |p| && p[pi] == '*'
    ensures Goal(p, h, pi, hi, star, resume) == GlobAt(p, h, pi, hi)
  {
    if star >= 0 {
      var n := pi - star - 1;
      StretchMatches(p, h, star + 1, resume, n);
      if GlobAt(p, h, pi, hi) {
        assert GlobAt(p, h, star, resume);
      }
      if GlobAt(p, h, star, resume) {
        var k := RunOf(p, h, star, resume);
        StretchConsumes(p, h, star + 1, k, n);
        assert star + 1 + n == pi;
        var m := RunOf(p, h, pi, k + n);
        assert GlobAt(p, h, pi, hi);
      }
    }
  }

  /** After a mismatch the last star must take one more character. */
  lemma MismatchBacktracks(p: string, h: string, pi: nat, hi: nat, star: int, resume: nat)
    requires Cursors(p, h, pi, hi, star, resume)
    requires star >= 0 && resume < |h|
    requires !GlobAt(p, h, pi, hi)
    ensures Goal(p, h, pi, hi, star, resume) == GlobAt(p, h, star, resume + 1)
  {
    StretchMatches(p, h, star + 1, resume, pi - star - 1);
    if GlobAt(p, h, star, resume) {
      var k := RunOf(p, h, star, resume);
      assert k != resume;
    }
  }

  /** For a host with no `*` in it, the loop decides its goal from every
      configuration it can reach. */
  lemma {:induction false} ScanDecides(p: string, h: string, pi: nat, hi: nat, star: int, resume: nat)
    requires '*' !in h
    requires Cursors(p, h, pi, hi, star, resume)
    ensures Scan(p, h, pi, hi, star, resume) == Goal(p, h, pi, hi, star, resume)
    decreases |p| - star, |h| - resume, |h| - hi
  {
    if hi == |h| {
      GoalAtEnd(p, h, pi, star, resume);
    } else if pi < |p| && (p[pi] == '?' || p[pi] == h[hi]) {
      assert h[hi] in h;
      ScanDecides(p, h, pi + 1, hi + 1, star, resume);
    } else if pi < |p| && p[pi] == '*' {
      LaterStarWins(p, h, pi, hi, star, resume);
      ScanDecides(p, h, pi + 1, hi, pi, hi);
    } else if star >= 0 {
      MismatchBacktracks(p, h, pi, hi, star, resume);
      ScanDecides(p, h, star + 1, resume + 1, star, resume + 1);
    }
  }

  /** A `true` from the loop is always right, whatever the host contains. */
  lemma {:induction false} ScanSound(p: string, h: string, pi: nat, hi: nat, star: int, resume: nat)
    requires pi <= |p| && -1 <= star < pi && resume <= hi <= |h|
    requires star >= 0 ==> p[star] == '*'
    requires Scan(p, h, pi, hi, star, resume)
    ensures GlobAt(p, h, pi, hi) || (star >= 0 && resume < |h| && GlobAt(p, h, star, resume + 1))
    decreases |p| - star, |h| - resume, |h| - hi
  {
    if hi == |h| {
      MatchesNothing(p, h, pi);
    } else if pi < |p| && (p[pi] == '?' || p[pi] == h[hi]) {
      ScanSound(p, h, pi + 1, hi + 1, star, resume);
    } else if pi < |p| && p[pi] == '*' {
      ScanSound(p, h, pi + 1, hi, pi, hi);
      if !GlobAt(p, h, pi + 1, hi) {
        var k := RunOf(p, h, pi, hi + 1);
      }
    } else {
      ScanSound(p, h, star + 1, resume + 1, star, resume + 1);
      if !GlobAt(p, h, star + 1, resume + 1) {
        var k := RunOf(p, h, star, resume + 2);
      }
    }
  }

  // ------------------------------------- which hosts the loop is complete for

  /** All `?` but for one `*` at `k`, one character longer than the host. */
  function Spoiler(n: nat, k: nat): (p: string)
    requires k < n
    ensures |p| == n + 1
    ensures forall i :: 0 <= i <= n ==> p[i] == (if i == k then '*' else '?')
  {
    seq(n + 1, i => if i == k then '*' else '?')
  }

  lemma {:induction false} SpoilerScans(h: string, k: nat, i: nat)
    requires k < |h| && h[k] == '*' && i <= |h|
    ensures !Scan(Spoiler(|h|, k), h, i, i, -1, 0)
    decreases |h| - i
  {
    if i < |h| {
      SpoilerScans(h, k, i + 1);
    } else {
      assert Spoiler(|h|, k)[|h|] == '?';
    }
  }

  lemma {:induction false} SpoilerGlobs(h: string, k: nat, i: nat)
    requires k < |h| && i <= |h| + 1
    ensures i <= k ==> GlobAt(Spoiler(|h|, k), h, i, i)
    ensures i > k ==> GlobAt(Spoiler(|h|, k), h, i, i - 1)
    decreases |h| + 1 - i
  {
    if i > |h| {
    } else {
      SpoilerGlobs(h, k, i + 1);
    }
  }

  /** The matcher agrees with the glob language on every pattern exactly for the
      hosts that contain no `*`: the literal test comes before the wildcard test,
      so a `*` in the host swallows the pattern's. */
  lemma GlobExactHosts(h: string)
    ensures (forall p: string :: ScanAll(p, h) == Glob(p, h)) <==> '*' !in h
  {
    if '*' !in h {
      forall p: string ensures ScanAll(p, h) == Glob(p, h) {
        ScanDecides(p, h, 0, 0, -1, 0);
      }
    } else {
      var k :| 0 <= k < |h| && h[k] == '*';
      SpoilerScans(h, k, 0);
      SpoilerGlobs(h, k, 0);
      assert ScanAll(Spoiler(|h|, k), h) != Glob(Spoiler(|h|, k), h);
    }
  }

  /** The smallest telling case: `*b` should match `*ab` and the loop says no. */
  lemma StarInHostWitness()
    ensures Glob("*b", "*ab") && !ScanAll("*b", "*ab")
  {
    assert GlobAt("*b", "*ab", 2, 3);
    assert GlobAt("*b", "*ab", 1, 2);
    assert !Scan("*b", "*ab", 1, 1, -1, 0);
  }

  /** A host the pattern begins with is read literally, character by character; what
      is left of the pattern must be stars. */
  lemma {:induction false} ScanReflexive(p: string, h: string, i: nat)
    requires i <= |h| <= |p| && p[..|h|] == h
    ensures Scan(p, h, i, i, -1, 0) == AllStars(p, |h|)
    decreases |h| - i
  {
    if i == |h| {
    } else {
      assert p[i] == p[..|h|][i];
      ScanReflexive(p, h, i + 1);
    }
  }

  // ------------------------------------------------------------- the matcher

  /** The matcher itself, on text that is already trimmed and lower-cased. */
  method Match(p: string, h: string) returns (r: bool)
    ensures r == ScanAll(p, h)
    ensures r ==> Glob(p, h)
    ensures '*' !in h ==> (r <==> Glob(p, h))
  {
    if '*' !in h {
      ScanDecides(p, h, 0, 0, -1, 0);
    } else if ScanAll(p, h) {
      ScanSound(p, h, 0, 0, -1, 0);
    }
    var pi, hi, star, resume := 0, 0, -1, 0;
    while hi < |h|
      invariant 0 <= pi <= |p| && -1 <= star < pi && 0 <= resume <= hi <= |h|
      invariant Scan(p, h, pi, hi, star, resume) == ScanAll(p, h)
      decreases |p| - star, |h| - resume, |h| - hi
    {
      if pi < |p| && (p[pi] == '?' || p[pi] == h[hi]) {
        pi, hi := pi + 1, hi + 1;
      } else if pi < |p| && p[pi] == '*' {
        star, pi, resume := pi, pi + 1, hi;
      } else if star >= 0 {
        pi, resume := star + 1, resume + 1;
        hi := resume;
      } else {
        return false;
      }
    }
    ghost var end := pi;
    while pi < |p| && p[pi] == '*'
      invariant end <= pi <= |p|
      invariant forall k :: end <= k < pi ==> p[k] == '*'
    {
      pi := pi + 1;
    }
    return pi == |p|;
  }
}
