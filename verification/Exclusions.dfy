/** The web app's exclusion-list arithmetic (web/src/lib/exclusions.ts). */
module WebExclusions {
  import opened Seqs
  import opened Text
  import opened Globs

  datatype Source = Default | User | Profile

  datatype Entry = Entry(pattern: string, comment: string, source: Source)

  /** Trimmed, lower-cased, trailing root dots dropped. */
  function NormalizeHost(host: string): string {
    StripDots(ToLower(Trim(host)))
  }

  /** A host name with white space around it and root dots behind it is that name, lower-cased. */
  lemma NormalizeIs(a: string, core: string, dots: string, b: string)
    requires AllSpace(a) && AllSpace(b) && (forall i :: 0 <= i < |dots| ==> dots[i] == '.')
    requires core != "" && Trimmed(core) && core[|core| - 1] != '.'
    ensures NormalizeHost(a + (core + dots) + b) == ToLower(core)
  {
    hide Trim, StripDots;
    var m := core + dots;
    assert m[|m| - 1] == if dots == "" then core[|core| - 1] else dots[|dots| - 1];
    TrimOf(a, m, b);
    LowerDots(core, dots);
    StripDotsOf(ToLower(core), dots);
  }

  lemma LowerDots(core: string, dots: string)
    requires forall i :: 0 <= i < |dots| ==> dots[i] == '.'
    ensures ToLower(core + dots) == ToLower(core) + dots
  {
  }

  lemma {:induction false} StripDotsOf(s: string, dots: string)
    requires (forall i :: 0 <= i < |dots| ==> dots[i] == '.') && s != "" && s[|s| - 1] != '.'
    ensures StripDots(s + dots) == s
  {
    if dots == "" {
      assert s + dots == s;
    } else {
      assert (s + dots)[..|s + dots| - 1] == s + dots[..|dots| - 1];
      StripDotsOf(s, dots[..|dots| - 1]);
    }
  }

  /** The pattern text the matcher works on. */
  function PatternText(pattern: string): string {
    ToLower(Trim(pattern))
  }

  /** Whether one entry already covers an already normalized host. The glob test
      normalizes its argument a second time, as the code does. */
  predicate Covers(e: Entry, target: string) {
    && Trim(e.pattern) != ""
    && (PatternText(e.pattern) == target || ScanAll(PatternText(e.pattern), NormalizeHost(target)))
  }

  /** The position of the first entry covering `host`; the length when none does. */
  function FindIndex(entries: seq<Entry>, host: string): (i: nat)
    ensures i <= |entries|
  {
    var target := NormalizeHost(host);
    if target == "" then |entries| else First(entries, CoveredBy(target))
  }

  function CoveredBy(target: string): Entry -> bool {
    (e: Entry) => Covers(e, target)
  }

  method FindExclusion(entries: seq<Entry>, host: string) returns (r: Option<Entry>)
    ensures r == if FindIndex(entries, host) < |entries| then Some(entries[FindIndex(entries, host)]) else None
  {
    var target := NormalizeHost(host);
    if target == "" {
      return None;
    }
    var covers := CoveredBy(target);
    for i := 0 to |entries|
      invariant forall k :: 0 <= k < i ==> !covers(entries[k])
    {
      var pattern := Trim(entries[i].pattern);
      if pattern != "" {
        TrimFixed(pattern);
        TrimIsTrimmed(entries[i].pattern);
        var found := ToLower(pattern) == target;
        if !found {
          found := Match(PatternText(pattern), NormalizeHost(target));
        }
        if found {
          FirstIs(entries, covers, i);
          return Some(entries[i]);
        }
      }
    }
    FirstIs(entries, covers, |entries|);
    return None;
  }

  datatype Outcome = Added(entries: seq<Entry>, entry: Entry) | Already(entries: seq<Entry>, entry: Entry)

  function AppendHost(entries: seq<Entry>, host: string, surface: string): Outcome {
    var i := FindIndex(entries, host);
    if i < |entries| then Already(entries, entries[i])
    else
      var target := NormalizeHost(host);
      var entry := Entry(target, "added from the " + surface + " (" + target + ")", User);
      Added(entries + [entry], entry)
  }

  /** Nothing already in the list moves, changes or goes away, and an entry is
      added only when no entry covers the host. */
  lemma AppendKeepsTheList(entries: seq<Entry>, host: string, surface: string)
    ensures var out := AppendHost(entries, host, surface);
            && entries <= out.entries
            && |out.entries| <= |entries| + 1
            && out.entry in out.entries
            && (out.Already? ==> out.entries == entries && Covers(out.entry, NormalizeHost(host)))
            && (out.Added? ==>
                  && out.entries == entries + [out.entry]
                  && out.entry.pattern == NormalizeHost(host) && out.entry.source == User
                  && (NormalizeHost(host) != "" ==>
                        forall e :: e in entries ==> !Covers(e, NormalizeHost(host))))
  {
  }

  /** Whether an entry made from this host is recognized when the host comes back:
      what is left after normalizing must, once trimmed, be non-empty and not end
      in a dot. Only hosts such as `a. .` or `...` fail it. */
  predicate Recognizable(host: string) {
    var core := Trim(NormalizeHost(host));
    core != "" && core[|core| - 1] != '.'
  }

  lemma NormalizedIsLower(host: string)
    ensures ToLower(NormalizeHost(host)) == NormalizeHost(host)
    ensures ToLower(Trim(NormalizeHost(host))) == Trim(NormalizeHost(host))
    ensures NormalizeHost(host) != "" ==> !IsSpace(NormalizeHost(host)[0])
  {
    var t := ToLower(Trim(host));
    StripDotsShape(t);
    TrimIsTrimmed(host);
    var n := NormalizeHost(host);
    assert n == t[..|n|];
    assert forall i :: 0 <= i < |n| ==> n[i] == LowerChar(Trim(host)[i]);
    assert ToLower(n) == n;
    assert TrimLeft(n) == n;
    TrimRightKeepsHead(n);
    var c := Trim(n);
    assert c == n[..|c|];
    assert ToLower(c) == c;
  }

  /** Does the entry `AppendHost` would add cover the host it was added for? */
  lemma SelfCover(host: string, comment: string)
    requires NormalizeHost(host) != ""
    ensures Covers(Entry(NormalizeHost(host), comment, User), NormalizeHost(host)) <==> Recognizable(host)
  {
    hide Scan, StripDots, TrimRight;
    var t := NormalizeHost(host);
    var core := Trim(t);
    NormalizedIsLower(host);
    StripDotsShape(ToLower(Trim(host)));
    TrimIsTrimmed(t);
    assert TrimLeft(t) == t;
    TrimRightKeepsHead(t);
    TrimFixed(core);
    assert PatternText(t) == core;
    var again := NormalizeHost(t);
    assert again == StripDots(core);
    StripDotsShape(core);
    if Recognizable(host) {
      assert again == core;
      ScanReflexive(core, core, 0);
    } else {
      assert |again| < |core| && core[..|again|] == again;
      ScanReflexive(core, again, 0);
      assert core[|again|] == '.';
      assert core != t;
    }
  }

  /** Adding the same host twice answers `already` the second time exactly when
      the first call did or the host is recognizable. */
  lemma SecondAppend(entries: seq<Entry>, host: string, surface: string)
    ensures var one := AppendHost(entries, host, surface);
            var two := AppendHost(one.entries, host, surface);
            two.Already? <==> one.Already? || Recognizable(host)
  {
    var one := AppendHost(entries, host, surface);
    var t := NormalizeHost(host);
    if one.Added? && t != "" {
      SelfCover(host, one.entry.comment);
      var covers := CoveredBy(t);
      assert forall k :: 0 <= k < |entries| ==> one.entries[k] == entries[k];
      FirstIs(one.entries, covers, if Recognizable(host) then |entries| else |entries| + 1);
    } else if one.Added? {
      assert Trim(t) == "";
    }
  }

  /** A host that is added again every time it is clicked. */
  lemma UnrecognizableWitness(surface: string)
    ensures !Recognizable("a. .")
    ensures var one := AppendHost([], "a. .", surface);
            AppendHost(one.entries, "a. .", surface).Added?
  {
    assert Trim("a. .") == "a. .";
    assert ToLower("a. .") == "a. .";
    assert NormalizeHost("a. .") == "a. " by {
      assert StripDots("a. .") == StripDots("a. ");
    }
    assert Trim("a. ") == "a." by {
      assert TrimRight("a. ") == TrimRight("a.");
    }
    SecondAppend([], "a. .", surface);
  }
}

/** The daemon's exclusion list (daemon/src/pporlock/engine/exclusions.py). */
module DaemonExclusions {
  import opened Seqs
  import opened Text
  import opened Globs
  import opened WebExclusions

  /** What the list takes from Python's library: which texts are IP networks or
      addresses, which addresses a network holds, and how a pattern with a `[`
      in it matches. Every theorem holds for any such functions. */
  datatype Library = Library(
    isNetwork: string -> bool,
    isAddress: string -> bool,
    holds: (string, string) -> bool,
    classMatch: (string, string) -> bool)

  datatype Decision = NotExcluded | Excluded(entry: Entry)

  predicate FnMatch(lib: Library, pattern: string, host: string) {
    if '[' in pattern then lib.classMatch(pattern, host) else Glob(pattern, host)
  }

  predicate SafeChar(c: char) {
    || 'a' <= c <= 'z' || 'A' <= c <= 'Z' || '0' <= c <= '9'
    || c in {'.', '-', '*', '?', '[', ']', '!'}
  }

  /** The host check: safe characters only, bar one final line feed, which the
      regular expression's `$` lets through. */
  predicate HostSafe(host: string) {
    var body := if host != "" && host[|host| - 1] == '\n' then host[..|host| - 1] else host;
    body != "" && AllSafe(body)
  }

  predicate AllSafe(s: string) {
    forall i :: 0 <= i < |s| ==> SafeChar(s[i])
  }

  /** An entry that is a host pattern, and matches. */
  predicate GlobHit(lib: Library, e: Entry, host: string) {
    var pattern := Trim(e.pattern);
    pattern != "" && !lib.isNetwork(pattern) && FnMatch(lib, ToLower(pattern), host)
  }

  /** An entry that is a network, and holds the address. */
  predicate NetHit(lib: Library, e: Entry, address: string) {
    var pattern := Trim(e.pattern);
    pattern != "" && lib.isNetwork(pattern) && lib.holds(pattern, address)
  }

  function NamedBy(lib: Library, host: string): Entry -> bool {
    (e: Entry) => GlobHit(lib, e, host)
  }

  function HeldBy(lib: Library, address: string): Entry -> bool {
    (e: Entry) => NetHit(lib, e, address)
  }

  function Pick(entries: seq<Entry>, p: Entry -> bool): Decision {
    var i := First(entries, p);
    if i < |entries| then Excluded(entries[i]) else NotExcluded
  }

  /** The host the daemon looks up: same normal form as the web app's. */
  function ByName(lib: Library, entries: seq<Entry>, sni: Option<string>): Decision {
    if sni == None || sni.value == "" then NotExcluded
    else
      var host := NormalizeHost(sni.value);
      if !HostSafe(host) then NotExcluded
      else Pick(entries, NamedBy(lib, host))
  }

  function Bare(ip: string): string {
    var t := Trim(ip);
    StripBrackets(t)
  }

  function StripBrackets(s: string): string
    decreases |s|
  {
    if s != "" && s[0] in {'[', ']'} then StripBrackets(s[1..])
    else if s != "" && s[|s| - 1] in {'[', ']'} then StripBrackets(s[..|s| - 1])
    else s
  }

  function ByAddress(lib: Library, entries: seq<Entry>, ip: Option<string>): Decision {
    if ip == None || ip.value == "" || !lib.isAddress(Bare(ip.value)) then NotExcluded
    else Pick(entries, HeldBy(lib, Bare(ip.value)))
  }

  /** The decision, straight from the entries: the first host pattern that
      matches, failing that the first network that holds the address. */
  function Verdict(lib: Library, entries: seq<Entry>, sni: Option<string>, ip: Option<string>): Decision {
    var d := ByName(lib, entries, sni);
    if d.Excluded? then d else ByAddress(lib, entries, ip)
  }

  /** Safe characters, at least one, and perhaps a line feed behind them. */
  ghost predicate LookedUp(host: string) {
    exists body :: body != "" && AllSafe(body) && (host == body || host == body + "\n")
  }

  lemma LookedUpExactly(host: string)
    ensures HostSafe(host) <==> LookedUp(host)
  {
    if HostSafe(host) {
      var body := if host[|host| - 1] == '\n' then host[..|host| - 1] else host;
      assert AllSafe(body) && (host == body || host == body + "\n");
    }
    if LookedUp(host) {
      var body :| body != "" && AllSafe(body) && (host == body || host == body + "\n");
      assert SafeChar(body[|body| - 1]);
      if host == body + "\n" {
        assert host[..|host| - 1] == body;
      }
    }
  }

  /** The entry is a host pattern that matches the looked-up name. */
  ghost predicate NameHit(lib: Library, e: Entry, sni: Option<string>) {
    && sni.Some? && sni.value != ""
    && LookedUp(NormalizeHost(sni.value))
    && Trim(e.pattern) != "" && !lib.isNetwork(Trim(e.pattern))
    && (var pattern := ToLower(Trim(e.pattern));
        if '[' in pattern then lib.classMatch(pattern, NormalizeHost(sni.value))
        else Glob(pattern, NormalizeHost(sni.value)))
  }

  /** The entry is a network that holds the address. */
  predicate AddressHit(lib: Library, e: Entry, ip: Option<string>) {
    && ip.Some? && ip.value != ""
    && lib.isAddress(Bare(ip.value))
    && Trim(e.pattern) != "" && lib.isNetwork(Trim(e.pattern))
    && lib.holds(Trim(e.pattern), Bare(ip.value))
  }

  /** Entry `i` is the first for which `hit` holds. */
  predicate FirstHit(entries: seq<Entry>, hit: Entry -> bool, i: nat) {
    i < |entries| && hit(entries[i]) && forall k :: 0 <= k < i ==> !hit(entries[k])
  }

  predicate NoHit(entries: seq<Entry>, hit: Entry -> bool) {
    forall k :: 0 <= k < |entries| ==> !hit(entries[k])
  }

  /** Every decision: the first entry whose pattern matches the name; where none does, the
      first that holds the address; and nothing only where neither is there. */
  lemma VerdictIs(lib: Library, entries: seq<Entry>, sni: Option<string>, ip: Option<string>)
    ensures var d := Verdict(lib, entries, sni, ip);
            var name, address := (e: Entry) => NameHit(lib, e, sni), (e: Entry) => AddressHit(lib, e, ip);
            && (forall i: nat :: FirstHit(entries, name, i) ==> d == Excluded(entries[i]))
            && (NoHit(entries, name) ==> forall i: nat :: FirstHit(entries, address, i) ==> d == Excluded(entries[i]))
            && (d == NotExcluded <==> NoHit(entries, name) && NoHit(entries, address))
  {
    hide FnMatch, HostSafe, Bare, NormalizeHost;
    var name, address := (e: Entry) => NameHit(lib, e, sni), (e: Entry) => AddressHit(lib, e, ip);
    NameIs(lib, entries, sni);
    AddressIs(lib, entries, ip);
    PickIs(entries, name);
    PickIs(entries, address);
  }

  lemma NameIs(lib: Library, entries: seq<Entry>, sni: Option<string>)
    ensures ByName(lib, entries, sni) == Pick(entries, (e: Entry) => NameHit(lib, e, sni))
  {
    var name := (e: Entry) => NameHit(lib, e, sni);
    if sni.Some? {
      LookedUpExactly(NormalizeHost(sni.value));
    }
    hide HostSafe, LookedUp, NormalizeHost, First;
    if sni.Some? && sni.value != "" && HostSafe(NormalizeHost(sni.value)) {
      SamePick(entries, name, NamedBy(lib, NormalizeHost(sni.value)));
    } else {
      FirstIs(entries, name, |entries|);
    }
  }

  lemma AddressIs(lib: Library, entries: seq<Entry>, ip: Option<string>)
    ensures ByAddress(lib, entries, ip) == Pick(entries, (e: Entry) => AddressHit(lib, e, ip))
  {
    var address := (e: Entry) => AddressHit(lib, e, ip);
    hide Bare, First;
    if ip.Some? && ip.value != "" && lib.isAddress(Bare(ip.value)) {
      SamePick(entries, address, HeldBy(lib, Bare(ip.value)));
    } else {
      FirstIs(entries, address, |entries|);
    }
  }

  lemma SamePick(entries: seq<Entry>, p: Entry -> bool, q: Entry -> bool)
    requires forall k :: 0 <= k < |entries| ==> p(entries[k]) == q(entries[k])
    ensures Pick(entries, p) == Pick(entries, q)
  {
    var i := First(entries, p);
    FirstIs(entries, q, i);
  }

  lemma PickIs(entries: seq<Entry>, p: Entry -> bool)
    ensures forall i: nat :: FirstHit(entries, p, i) ==> Pick(entries, p) == Excluded(entries[i])
    ensures Pick(entries, p) == NotExcluded <==> NoHit(entries, p)
  {
    forall i: nat | FirstHit(entries, p, i)
      ensures Pick(entries, p) == Excluded(entries[i])
    {
      FirstIs(entries, p, i);
    }
  }

  predicate AllBrackets(s: string) {
    forall i :: 0 <= i < |s| ==> s[i] in {'[', ']'}
  }

  /** Nothing at either end that is taken off an address. */
  predicate BareAlready(s: string) {
    s != "" && Trimmed(s) && s[0] !in {'[', ']'} && s[|s| - 1] !in {'[', ']'}
  }

  /** The address inside: white space around it goes, then the brackets. */
  lemma BareIs(a: string, opening: string, core: string, closing: string, b: string)
    requires AllSpace(a) && AllBrackets(opening) && BareAlready(core) && AllBrackets(closing) && AllSpace(b)
    ensures Bare(a + (opening + core + closing) + b) == core
  {
    var m := opening + core + closing;
    assert m[0] == if opening == "" then core[0] else opening[0];
    assert m[|m| - 1] == if closing == "" then core[|core| - 1] else closing[|closing| - 1];
    TrimOf(a, m, b);
    StripOf(opening, core, closing);
  }

  lemma {:induction false} StripOf(opening: string, core: string, closing: string)
    requires AllBrackets(opening) && BareAlready(core) && AllBrackets(closing)
    ensures StripBrackets(opening + core + closing) == core
    decreases |opening| + |closing|
  {
    var m := opening + core + closing;
    if opening != "" {
      assert m[1..] == opening[1..] + core + closing && m[0] == opening[0];
      StripOf(opening[1..], core, closing);
    } else if closing != "" {
      var n := |m| - 1;
      assert m[..n] == opening + core + closing[..|closing| - 1];
      assert m[0] == core[0] && m[n] == closing[|closing| - 1];
      StripOf(opening, core, closing[..|closing| - 1]);
    } else {
      assert m == core;
    }
  }

  /** The two compiled tables. */
  function GlobTable(lib: Library, entries: seq<Entry>): seq<(string, Entry)> {
    if entries == [] then []
    else
      var e := entries[|entries| - 1];
      var before := GlobTable(lib, entries[..|entries| - 1]);
      if Trim(e.pattern) == "" || lib.isNetwork(Trim(e.pattern)) then before
      else before + [(ToLower(Trim(e.pattern)), e)]
  }

  function NetTable(lib: Library, entries: seq<Entry>): seq<(string, Entry)> {
    if entries == [] then []
    else
      var e := entries[|entries| - 1];
      var before := NetTable(lib, entries[..|entries| - 1]);
      if Trim(e.pattern) == "" || !lib.isNetwork(Trim(e.pattern)) then before
      else before + [(Trim(e.pattern), e)]
  }

  function RowNames(lib: Library, host: string): ((string, Entry)) -> bool {
    (row: (string, Entry)) => FnMatch(lib, row.0, host)
  }

  function RowHolds(lib: Library, address: string): ((string, Entry)) -> bool {
    (row: (string, Entry)) => lib.holds(row.0, address)
  }

  /** The entry of the first row that succeeds. */
  function PickRow(table: seq<(string, Entry)>, p: ((string, Entry)) -> bool): Decision {
    var i := First(table, p);
    if i < |table| then Excluded(table[i].1) else NotExcluded
  }

  lemma PickSnoc(entries: seq<Entry>, e: Entry, p: Entry -> bool)
    ensures Pick(entries + [e], p) ==
            if Pick(entries, p).Excluded? then Pick(entries, p) else if p(e) then Excluded(e) else NotExcluded
  {
    FirstOfSnoc(entries, e, p);
    hide First;
  }

  lemma PickRowSnoc(table: seq<(string, Entry)>, row: (string, Entry), p: ((string, Entry)) -> bool)
    ensures PickRow(table + [row], p) ==
            if PickRow(table, p).Excluded? then PickRow(table, p) else if p(row) then Excluded(row.1) else NotExcluded
  {
    FirstOfSnoc(table, row, p);
    hide First;
  }

  /** Looking a host up in the glob table finds the entry the list itself names. */
  lemma {:induction false} GlobTablePicks(lib: Library, entries: seq<Entry>, host: string)
    ensures PickRow(GlobTable(lib, entries), RowNames(lib, host)) == Pick(entries, NamedBy(lib, host))
  {
    if entries == [] {
    } else {
      hide FnMatch, First, Trim, ToLower, Pick, PickRow;
      var init, e := entries[..|entries| - 1], entries[|entries| - 1];
      GlobTablePicks(lib, init, host);
      assert init + [e] == entries;
      PickSnoc(init, e, NamedBy(lib, host));
      PickRowSnoc(GlobTable(lib, init), (ToLower(Trim(e.pattern)), e), RowNames(lib, host));
    }
  }

  lemma {:induction false} NetTablePicks(lib: Library, entries: seq<Entry>, address: string)
    ensures PickRow(NetTable(lib, entries), RowHolds(lib, address)) == Pick(entries, HeldBy(lib, address))
  {
    if entries == [] {
    } else {
      hide First, Trim, Pick, PickRow;
      var init, e := entries[..|entries| - 1], entries[|entries| - 1];
      NetTablePicks(lib, init, address);
      assert init + [e] == entries;
      PickSnoc(init, e, HeldBy(lib, address));
      PickRowSnoc(NetTable(lib, init), (Trim(e.pattern), e), RowHolds(lib, address));
    }
  }

  class ExclusionList {
    const lib: Library
    var entries: seq<Entry>
    var globs: seq<(string, Entry)>
    var networks: seq<(string, Entry)>

    /** The compiled tables are those of the current entries. */
    ghost predicate Valid()
      reads this
    {
      globs == GlobTable(lib, entries) && networks == NetTable(lib, entries)
    }

    constructor (lib: Library, entries: seq<Entry>)
      ensures Valid() && this.lib == lib && this.entries == entries
    {
      this.lib := lib;
      this.entries := entries;
      globs, networks := [], [];
      new;
      Compile();
    }

    method Compile()
      modifies this`globs, this`networks
      ensures Valid()
    {
      globs, networks := [], [];
      for i := 0 to |entries|
        invariant globs == GlobTable(lib, entries[..i])
        invariant networks == NetTable(lib, entries[..i])
      {
        assert entries[..i + 1][..i] == entries[..i];
        var pattern := Trim(entries[i].pattern);
        if pattern != "" {
          if lib.isNetwork(pattern) {
            networks := networks + [(pattern, entries[i])];
          } else {
            globs := globs + [(ToLower(pattern), entries[i])];
          }
        }
      }
      assert entries[..|entries|] == entries;
    }

    /** The first compiled glob that matches the host. */
    method ScanGlobs(host: string) returns (d: Decision)
      requires Valid()
      ensures d == Pick(entries, NamedBy(lib, host))
    {
      hide FnMatch, GlobTable, NetTable, NamedBy, Pick;
      GlobTablePicks(lib, entries, host);
      for i := 0 to |globs|
        invariant forall k :: 0 <= k < i ==> !RowNames(lib, host)(globs[k])
      {
        if FnMatch(lib, globs[i].0, host) {
          FirstIs(globs, RowNames(lib, host), i);
          return Excluded(globs[i].1);
        }
      }
      FirstIs(globs, RowNames(lib, host), |globs|);
      return NotExcluded;
    }

    /** The first compiled network that holds the address. */
    method ScanNetworks(address: string) returns (d: Decision)
      requires Valid()
      ensures d == Pick(entries, HeldBy(lib, address))
    {
      hide GlobTable, NetTable, HeldBy, Pick;
      NetTablePicks(lib, entries, address);
      for i := 0 to |networks|
        invariant forall k :: 0 <= k < i ==> !RowHolds(lib, address)(networks[k])
      {
        if lib.holds(networks[i].0, address) {
          FirstIs(networks, RowHolds(lib, address), i);
          return Excluded(networks[i].1);
        }
      }
      FirstIs(networks, RowHolds(lib, address), |networks|);
      return NotExcluded;
    }

    /** The compiled lookup gives the verdict of the uncompiled list. */
    method Decide(sni: Option<string>, ip: Option<string>) returns (d: Decision)
      requires Valid()
      ensures d == Verdict(lib, entries, sni, ip)
    {
      hide Pick, HostSafe, Bare;
      if sni.Some? && sni.value != "" {
        var host := NormalizeHost(sni.value);
        if HostSafe(host) {
          d := ScanGlobs(host);
          if d.Excluded? {
            return;
          }
        }
      }
      if ip.Some? && ip.value != "" {
        var address := Bare(ip.value);
        if !lib.isAddress(address) {
          return NotExcluded;
        }
        d := ScanNetworks(address);
        return;
      }
      return NotExcluded;
    }

    method Add(entry: Entry) returns (added: bool)
      requires Valid()
      modifies this
      ensures Valid()
      ensures added == !(exists e :: e in old(entries) && e.pattern == entry.pattern)
      ensures entries == if added then old(entries) + [entry] else old(entries)
    {
      if exists e :: e in entries && e.pattern == entry.pattern {
        return false;
      }
      entries := entries + [entry];
      Compile();
      return true;
    }

    method Remove(pattern: string) returns (removed: bool)
      requires Valid()
      modifies this
      ensures Valid()
      ensures entries == Filter(old(entries), (e: Entry) => e.pattern != pattern)
      ensures removed == (exists e :: e in old(entries) && e.pattern == pattern)
    {
      var before := |entries|;
      var keep := (e: Entry) => e.pattern != pattern;
      FilterLength(entries, keep);
      ghost var was := entries;
      entries := Filter(entries, keep);
      if |entries| == before {
        FilterAll(was, keep);
        return false;
      }
      Compile();
      return true;
    }
  }

  // --------------------------------------- the web app against the authority

  /** A name made of letters, digits, dots and hyphens. */
  predicate PlainHost(host: string) {
    host != "" && forall i :: 0 <= i < |host| ==>
      'a' <= host[i] <= 'z' || 'A' <= host[i] <= 'Z' || '0' <= host[i] <= '9' || host[i] in {'.', '-'}
  }

  lemma PlainHostNormal(host: string)
    requires PlainHost(host)
    ensures var t := NormalizeHost(host);
            && NormalizeHost(t) == t
            && (t != "" <==> HostSafe(t))
            && '*' !in t && '[' !in t
  {
    TrimFixed(host);
    var low := ToLower(host);
    StripDotsShape(low);
    var t := NormalizeHost(host);
    assert t == low[..|t|];
    TrimFixed(t);
    assert ToLower(t) == t;
    StripDotsShape(t);
    if t != "" {
      assert t[|t| - 1] != '\n';
      assert forall i :: 0 <= i < |t| ==> SafeChar(t[i]);
    }
  }

  /** A `[` in a pattern that is read literally can only meet a `[` in the host. */
  lemma {:induction false} BracketNeedsBracket(p: string, h: string, i: nat, j: nat)
    requires i <= |p| && j <= |h|
    requires GlobAt(p, h, i, j)
    requires '[' in p[i..]
    ensures '[' in h
    decreases |p| - i
  {
    assert p[i..] == [p[i]] + p[i + 1..];
    if p[i] == '*' {
      var k := RunOf(p, h, i, j);
      BracketNeedsBracket(p, h, i + 1, k);
    } else if p[i] == '[' {
      assert h[j] in h;
    } else {
      BracketNeedsBracket(p, h, i + 1, j + 1);
    }
  }

  /** Where the two sides read an entry differently: a `[` in the pattern is a class to
      the daemon alone, a `*` in the host confuses the web app's loop, and a host that
      normalizing twice changes again is tried in its second form. */
  predicate ReadApart(e: Entry, t: string) {
    '[' in PatternText(e.pattern) || '*' in t || NormalizeHost(t) != t
  }

  /** Everywhere else they agree on a host pattern; and with a `[` in the pattern and
      none in the host the web side says no. */
  lemma EntryAgrees(lib: Library, e: Entry, t: string)
    requires !lib.isNetwork(Trim(e.pattern))
    ensures !ReadApart(e, t) ==> (Covers(e, t) <==> GlobHit(lib, e, t))
    ensures '[' in PatternText(e.pattern) && '[' !in t && NormalizeHost(t) == t ==> !Covers(e, t)
  {
    var p := PatternText(e.pattern);
    if '*' !in t {
      ScanDecides(p, t, 0, 0, -1, 0);
    }
    if p == t {
      ScanReflexive(p, t, 0);
    }
    if '[' in p && ScanAll(p, t) {
      ScanSound(p, t, 0, 0, -1, 0);
      assert p[0..] == p;
      BracketNeedsBracket(p, t, 0, 0);
    }
  }

  /** The daemon looks the host up, and the entry's pattern matches it. */
  predicate DaemonMatches(lib: Library, e: Entry, host: string) {
    HostSafe(host) && GlobHit(lib, e, host)
  }

  /** An index into the list, or its length for none, as a decision. */
  function Found(entries: seq<Entry>, i: nat): Decision {
    if i < |entries| then Excluded(entries[i]) else NotExcluded
  }

  /** The entry the web app finds is the one the daemon acts on (and neither has one, if
      it finds none) exactly when: the daemon looks the host up, or nothing was found;
      the entry is no address or network literal; and of the entries the two sides read
      apart, the daemon matches this one if it is such, and none before it. */
  lemma WebEchoesDaemon(lib: Library, entries: seq<Entry>, host: string)
    ensures var i, t := FindIndex(entries, host), NormalizeHost(host);
            Verdict(lib, entries, Some(host), None) == Found(entries, i) <==>
            if !HostSafe(t) then i == |entries|
            else
              && (i < |entries| ==>
                    && !lib.isNetwork(Trim(entries[i].pattern))
                    && (ReadApart(entries[i], t) ==> DaemonMatches(lib, entries[i], t)))
              && forall k :: 0 <= k < i ==> !(ReadApart(entries[k], t) && DaemonMatches(lib, entries[k], t))
  {
    var t := NormalizeHost(host);
    assert HostSafe(t) ==> t != "";
    EmptyHost(host);
    hide GlobHit, Covers, PatternText, ReadApart, HostSafe, NormalizeHost;
    if HostSafe(t) {
      EntriesRelated(lib, entries, t);
      FirstsAgree(lib, entries, t, First(entries, CoveredBy(t)));
    }
  }

  lemma EmptyHost(host: string)
    ensures host == "" ==> NormalizeHost(host) == ""
  {
  }

  lemma EntriesRelated(lib: Library, entries: seq<Entry>, t: string)
    ensures forall e :: e in entries ==> Related(lib, e, t)
  {
    hide Covers, PatternText, ReadApart, NormalizeHost;
    forall e | e in entries
      ensures Related(lib, e, t)
    {
      if !lib.isNetwork(Trim(e.pattern)) {
        EntryAgrees(lib, e, t);
      }
    }
  }

  /** The two sides' tests of one entry, as `EntryAgrees` relates them. */
  predicate Related(lib: Library, e: Entry, t: string) {
    if lib.isNetwork(Trim(e.pattern)) then !GlobHit(lib, e, t)
    else !ReadApart(e, t) ==> (Covers(e, t) <==> GlobHit(lib, e, t))
  }

  /** So their first successes compare as stated. */
  lemma FirstsAgree(lib: Library, entries: seq<Entry>, t: string, i: nat)
    requires i == First(entries, CoveredBy(t))
    requires forall e :: e in entries ==> Related(lib, e, t)
    ensures Pick(entries, NamedBy(lib, t)) == Found(entries, i) <==>
            && (i < |entries| ==>
                  && !lib.isNetwork(Trim(entries[i].pattern))
                  && (ReadApart(entries[i], t) ==> GlobHit(lib, entries[i], t)))
            && forall k :: 0 <= k < i ==> !(ReadApart(entries[k], t) && GlobHit(lib, entries[k], t))
  {
    hide GlobHit, Covers, PatternText, ReadApart, First;
    var p, j := NamedBy(lib, t), First(entries, NamedBy(lib, t));
    assert j < |entries| ==> p(entries[j]);
    if i < |entries| {
      assert CoveredBy(t)(entries[i]) && Related(lib, entries[i], t);
    }
    if exists k :: 0 <= k < i && ReadApart(entries[k], t) && GlobHit(lib, entries[k], t) {
      var k :| 0 <= k < i && ReadApart(entries[k], t) && GlobHit(lib, entries[k], t);
      assert p(entries[k]) && j <= k;
      assert !CoveredBy(t)(entries[j]);
    } else {
      forall k | 0 <= k < i ensures !p(entries[k]) {
        assert !CoveredBy(t)(entries[k]) && Related(lib, entries[k], t);
      }
      if i == |entries| || p(entries[i]) {
        FirstIs(entries, p, i);
      }
    }
  }

  /** For a host that normalizing settles and that has no `*` or `[`, only an address
      literal or an earlier `[` pattern can come between the two. */
  lemma OrdinaryHostEchoes(lib: Library, entries: seq<Entry>, host: string)
    requires var t := NormalizeHost(host); NormalizeHost(t) == t && '*' !in t && '[' !in t
    ensures var i, t := FindIndex(entries, host), NormalizeHost(host);
            Verdict(lib, entries, Some(host), None) == Found(entries, i) <==>
            if !HostSafe(t) then i == |entries|
            else
              && (i < |entries| ==> !lib.isNetwork(Trim(entries[i].pattern)))
              && forall k :: 0 <= k < i ==>
                   !('[' in PatternText(entries[k].pattern) && DaemonMatches(lib, entries[k], t))
  {
    var i, t := FindIndex(entries, host), NormalizeHost(host);
    WebEchoesDaemon(lib, entries, host);
    hide Covers, HostSafe, GlobHit, PatternText, NormalizeHost;
    if t != "" && i < |entries| && !lib.isNetwork(Trim(entries[i].pattern)) {
      assert CoveredBy(t)(entries[i]);
      EntryAgrees(lib, entries[i], t);
    }
  }

  /** An underscore: the web app matches the host, the daemon does not look it up. */
  lemma UnsafeHostWitness(lib: Library)
    ensures var e := Entry("*.com", "", User);
            && FindIndex([e], "a_b.com") == 0
            && Verdict(lib, [e], Some("a_b.com"), None) == NotExcluded
  {
    var host, e := "a_b.com", Entry("*.com", "", User);
    TrimFixed(host);
    TrimFixed("*.com");
    assert ToLower(host) == host && ToLower("*.com") == "*.com";
    hide Trim, ToLower;
    assert StripDots(host) == host;
    NeverLookedUp(lib, [e], host, 1);
    ScanDecides("*.com", host, 0, 0, -1, 0);
    SuffixMatches(host);
    assert CoveredBy(host)(e);
  }

  lemma NeverLookedUp(lib: Library, entries: seq<Entry>, host: string, i: nat)
    requires NormalizeHost(host) == host && i < |host| - 1 && !SafeChar(host[i])
    ensures Verdict(lib, entries, Some(host), None) == NotExcluded
  {
    hide NormalizeHost, Pick;
    assert host[..|host| - 1][i] == host[i];
  }

  lemma SuffixMatches(host: string)
    requires |host| >= 4 && host[|host| - 4..] == ".com"
    ensures Glob("*.com", host)
  {
    var k := |host| - 4;
    LiteralRest("*.com", host, 1, k);
    assert GlobAt("*.com", host, 1, k);
  }

  /** A tail without wildcards matches itself. */
  lemma {:induction false} LiteralRest(p: string, h: string, i: nat, j: nat)
    requires i <= |p| && j <= |h| && p[i..] == h[j..] && '*' !in p[i..]
    ensures GlobAt(p, h, i, j)
    decreases |p| - i
  {
    if i == |p| {
    } else {
      assert p[i] == p[i..][0] == h[j];
      assert p[i + 1..] == p[i..][1..] && h[j + 1..] == h[j..][1..];
      LiteralRest(p, h, i + 1, j + 1);
    }
  }

  /** A pattern that is an address: the web app matches it as text, while the daemon
      keeps it for addresses and lets a host of that name through. */
  lemma AddressPatternWitness(lib: Library)
    requires lib.isNetwork("10.0.0.1")
    ensures var e := Entry("10.0.0.1", "", User);
            && FindIndex([e], "10.0.0.1") == 0
            && Verdict(lib, [e], Some("10.0.0.1"), None) == NotExcluded
  {
  }
}
