/** A URL's query rebuilt from masked pairs (daemon/src/pporlock/capture/redact.py).
    Queries and fragments are section 3.4 and 3.5 of RFC 3986. */
module RedactUrl {
  import opened Seqs
  import opened Text
  import opened Masks
  import Utf8

  type Byte = Utf8.Byte

  // ------------------------------------------------------------------- escaping

  predicate Unreserved(b: Byte) {
    || 65 <= b <= 90 || 97 <= b <= 122 || 48 <= b <= 57
    || b == 45 || b == 46 || b == 95 || b == 126
  }

  function UpperHex(n: nat): char
    requires n < 16
  {
    if n < 10 then ('0' as int + n) as char else ('A' as int + n - 10) as char
  }

  function HexValue(c: char): (v: int)
    ensures -1 <= v < 16
  {
    if '0' <= c <= '9' then c as int - '0' as int
    else if 'A' <= c <= 'F' then c as int - 'A' as int + 10
    else if 'a' <= c <= 'f' then c as int - 'a' as int + 10
    else -1
  }

  function QuoteByte(b: Byte): string {
    if b == 32 then "+"
    else if Unreserved(b) then [b as char]
    else ['%', UpperHex(b / 16), UpperHex(b % 16)]
  }

  function QuoteBytes(s: seq<Byte>): string {
    if s == [] then "" else QuoteByte(s[0]) + QuoteBytes(s[1..])
  }

  function QuotePlus(text: string): string {
    QuoteBytes(Utf8.Encode(text))
  }

  /** Undoing the escapes: `+` is a space, `%` and two digits a byte. */
  function UnquoteBytes(t: string): Option<seq<Byte>>
    decreases |t|
  {
    if t == "" then Some([])
    else if t[0] == '%' then
      if |t| < 3 || HexValue(t[1]) < 0 || HexValue(t[2]) < 0 then None
      else
        match UnquoteBytes(t[3..])
        case None => None
        case Some(rest) => Some([HexValue(t[1]) * 16 + HexValue(t[2])] + rest)
    else if t[0] as int >= 256 then None
    else
      match UnquoteBytes(t[1..])
      case None => None
      case Some(rest) => Some([if t[0] == '+' then 32 else t[0] as int] + rest)
  }

  function UnquotePlus(t: string): Option<string> {
    match UnquoteBytes(t)
    case None => None
    case Some(b) => Utf8.Decode(b)
  }

  /** A character escaping can produce. */
  predicate Plain(c: char) {
    c == '+' || c == '%' || (c as int < 128 && Unreserved(c as int))
  }

  lemma HexByte(b: Byte)
    ensures HexValue(UpperHex(b / 16)) * 16 + HexValue(UpperHex(b % 16)) == b
    ensures HexValue(UpperHex(b / 16)) >= 0 && HexValue(UpperHex(b % 16)) >= 0
    ensures Plain(UpperHex(b / 16)) && Plain(UpperHex(b % 16))
  {
  }

  lemma QuoteByteBack(b: Byte, rest: string, s: seq<Byte>)
    requires UnquoteBytes(rest) == Some(s)
    ensures UnquoteBytes(QuoteByte(b) + rest) == Some([b] + s)
    ensures forall i :: 0 <= i < |QuoteByte(b)| ==> Plain(QuoteByte(b)[i])
  {
    var q := QuoteByte(b);
    HexByte(b);
    assert (q + rest)[|q|..] == rest;
  }

  lemma {:induction false} QuoteBytesBack(s: seq<Byte>)
    ensures UnquoteBytes(QuoteBytes(s)) == Some(s)
    ensures forall i :: 0 <= i < |QuoteBytes(s)| ==> Plain(QuoteBytes(s)[i])
  {
    if s == [] {
    } else {
      hide QuoteByte, Plain;
      QuoteBytesBack(s[1..]);
      QuoteByteBack(s[0], QuoteBytes(s[1..]), s[1..]);
      assert s == [s[0]] + s[1..];
    }
  }

  /** Escaped text reads back, and none of the characters that cut a query up, nor
      the mark of a masked value, ever appear in it. */
  lemma QuoteRoundTrip(text: string)
    ensures UnquotePlus(QuotePlus(text)) == Some(text)
    ensures Lacks(QuotePlus(text), '&') && Lacks(QuotePlus(text), '=')
    ensures Lacks(QuotePlus(text), '#') && Lacks(QuotePlus(text), '?')
    ensures !IsMasked(QuotePlus(text))
  {
    hide IsMasked, MaskForm, QuoteBytes, UnquoteBytes, Utf8.Encode, Utf8.Decode;
    QuoteBytesBack(Utf8.Encode(text));
    Utf8.DecodeEncode(text);
    var q := QuotePlus(text);
    assert forall i :: 0 <= i < |q| ==> Plain(q[i]);
    assert !Plain('\U{00AB}');
    if IsMasked(q) {
      MaskedLacks(q);
    }
  }

  /** Letters, digits, `-`, `.`, `_` and `~` are written as they are, and a space as `+`. */
  lemma {:induction false} QuoteKeeps(text: string)
    requires forall i :: 0 <= i < |text| ==> text[i] == ' ' || (text[i] as int < 128 && Unreserved(text[i] as int))
    ensures |QuotePlus(text)| == |text|
    ensures forall i :: 0 <= i < |text| ==> QuotePlus(text)[i] == if text[i] == ' ' then '+' else text[i]
  {
    if text == "" {
    } else {
      QuoteKeeps(text[1..]);
      var b := text[0] as int;
      assert Utf8.BytesOf(text[0]) == [b];
      assert Utf8.Encode(text) == [b] + Utf8.Encode(text[1..]);
    }
  }

  // ------------------------------------------------------------------ rebuilding

  lemma FindIn(s: string, c: char, a: string, rest: string)
    requires s == a + rest
    requires Lacks(a, c) && (rest == "" || rest[0] == c)
    ensures Find(s, c) == |a| && s[..|a|] == a && s[|a|..] == rest
  {
    hide Find;
    var i := Find(s, c);
    assert forall k :: 0 <= k < |a| ==> s[k] == a[k];
    if rest != "" {
      assert s[|a|] == rest[0];
    }
  }

  /** A mask goes through unescaped. */
  function ValueText(value: string): string {
    if IsMasked(value) then value else QuotePlus(value)
  }

  /** One pair as query text. */
  function PairText(name: string, value: string): string {
    QuotePlus(name) + "=" + ValueText(value)
  }

  function PairTexts(query: seq<(string, string)>): (r: seq<string>)
    ensures |r| == |query|
    ensures forall i :: 0 <= i < |query| ==> r[i] == PairText(query[i].0, query[i].1)
  {
    seq(|query|, i requires 0 <= i < |query| => PairText(query[i].0, query[i].1))
  }

  function QueryText(query: seq<(string, string)>): string {
    JoinWith(PairTexts(query), "&")
  }

  function RebuildUrl(url: string, query: seq<(string, string)>): string {
    var q := Find(url, '?');
    if q == |url| then url
    else
      var remainder := url[q + 1..];
      url[..q] + "?" + QueryText(query) + remainder[Find(remainder, '#')..]
  }

  // ------------------------------------------------------------- reading it back

  /** A URL cut at the first `#`, then at the first `?` before it. The fragment
      keeps its `#`. */
  datatype Parts = Parts(base: string, query: Option<string>, fragment: string)

  function Split(url: string): Parts {
    var h := Find(url, '#');
    var body := url[..h];
    var q := Find(body, '?');
    if q == |body| then Parts(body, None, url[h..]) else Parts(body[..q], Some(body[q + 1..]), url[h..])
  }

  /** Query text cut on `&` and the first `=`; masks are taken as they stand and
      everything else unescaped. */
  function ReadPair(text: string): (Option<string>, Option<string>) {
    var e := Find(text, '=');
    (UnquotePlus(text[..e]), ReadValue(if e < |text| then text[e + 1..] else ""))
  }

  function ReadValue(text: string): Option<string> {
    if IsMasked(text) then Some(text) else UnquotePlus(text)
  }

  function ReadQuery(text: string): (r: seq<(Option<string>, Option<string>)>) {
    if text == "" then []
    else
      var parts := SplitOn(text, '&');
      seq(|parts|, i requires 0 <= i < |parts| => ReadPair(parts[i]))
  }

  lemma ValueReads(value: string)
    ensures ReadValue(ValueText(value)) == Some(value)
    ensures Lacks(ValueText(value), '&') && Lacks(ValueText(value), '#')
  {
    hide IsMasked, QuotePlus, UnquotePlus;
    QuoteRoundTrip(value);
    if IsMasked(value) {
      MaskedLacks(value);
    }
  }

  lemma PairTextReads(name: string, value: string)
    ensures var t := PairText(name, value);
            && ReadPair(t) == (Some(name), Some(value))
            && Lacks(t, '&') && Lacks(t, '#') && t != ""
  {
    hide Find, QuotePlus, UnquotePlus, ReadValue, ValueText;
    var n, v, t := QuotePlus(name), ValueText(value), PairText(name, value);
    QuoteRoundTrip(name);
    ValueReads(value);
    assert t == n + ("=" + v);
    FindIn(t, '=', n, "=" + v);
    assert t[|n| + 1..] == v;
  }

  /** The rebuilt query text holds exactly the given pairs. */
  lemma QueryReads(query: seq<(string, string)>)
    ensures var r := ReadQuery(QueryText(query));
            && |r| == |query|
            && (forall i :: 0 <= i < |query| ==> r[i] == (Some(query[i].0), Some(query[i].1)))
            && Lacks(QueryText(query), '#')
  {
    var parts := PairTexts(query);
    forall i | 0 <= i < |query|
      ensures ReadPair(parts[i]) == (Some(query[i].0), Some(query[i].1))
      ensures Lacks(parts[i], '&') && Lacks(parts[i], '#') && parts[i] != ""
    {
      PairTextReads(query[i].0, query[i].1);
    }
    JoinLacks(parts, '#');
    if query != [] {
      SplitJoined(parts, '&');
      JoinNotEmpty(parts);
    }
  }

  /** A mask stands in the query as it is, to be seen as one. */
  lemma MasksVerbatim(query: seq<(string, string)>, i: nat)
    requires i < |query| && IsMasked(query[i].1)
    ensures var parts := SplitOn(QueryText(query), '&');
            |parts| == |query| && parts[i] == QuotePlus(query[i].0) + "=" + query[i].1
  {
    var parts := PairTexts(query);
    forall k | 0 <= k < |query|
      ensures Lacks(parts[k], '&')
    {
      PairTextReads(query[k].0, query[k].1);
    }
    SplitJoined(parts, '&');
  }

  lemma {:induction false} JoinLacks(parts: seq<string>, c: char)
    requires c != '&' && forall i :: 0 <= i < |parts| ==> Lacks(parts[i], c)
    ensures Lacks(JoinWith(parts, "&"), c)
  {
    if |parts| <= 1 {
    } else {
      JoinLacks(parts[1..], c);
    }
  }

  lemma JoinNotEmpty(parts: seq<string>)
    requires parts != [] && parts[0] != ""
    ensures JoinWith(parts, "&") != ""
  {
  }

  // ------------------------------------------------------------- what is kept

  /** A fragment, with its `#`, or nothing. */
  predicate Fragment(s: string) {
    s == "" || s[0] == '#'
  }

  /** A URL with a query is a base, a `?`, the query and the fragment. */
  lemma WithQuery(url: string)
    requires Split(url).query.Some?
    ensures var p := Split(url);
            && url == p.base + "?" + p.query.value + p.fragment
            && Lacks(p.base, '?') && Lacks(p.base, '#') && Lacks(p.query.value, '#') && Fragment(p.fragment)
  {
    hide Find;
    var h := Find(url, '#');
    var body := url[..h];
    var q := Find(body, '?');
    assert body == body[..q] + "?" + body[q + 1..];
    assert url == body + url[h..];
  }

  /** Rebuilding replaces what stands between the first `?` and the first `#` after it. */
  lemma RebuiltFrom(front: string, text: string, rest: string, query: seq<(string, string)>)
    requires Lacks(front, '?') && Lacks(text, '#') && Fragment(rest)
    ensures RebuildUrl(front + "?" + text + rest, query) == front + "?" + QueryText(query) + rest
  {
    hide Find, QueryText;
    var url := front + "?" + text + rest;
    assert url == front + ("?" + text + rest);
    FindIn(url, '?', front, "?" + text + rest);
    var remainder := url[|front| + 1..];
    assert remainder == text + rest;
    FindIn(remainder, '#', text, rest);
  }

  /** The URL cut where the code cuts it: at the first `?`, and at the first `#` after it. */
  predicate CutAs(url: string, base: string, text: string, rest: string) {
    url == base + "?" + text + rest && Lacks(base, '?') && Lacks(text, '#') && Fragment(rest)
  }

  /** Query text that reads as exactly these pairs. */
  predicate ReadsAs(text: string, query: seq<(string, string)>) {
    var r := ReadQuery(text);
    && |r| == |query|
    && forall i :: 0 <= i < |query| ==> r[i] == (Some(query[i].0), Some(query[i].1))
  }

  /** `after` is `before` with the pairs in place of its query, if it has a place for one. */
  ghost predicate CarriesQuery(before: string, after: string, query: seq<(string, string)>) {
    if Lacks(before, '?') then after == before
    else
      exists base, text, now, rest ::
        CutAs(before, base, text, rest) && CutAs(after, base, now, rest) && ReadsAs(now, query)
  }

  /** Every URL, even one with its `?` after its `#`. */
  lemma RebuiltCarries(url: string, query: seq<(string, string)>)
    ensures CarriesQuery(url, RebuildUrl(url, query), query)
  {
    hide QueryText, ReadQuery, RebuildUrl, CutAs, ReadsAs;
    if Lacks(url, '?') {
      NothingToRebuild(url, query);
    } else {
      var base, text, rest := CutUrl(url);
      RebuiltCut(url, base, text, rest, query);
    }
  }

  lemma NothingToRebuild(url: string, query: seq<(string, string)>)
    requires Lacks(url, '?')
    ensures RebuildUrl(url, query) == url
  {
  }

  lemma RebuiltCut(url: string, base: string, text: string, rest: string, query: seq<(string, string)>)
    requires CutAs(url, base, text, rest)
    ensures CutAs(RebuildUrl(url, query), base, QueryText(query), rest) && ReadsAs(QueryText(query), query)
  {
    hide QueryText, ReadQuery, Lacks, RebuildUrl;
    RebuiltFrom(base, text, rest, query);
    QueryReads(query);
  }

  lemma CutUrl(url: string) returns (base: string, text: string, rest: string)
    requires !Lacks(url, '?')
    ensures CutAs(url, base, text, rest)
  {
    FindIfAny(url, '?');
    CutAtFirst(url, '?');
    hide Find, Lacks;
    var q := Find(url, '?');
    var remainder := url[q + 1..];
    var g := Find(remainder, '#');
    FindLacks(remainder, '#');
    base, text, rest := url[..q], remainder[..g], remainder[g..];
    Rejoined(base, remainder, g);
  }

  lemma FindIfAny(s: string, c: char)
    requires !Lacks(s, c)
    ensures Find(s, c) < |s|
  {
  }

  lemma Rejoined(base: string, remainder: string, g: nat)
    requires g <= |remainder|
    ensures base + "?" + remainder == base + "?" + remainder[..g] + remainder[g..]
  {
    assert remainder == remainder[..g] + remainder[g..];
  }

  /** A URL of those parts splits into them. */
  lemma SplitIs(base: string, text: string, fragment: string)
    requires Lacks(base, '?') && Lacks(base, '#') && Lacks(text, '#') && Fragment(fragment)
    ensures Split(base + "?" + text + fragment) == Parts(base, Some(text), fragment)
  {
    hide Find;
    var url, body := base + "?" + text + fragment, base + "?" + text;
    assert url == body + fragment;
    FindIn(url, '#', body, fragment);
    assert body == base + ("?" + text);
    FindIn(body, '?', base, "?" + text);
    assert body[|base| + 1..] == text;
  }

  /** For a URL with a query (a `?` before any `#`): the rebuilt URL has the same
      base and the same fragment, and its query reads back as exactly the pairs. */
  lemma RebuiltReads(url: string, query: seq<(string, string)>)
    requires Split(url).query.Some?
    ensures var was, now := Split(url), Split(RebuildUrl(url, query));
            && now.base == was.base && now.fragment == was.fragment
            && now.query == Some(QueryText(query))
            && |ReadQuery(now.query.value)| == |query|
            && forall i :: 0 <= i < |query| ==>
                 ReadQuery(now.query.value)[i] == (Some(query[i].0), Some(query[i].1))
  {
    hide Split, RebuildUrl, QueryText, ReadQuery;
    var p := Split(url);
    WithQuery(url);
    QueryReads(query);
    RebuiltFrom(p.base, p.query.value, p.fragment, query);
    SplitIs(p.base, QueryText(query), p.fragment);
  }

  /** The fragment survives every rebuild exactly for URLs that have no `?`, or have
      it before any `#`; otherwise the code takes part of the fragment for a query. */
  lemma FragmentKept(url: string)
    ensures (forall query: seq<(string, string)> :: Split(RebuildUrl(url, query)).fragment == Split(url).fragment)
            <==> Find(url, '?') == |url| || Split(url).query.Some?
  {
    if Find(url, '?') == |url| {
      assert forall query: seq<(string, string)> :: RebuildUrl(url, query) == url;
    } else if Split(url).query.Some? {
      forall query: seq<(string, string)>
        ensures Split(RebuildUrl(url, query)).fragment == Split(url).fragment
      {
        RebuiltReads(url, query);
      }
    } else {
      hide *;
      var query := FragmentEaten(url);
      assert Split(RebuildUrl(url, query)).fragment != Split(url).fragment;
    }
  }

  lemma FragmentIs(body: string, fragment: string)
    requires Lacks(body, '#') && Fragment(fragment)
    ensures Split(body + fragment).fragment == fragment
  {
    hide Find;
    FindIn(body + fragment, '#', body, fragment);
  }

  /** A URL whose first `?` comes after its first `#`, taken apart where the code cuts it. */
  lemma FragmentOfRebuilt(base: string, middle: string, text: string, rest: string, query: seq<(string, string)>)
    requires Lacks(base, '#') && Lacks(base, '?') && Lacks(middle, '?') && Lacks(text, '#')
    requires middle != "" && middle[0] == '#' && Fragment(rest)
    ensures var url := base + middle + "?" + text + rest;
            && Split(url).fragment == middle + "?" + text + rest
            && Split(RebuildUrl(url, query)).fragment == middle + "?" + QueryText(query) + rest
  {
    hide Split, RebuildUrl, QueryText;
    var was, now := middle + "?" + text + rest, middle + "?" + QueryText(query) + rest;
    RebuiltFrom(base + middle, text, rest, query);
    FragmentIs(base, was);
    FragmentIs(base, now);
    assert base + middle + "?" + text + rest == base + was;
    assert base + middle + "?" + QueryText(query) + rest == base + now;
  }

  /** A query whose rebuild alters the fragment of a URL with its `?` after the `#`. */
  lemma FragmentEaten(url: string) returns (query: seq<(string, string)>)
    requires Find(url, '?') < |url| && Split(url).query.None?
    ensures Split(RebuildUrl(url, query)).fragment != Split(url).fragment
  {
    hide *;
    var base, middle, text, rest := HashFirst(url);
    query := if text == "" then [("a", "")] else [];
    QueryDiffers(text, query);
    FragmentOfRebuilt(base, middle, text, rest, query);
    assert |middle + "?" + QueryText(query) + rest| != |middle + "?" + text + rest|;
  }

  lemma QueryDiffers(previous: string, query: seq<(string, string)>)
    requires query == if previous == "" then [("a", "")] else []
    ensures |QueryText(query)| != |previous|
  {
    hide PairText;
    if previous == "" {
      PairTextReads("a", "");
    }
  }

  lemma Regrouped(a: string, b: string, c: string, d: string, e: string)
    ensures (a + b) + c + (d + e) == a + b + c + d + e
  {
  }

  lemma CutAtFirst(s: string, c: char)
    requires Find(s, c) < |s|
    ensures var i := Find(s, c); s == s[..i] + [c] + s[i + 1..]
    ensures Lacks(s[..Find(s, c)], c)
  {
    hide Find;
    var i := Find(s, c);
    assert s == s[..i] + s[i..] && s[i..] == [c] + s[i + 1..];
  }

  lemma HashBefore(url: string)
    requires Find(url, '?') < |url| && Split(url).query.None?
    ensures Find(url, '#') < Find(url, '?') && Lacks(url[..Find(url, '#')], '#')
  {
    hide Find;
    var h := Find(url, '#');
    assert forall k :: 0 <= k < h ==> url[k] == url[..h][k];
  }

  lemma Parts4(front: string, remainder: string, h: nat, g: nat)
    requires h <= |front| && g <= |remainder|
    ensures front + "?" + remainder == front[..h] + front[h..] + "?" + remainder[..g] + remainder[g..]
  {
    assert front[..h] + front[h..] == front;
    assert remainder[..g] + remainder[g..] == remainder;
    Regrouped(front[..h], front[h..], "?", remainder[..g], remainder[g..]);
  }

  lemma LacksUntil(s: string, c: char, q: nat, h: nat)
    requires h <= q <= Find(s, c)
    ensures Lacks(s[..q][..h], c) && Lacks(s[..q][h..], c)
  {
    hide Find;
    var a, b := s[..q][..h], s[..q][h..];
    assert forall k :: 0 <= k < |a| ==> a[k] == s[k];
    assert forall k :: 0 <= k < |b| ==> b[k] == s[h + k];
  }

  lemma HashFirst(url: string) returns (base: string, middle: string, text: string, rest: string)
    requires Find(url, '?') < |url| && Split(url).query.None?
    ensures url == base + middle + "?" + text + rest
    ensures Lacks(base, '#') && Lacks(base, '?') && Lacks(middle, '?') && Lacks(text, '#')
    ensures middle != "" && middle[0] == '#' && Fragment(rest)
  {
    HashBefore(url);
    CutAtFirst(url, '?');
    hide Find, Split, Lacks;
    var h, q := Find(url, '#'), Find(url, '?');
    LacksUntil(url, '?', q, h);
    LacksUntil(url, '#', h, h);
    assert url[..h][..h] == url[..q][..h];
    var front, remainder := url[..q], url[q + 1..];
    var g := Find(remainder, '#');
    base, middle, text, rest := front[..h], front[h..], remainder[..g], remainder[g..];
    Parts4(front, remainder, h, g);
    FindLacks(remainder, '#');
  }

  lemma FindLacks(s: string, c: char)
    ensures Lacks(s[..Find(s, c)], c)
  {
    hide Find;
  }
}
