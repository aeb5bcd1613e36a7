/** UTF-8 (RFC 3629, sections 3 and 4): encoding, strict decoding, and decoding
    with replacement characters. */
module Utf8 {
  import opened Seqs

  type Byte = b: int | 0 <= b < 256

  /** How many bytes a character starting with `b` takes; 0 when none starts so. */
  function Need(b: Byte): nat {
    if b < 0x80 then 1
    else if 0xC2 <= b <= 0xDF then 2
    else if 0xE0 <= b <= 0xEF then 3
    else if 0xF0 <= b <= 0xF4 then 4
    else 0
  }

  /** Whether `b` may stand at offset `i` of a character starting with `lead`:
      the second byte rules out over-long forms, surrogates and values past U+10FFFF. */
  predicate MayFollow(lead: Byte, i: nat, b: Byte) {
    && 0x80 <= b <= 0xBF
    && (i == 1 ==>
          && (lead == 0xE0 ==> 0xA0 <= b)
          && (lead == 0xED ==> b <= 0x9F)
          && (lead == 0xF0 ==> 0x90 <= b)
          && (lead == 0xF4 ==> b <= 0x8F))
  }

  /** The length of the longest beginning of `s`, at least `k`, that can begin one character. */
  function Extent(s: seq<Byte>, k: nat): (n: nat)
    requires 1 <= k <= |s|
    ensures k <= n <= |s|
    ensures k <= Need(s[0]) ==> n <= Need(s[0])
    decreases |s| - k
  {
    if k < Need(s[0]) && k < |s| && MayFollow(s[0], k, s[k]) then Extent(s, k + 1) else k
  }

  /** `s` is the encoding of exactly one character. */
  predicate OneChar(s: seq<Byte>) {
    && s != []
    && |s| == Need(s[0])
    && forall i :: 1 <= i < |s| ==> MayFollow(s[0], i, s[i])
  }

  /** The code point a character's bytes spell. */
  function Code(s: seq<Byte>): (v: int)
    requires OneChar(s)
    ensures |s| == 1 ==> 0 <= v < 0x80
    ensures |s| == 2 ==> 0x80 <= v < 0x800
    ensures |s| == 3 ==> 0x800 <= v < 0xD800 || 0xE000 <= v < 0x10000
    ensures |s| == 4 ==> 0x10000 <= v < 0x110000
  {
    var b: seq<int> := seq(|s|, i requires 0 <= i < |s| => s[i]);
    assert forall i :: 1 <= i < |s| ==> b[i] == s[i] && MayFollow(s[0], i, s[i]);
    if |s| == 1 then b[0]
    else if |s| == 2 then Join2(b[0] - 0xC0, b[1] - 0x80)
    else if |s| == 3 then Join3(b[0] - 0xE0, b[1] - 0x80, b[2] - 0x80)
    else Join4(b[0] - 0xF0, b[1] - 0x80, b[2] - 0x80, b[3] - 0x80)
  }

  function Join2(a: int, b: int): int { a * 0x40 + b }
  function Join3(a: int, b: int, c: int): int { a * 0x1000 + b * 0x40 + c }
  function Join4(a: int, b: int, c: int, d: int): int { a * 0x40000 + b * 0x1000 + c * 0x40 + d }

  function CharOf(s: seq<Byte>): char
    requires OneChar(s)
  {
    Code(s) as char
  }

  function BytesOf(c: char): seq<Byte> {
    var v := c as int;
    if v < 0x80 then [v]
    else if v < 0x800 then [0xC0 + v / 0x40, 0x80 + v % 0x40]
    else if v < 0x10000 then [0xE0 + v / 0x1000, 0x80 + v / 0x40 % 0x40, 0x80 + v % 0x40]
    else [0xF0 + v / 0x40000, 0x80 + v / 0x1000 % 0x40, 0x80 + v / 0x40 % 0x40, 0x80 + v % 0x40]
  }

  lemma BytesOfIsOneChar(c: char)
    ensures OneChar(BytesOf(c)) && CharOf(BytesOf(c)) == c
  {
    var v := c as int;
    if v >= 0x10000 {
      Digits4(v);
    } else if v >= 0x800 {
      Digits3(v);
    }
  }

  lemma Digits3(v: int)
    requires 0 <= v < 0x10000
    ensures Join3(v / 0x1000, v / 0x40 % 0x40, v % 0x40) == v
  {
    var q := v / 0x40;
    assert v == q * 0x40 + v % 0x40;
    assert q == q / 0x40 * 0x40 + q % 0x40;
    assert v / 0x1000 == q / 0x40;
  }

  lemma Digits4(v: int)
    requires 0 <= v < 0x200000
    ensures Join4(v / 0x40000, v / 0x1000 % 0x40, v / 0x40 % 0x40, v % 0x40) == v
  {
    var q := v / 0x40;
    var p := q / 0x40;
    assert v == q * 0x40 + v % 0x40;
    assert q == p * 0x40 + q % 0x40;
    assert p == p / 0x40 * 0x40 + p % 0x40;
    assert v / 0x1000 == p;
    assert v / 0x40000 == p / 0x40;
  }

  lemma CharOfIsInverse(s: seq<Byte>)
    requires OneChar(s)
    ensures BytesOf(CharOf(s)) == s
  {
    var v := Code(s);
    if |s| == 2 {
      assert MayFollow(s[0], 1, s[1]);
    } else if |s| == 3 {
      assert MayFollow(s[0], 1, s[1]) && MayFollow(s[0], 2, s[2]);
      Undigits3(s[0] - 0xE0, s[1] - 0x80, s[2] - 0x80);
    } else if |s| == 4 {
      assert MayFollow(s[0], 1, s[1]) && MayFollow(s[0], 2, s[2]) && MayFollow(s[0], 3, s[3]);
      Undigits4(s[0] - 0xF0, s[1] - 0x80, s[2] - 0x80, s[3] - 0x80);
    }
  }

  lemma Undigit(q: int, r: int)
    requires 0 <= q && 0 <= r < 0x40
    ensures (q * 0x40 + r) / 0x40 == q && (q * 0x40 + r) % 0x40 == r
  {
  }

  lemma Undigits3(a: int, b: int, c: int)
    requires 0 <= a && 0 <= b < 0x40 && 0 <= c < 0x40
    ensures var v := Join3(a, b, c); v / 0x1000 == a && v / 0x40 % 0x40 == b && v % 0x40 == c
  {
    var v, q := Join3(a, b, c), a * 0x40 + b;
    assert v == q * 0x40 + c;
    Undigit(q, c);
    Undigit(a, b);
    assert v / 0x1000 == v / 0x40 / 0x40;
  }

  lemma Undigits4(a: int, b: int, c: int, d: int)
    requires 0 <= a && 0 <= b < 0x40 && 0 <= c < 0x40 && 0 <= d < 0x40
    ensures var v := Join4(a, b, c, d);
            v / 0x40000 == a && v / 0x1000 % 0x40 == b && v / 0x40 % 0x40 == c && v % 0x40 == d
  {
    var v, q := Join4(a, b, c, d), Join3(a, b, c);
    assert v == q * 0x40 + d;
    Undigits3(a, b, c);
    Undigit(q, d);
    assert v / 0x1000 == v / 0x40 / 0x40 && v / 0x40000 == v / 0x40 / 0x1000;
  }

  function Encode(t: string): seq<Byte> {
    if t == "" then [] else BytesOf(t[0]) + Encode(t[1..])
  }

  /** Strict decoding: nothing at all unless every byte belongs to a character. */
  function Decode(s: seq<Byte>): Option<string>
    decreases |s|
  {
    if s == [] then Some("")
    else
      var n := Extent(s, 1);
      if n != Need(s[0]) then None
      else
        ExtentIsOneChar(s);
        match Decode(s[n..])
        case None => None
        case Some(t) => Some([CharOf(s[..n])] + t)
  }

  /** Lossy decoding: each longest stretch that cannot be completed to a character
      becomes one U+FFFD. */
  function DecodeLossy(s: seq<Byte>): string
    decreases |s|
  {
    if s == [] then ""
    else
      var n := Extent(s, 1);
      var c := if n == Need(s[0]) then ExtentIsOneChar(s); CharOf(s[..n]) else '\U{FFFD}';
      [c] + DecodeLossy(s[n..])
  }

  lemma {:induction false} ExtentFits(s: seq<Byte>, k: nat)
    requires 1 <= k <= |s|
    ensures forall i :: k <= i < Extent(s, k) ==> MayFollow(s[0], i, s[i])
    decreases |s| - k
  {
    if k < Need(s[0]) && k < |s| && MayFollow(s[0], k, s[k]) {
      ExtentFits(s, k + 1);
    }
  }

  lemma ExtentIsOneChar(s: seq<Byte>)
    requires s != [] && Extent(s, 1) == Need(s[0])
    ensures OneChar(s[..Extent(s, 1)])
  {
    ExtentFits(s, 1);
  }

  /** One whole character at the front is read as such, whatever follows. */
  lemma {:induction false} ExtentOfChar(c: seq<Byte>, rest: seq<Byte>, k: nat)
    requires OneChar(c) && 1 <= k <= |c|
    ensures Extent(c + rest, k) == |c|
    decreases |c| - k
  {
    if k == |c| {
    } else {
      assert MayFollow(c[0], k, c[k]);
      ExtentOfChar(c, rest, k + 1);
    }
  }

  lemma DecodeFirst(c: char, rest: seq<Byte>)
    ensures var s := BytesOf(c) + rest;
            Decode(s) == if Decode(rest).None? then None else Some([c] + Decode(rest).value)
  {
    BytesOfIsOneChar(c);
    ExtentOfChar(BytesOf(c), rest, 1);
    var s := BytesOf(c) + rest;
    assert s[..|BytesOf(c)|] == BytesOf(c) && s[|BytesOf(c)|..] == rest;
  }

  /** Text survives encoding and strict decoding. */
  lemma {:induction false} DecodeEncode(t: string)
    ensures Decode(Encode(t)) == Some(t)
  {
    if t == "" {
    } else {
      DecodeEncode(t[1..]);
      DecodeFirst(t[0], Encode(t[1..]));
      assert t == [t[0]] + t[1..];
    }
  }

  /** Bytes that decode strictly are exactly the encoding of what they decode to. */
  lemma {:induction false} EncodeDecode(s: seq<Byte>)
    requires Decode(s).Some?
    ensures Encode(Decode(s).value) == s
    decreases |s|
  {
    hide Extent, Need, CharOf, BytesOf;
    if s == [] {
    } else {
      var n := Extent(s, 1);
      ExtentIsOneChar(s);
      EncodeDecode(s[n..]);
      CharOfIsInverse(s[..n]);
      assert s == s[..n] + s[n..];
    }
  }

  /** A proper beginning of one character is not a character. */
  lemma ExtentOfCut(c: seq<Byte>, k: nat)
    requires OneChar(c) && 0 < k < |c|
    ensures Extent(c[..k], 1) != Need(c[0])
  {
  }

  lemma DecodeNothing()
    ensures Decode([]) == Some("")
  {
  }

  lemma DecodeCut(c: seq<Byte>, k: nat)
    requires OneChar(c) && 0 < k < |c|
    ensures Decode(c[..k]) == None
  {
    ExtentOfCut(c, k);
  }

  /** Cutting valid text to `k` bytes leaves valid text exactly when the cut falls
      between two characters. */
  lemma {:induction false} CutValid(t: string, k: nat)
    requires k <= |Encode(t)|
    ensures Decode(Encode(t)[..k]).Some? <==> exists i :: 0 <= i <= |t| && |Encode(t[..i])| == k
    decreases |t|
  {
    hide Decode, Extent, Need, CharOf, BytesOf, OneChar;
    var s := Encode(t);
    if t == "" {
      DecodeNothing();
      assert |Encode(t[..0])| == k;
    } else {
      var c, u := BytesOf(t[0]), t[1..];
      BytesOfIsOneChar(t[0]);
      assert forall i :: 1 <= i <= |t| ==> t[..i][1..] == u[..i - 1] && t[..i][0] == t[0];
      assert forall i :: 1 <= i <= |t| ==> |Encode(t[..i])| == |c| + |Encode(u[..i - 1])|;
      if k == 0 {
        DecodeNothing();
        assert |Encode(t[..0])| == k;
      } else if k < |c| {
        assert s[..k] == c[..k];
        DecodeCut(c, k);
      } else {
        CutValid(u, k - |c|);
        assert s[..k] == c + Encode(u)[..k - |c|];
        DecodeFirst(t[0], Encode(u)[..k - |c|]);
        if i :| 0 <= i <= |u| && |Encode(u[..i])| == k - |c| {
          assert |Encode(t[..i + 1])| == k;
        }
        if i :| 0 <= i <= |t| && |Encode(t[..i])| == k {
          assert i > 0;
          assert |Encode(u[..i - 1])| == k - |c|;
        }
      }
    }
  }

  // ---------------------------------------------------- line feeds and lossy text

  const LF: Byte := 10

  /** A line feed never belongs to a longer character, so a character's extent
      does not reach across one. */
  lemma {:induction false} ExtentStopsAtLf(a: seq<Byte>, r: seq<Byte>, k: nat)
    requires a != [] && 1 <= k <= |a|
    ensures Extent(a + [LF] + r, k) == Extent(a + [LF], k)
    ensures a[0] != LF || k == 1 ==> Extent(a + [LF], k) <= |a|
    decreases |a| - k
  {
    var s, s' := a + [LF] + r, a + [LF];
    if k < |a| {
      assert s[k] == a[k] && s'[k] == a[k];
      if k < Need(a[0]) && MayFollow(a[0], k, a[k]) {
        ExtentStopsAtLf(a, r, k + 1);
      }
    } else {
      assert s[k] == LF && s'[k] == LF;
    }
  }

  /** Lossy decoding can be done separately on either side of a line feed. */
  lemma {:induction false} LossyAtLf(a: seq<Byte>, r: seq<Byte>)
    ensures DecodeLossy(a + [LF] + r) == DecodeLossy(a) + "\n" + DecodeLossy(r)
    decreases |a|
  {
    if a == [] {
      var s := [LF] + r;
      assert a + [LF] + r == s;
      assert Extent(s, 1) == 1;
      assert s[..1] == [LF] && s[1..] == r;
    } else {
      var s := a + [LF] + r;
      ExtentStopsAtLf(a, r, 1);
      ExtentOfPrefix(a, 1);
      var n := Extent(s, 1);
      assert n == Extent(a, 1);
      assert s[..n] == a[..n];
      assert s[n..] == a[n..] + [LF] + r;
      LossyAtLf(a[n..], r);
    }
  }

  lemma {:induction false} ExtentOfPrefix(a: seq<Byte>, k: nat)
    requires a != [] && 1 <= k <= |a|
    ensures Extent(a, k) == Extent(a + [LF], k)
    decreases |a| - k
  {
    if k < |a| {
      assert (a + [LF])[k] == a[k];
      if k < Need(a[0]) && MayFollow(a[0], k, a[k]) {
        ExtentOfPrefix(a, k + 1);
      }
    } else {
      assert (a + [LF])[k] == LF;
    }
  }
}

/** Base64 (RFC 4648, section 4), on text the encoder produced. */
module Base64 {
  import opened Seqs
  import opened Utf8

  function Symbol(v: int): char
    requires 0 <= v < 64
  {
    if v < 26 then ('A' as int + v) as char
    else if v < 52 then ('a' as int + (v - 26)) as char
    else if v < 62 then ('0' as int + (v - 52)) as char
    else if v == 62 then '+' else '/'
  }

  function Value(c: char): (v: int)
    ensures -1 <= v < 64
    ensures v >= 0 ==> Symbol(v) == c
  {
    if 'A' <= c <= 'Z' then c as int - 'A' as int
    else if 'a' <= c <= 'z' then c as int - 'a' as int + 26
    else if '0' <= c <= '9' then c as int - '0' as int + 52
    else if c == '+' then 62
    else if c == '/' then 63
    else -1
  }

  /** Three bytes to four symbols; a final one or two bytes are padded with `=`. */
  function Encode(b: seq<Byte>): string {
    if b == [] then ""
    else if |b| == 1 then
      [Symbol(b[0] / 4), Symbol(b[0] % 4 * 16), '=', '=']
    else if |b| == 2 then
      [Symbol(b[0] / 4), Symbol(b[0] % 4 * 16 + b[1] / 16), Symbol(b[1] % 16 * 4), '=']
    else
      [Symbol(b[0] / 4), Symbol(b[0] % 4 * 16 + b[1] / 16), Symbol(b[1] % 16 * 4 + b[2] / 64), Symbol(b[2] % 64)]
      + Encode(b[3..])
  }

  /** The three bytes that four sextets spell. */
  function High(v0: int, v1: int): Byte
    requires 0 <= v0 < 64 && 0 <= v1 < 64
  {
    v0 * 4 + v1 / 16
  }

  function Mid(v1: int, v2: int): Byte
    requires 0 <= v1 < 64 && 0 <= v2 < 64
  {
    v1 % 16 * 16 + v2 / 4
  }

  function Low(v2: int, v3: int): Byte
    requires 0 <= v2 < 64 && 0 <= v3 < 64
  {
    v2 % 4 * 64 + v3
  }

  /** The inverse, a quantum of four symbols at a time; padding ends the text. */
  function Decode(t: string): Option<seq<Byte>> {
    if t == "" then Some([])
    else if |t| < 4 then None
    else
      var v0, v1, v2, v3 := Value(t[0]), Value(t[1]), Value(t[2]), Value(t[3]);
      if v0 < 0 || v1 < 0 then None
      else if t[2] == '=' && t[3] == '=' then
        if |t| == 4 then Some([High(v0, v1)]) else None
      else if v2 < 0 then None
      else if t[3] == '=' then
        if |t| == 4 then Some([High(v0, v1), Mid(v1, v2)]) else None
      else if v3 < 0 then None
      else
        match Decode(t[4..])
        case None => None
        case Some(rest) => Some([High(v0, v1), Mid(v1, v2), Low(v2, v3)] + rest)
  }

  lemma ValueOfSymbol(v: int)
    requires 0 <= v < 64
    ensures Value(Symbol(v)) == v && Symbol(v) != '='
  {
  }

  /** Splitting three bytes into four sextets loses nothing. */
  lemma Regroup(b0: Byte, b1: Byte, b2: Byte)
    ensures var v1, v2 := b0 % 4 * 16 + b1 / 16, b1 % 16 * 4 + b2 / 64;
            && 0 <= v1 < 64 && 0 <= v2 < 64
            && High(b0 / 4, v1) == b0
            && Mid(v1, v2) == b1
            && Low(v2, b2 % 64) == b2
  {
  }

  lemma {:induction false} DecodeEncode(b: seq<Byte>)
    ensures Decode(Encode(b)) == Some(b)
  {
    hide Decode, Symbol;
    if b == [] {
      DecodeNothing();
    } else if |b| == 1 {
      DecodePadded1(b[0]);
      assert b == [b[0]];
    } else if |b| == 2 {
      DecodePadded2(b[0], b[1]);
      assert b == [b[0], b[1]];
    } else if |b| > 2 {
      DecodeEncode(b[3..]);
      EncodeQuantum(b[0], b[1], b[2], b[3..]);
      assert b == [b[0], b[1], b[2]] + b[3..];
    }
  }

  lemma DecodeNothing()
    ensures Decode("") == Some([])
  {
  }

  lemma DecodePadded1(b0: Byte)
    ensures Decode([Symbol(b0 / 4), Symbol(b0 % 4 * 16), '=', '=']) == Some([b0])
  {
  }

  lemma DecodePadded2(b0: Byte, b1: Byte)
    ensures Decode([Symbol(b0 / 4), Symbol(b0 % 4 * 16 + b1 / 16), Symbol(b1 % 16 * 4), '=']) == Some([b0, b1])
  {
    Regroup(b0, b1, 0);
    ValueOfSymbol(b0 / 4);
    ValueOfSymbol(b0 % 4 * 16 + b1 / 16);
    ValueOfSymbol(b1 % 16 * 4);
  }

  lemma EncodeFirst(b0: Byte, b1: Byte, b2: Byte, rest: seq<Byte>)
    requires 0 <= b0 % 4 * 16 + b1 / 16 < 64 && 0 <= b1 % 16 * 4 + b2 / 64 < 64
    ensures Encode([b0, b1, b2] + rest) ==
            [Symbol(b0 / 4), Symbol(b0 % 4 * 16 + b1 / 16), Symbol(b1 % 16 * 4 + b2 / 64), Symbol(b2 % 64)] + Encode(rest)
  {
    hide Symbol;
    assert ([b0, b1, b2] + rest)[3..] == rest;
  }

  lemma EncodeQuantum(b0: Byte, b1: Byte, b2: Byte, rest: seq<Byte>)
    requires Decode(Encode(rest)) == Some(rest)
    ensures Decode(Encode([b0, b1, b2] + rest)) == Some([b0, b1, b2] + rest)
  {
    hide Value, Symbol, High, Mid, Low, Encode, Decode;
    var v0, v1, v2, v3 := b0 / 4, b0 % 4 * 16 + b1 / 16, b1 % 16 * 4 + b2 / 64, b2 % 64;
    Regroup(b0, b1, b2);
    EncodeFirst(b0, b1, b2, rest);
    ValueOfSymbol(v0);
    ValueOfSymbol(v1);
    ValueOfSymbol(v2);
    ValueOfSymbol(v3);
    DecodeQuantum(Symbol(v0), Symbol(v1), Symbol(v2), Symbol(v3), Encode(rest));
  }

  /** Four symbols at the front read as the three bytes they regroup to. */
  lemma DecodeQuantum(c0: char, c1: char, c2: char, c3: char, rest: string)
    requires Value(c0) >= 0 && Value(c1) >= 0 && Value(c2) >= 0 && Value(c3) >= 0
    requires c2 != '=' && c3 != '='
    requires Decode(rest).Some?
    ensures var v0, v1, v2, v3 := Value(c0), Value(c1), Value(c2), Value(c3);
            Decode([c0, c1, c2, c3] + rest) ==
            Some([High(v0, v1), Mid(v1, v2), Low(v2, v3)] + Decode(rest).value)
  {
  }
}

/** How a body travels and is stored (daemon/src/pporlock/capture/ring.py,
    daemon/src/pporlock/capture/session.py). */
module BodyCodec {
  import opened Seqs
  import opened Utf8
  import Base64

  /** The two columns a body occupies: its text, and how to read it. */
  datatype Wire = Wire(text: Option<string>, encoding: Option<string>)

  function EncodeBody(body: Option<seq<Byte>>): Wire {
    match body
    case None => Wire(None, None)
    case Some(b) =>
      var t := Decode(b);
      if t.Some? then Wire(t, Some("utf8"))
      else Wire(Some(Base64.Encode(b)), Some("base64"))
  }

  function DecodeBody(w: Wire): Option<seq<Byte>> {
    if w.text.None? then None
    else if w.encoding == Some("base64") then Base64.Decode(w.text.value)
    else Some(Encode(w.text.value))
  }

  /** A body cut to at most `cap` bytes. */
  function Cap(body: Option<seq<Byte>>, cap: nat): Option<seq<Byte>> {
    if body.Some? && |body.value| > cap then Some(body.value[..cap]) else body
  }

  /** Every body reads back as it was, whichever way it had to travel. */
  lemma BodyRoundTrip(body: Option<seq<Byte>>)
    ensures DecodeBody(EncodeBody(body)) == body
  {
    if body.Some? {
      if Decode(body.value).Some? {
        EncodeDecode(body.value);
      } else {
        Base64.DecodeEncode(body.value);
      }
    }
  }

  /** What is stored of a text body is its first `cap` bytes, exactly; it stays
      readable text precisely when the cap falls between two characters. */
  lemma CappedTextRoundTrip(t: string, cap: nat)
    ensures var stored := EncodeBody(Cap(Some(Encode(t)), cap));
            && DecodeBody(stored) == Cap(Some(Encode(t)), cap)
            && (stored.encoding == Some("utf8") <==>
                  |Encode(t)| <= cap || exists i :: 0 <= i <= |t| && |Encode(t[..i])| == cap)
  {
    BodyRoundTrip(Cap(Some(Encode(t)), cap));
    DecodeEncode(t);
    if |Encode(t)| > cap {
      CutValid(t, cap);
    }
  }
}
