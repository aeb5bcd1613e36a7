/** Masked values (daemon/src/pporlock/capture/redact.py). */
module Masks {
  import opened Text
  import Utf8

  const PREFIX: string := "\U{00AB}redacted:sha1="
  const MIDDLE: string := ",len="
  const CLOSE: char := '\U{00BB}'

  predicate IsHex(c: char) {
    '0' <= c <= '9' || 'a' <= c <= 'f'
  }

  function HexDigit(n: nat): char
    requires n < 16
  {
    if n < 10 then ('0' as int + n) as char else ('a' as int + n - 10) as char
  }

  /** The four hexadecimal characters kept of a digest. */
  function Hex4(n: nat): (s: string)
    ensures |s| == 4 && forall i :: 0 <= i < 4 ==> IsHex(s[i])
  {
    [HexDigit(n / 0x1000 % 16), HexDigit(n / 0x100 % 16), HexDigit(n / 0x10 % 16), HexDigit(n % 16)]
  }

  /** The masked form of a value. `digest` stands for the hash function. */
  function Mask(value: string, digest: string -> nat): string {
    PREFIX + Hex4(digest(value)) + MIDDLE + Digits(|Utf8.Encode(value)|) + [CLOSE]
  }

  /** The masked form, character by character. */
  predicate MaskForm(s: string) {
    var p := |PREFIX|;
    var q := p + 4 + |MIDDLE|;
    && |s| > q
    && s[..p] == PREFIX
    && (forall i :: p <= i < p + 4 ==> IsHex(s[i]))
    && s[p + 4..q] == MIDDLE
    && s[|s| - 1] == CLOSE
    && AllDigits(s[q..|s| - 1])
  }

  /** The recognizer: the form, and one final line feed at most, which the regular
      expression's `$` lets through. */
  predicate IsMasked(s: string) {
    MaskForm(s) || (s != "" && s[|s| - 1] == '\n' && MaskForm(s[..|s| - 1]))
  }

  lemma MaskIsMasked(value: string, digest: string -> nat)
    ensures IsMasked(Mask(value, digest)) && Mask(value, digest) != ""
  {
  }

  function DigitValue(c: char): nat
    requires IsHex(c)
  {
    if c <= '9' then c as nat - '0' as nat else c as nat - 'a' as nat + 10
  }

  /** What a mask tells: the four hexadecimal digits kept of the digest, most significant
      first, and the length of the value in bytes. */
  lemma MaskTells(value: string, digest: string -> nat)
    ensures var m, p := Mask(value, digest), |PREFIX|;
            && MaskForm(m)
            && Number(m[p + 4 + |MIDDLE|..|m| - 1]) == |Utf8.Encode(value)|
            && 0x1000 * DigitValue(m[p]) + 0x100 * DigitValue(m[p + 1]) + 0x10 * DigitValue(m[p + 2]) + DigitValue(m[p + 3])
               == digest(value) % 0x10000
  {
    var m, p, n := Mask(value, digest), |PREFIX|, digest(value);
    var q := p + 4 + |MIDDLE|;
    NumberOfDigits(|Utf8.Encode(value)|);
    assert m[q..|m| - 1] == Digits(|Utf8.Encode(value)|);
    assert m[p..p + 4] == Hex4(n);
    Hex4Tells(n);
    var h := m[p..p + 4];
    assert m[p] == h[0] && m[p + 1] == h[1] && m[p + 2] == h[2] && m[p + 3] == h[3];
  }

  lemma Hex4Tells(n: nat)
    ensures var h := Hex4(n);
            0x1000 * DigitValue(h[0]) + 0x100 * DigitValue(h[1]) + 0x10 * DigitValue(h[2]) + DigitValue(h[3]) == n % 0x10000
  {
    DigitTells(n / 0x1000 % 16);
    DigitTells(n / 0x100 % 16);
    DigitTells(n / 0x10 % 16);
    DigitTells(n % 16);
    hide DigitValue, HexDigit;
    Nibbles(n);
  }

  lemma DigitTells(k: nat)
    requires k < 16
    ensures DigitValue(HexDigit(k)) == k
  {
  }

  lemma Nibbles(n: nat)
    ensures 0x1000 * (n / 0x1000 % 16) + 0x100 * (n / 0x100 % 16) + 0x10 * (n / 0x10 % 16) + n % 16 == n % 0x10000
  {
    assert n / 0x100 == n / 0x10 / 16 && n / 0x1000 == n / 0x100 / 16 && n / 0x10000 == n / 0x1000 / 16;
  }

  /** A masked value contains none of the characters that cut a query up, and
      starts with one that never comes from escaping. */
  lemma MaskedLacks(s: string)
    requires IsMasked(s)
    ensures s != "" && s[0] == '\U{00AB}' && Lacks(s, '&') && Lacks(s, '#') && Lacks(s, '?')
  {
    if MaskForm(s) {
      MaskFormLacks(s);
    } else {
      MaskFormLacks(s[..|s| - 1]);
    }
  }

  lemma MaskFormLacks(s: string)
    requires MaskForm(s)
    ensures s != "" && s[0] == '\U{00AB}' && Lacks(s, '&') && Lacks(s, '#') && Lacks(s, '?')
  {
    var p := |PREFIX|;
    var q := p + 4 + |MIDDLE|;
    forall i | 0 <= i < |s|
      ensures s[i] != '&' && s[i] != '#' && s[i] != '?'
    {
      if i < p {
        assert s[i] == PREFIX[i];
      } else if p + 4 <= i < q {
        assert s[i] == s[p + 4..q][i - p - 4];
        assert s[i] == MIDDLE[i - p - 4];
      } else if q <= i < |s| - 1 {
        assert s[i] == s[q..|s| - 1][i - q];
      }
    }
    assert s[0] == s[..p][0];
  }
}

/** Redaction of headers, JSON bodies, queries and whole records
    (daemon/src/pporlock/capture/redact.py). */
module Redact {
  import opened Seqs
  import opened Text
  import opened Utf8
  import opened Masks
  import opened RedactUrl

  /** A parsed value. A number is its text, as the library prints it. */
  datatype Json =
    | JNull
    | JBool(b: bool)
    | JNum(text: string)
    | JStr(s: string)
    | JArr(items: seq<Json>)
    | JObj(fields: seq<Field>)

  datatype Field = Field(key: string, value: Json)

  /** What the redactor is given: which names and keys hit a pattern, the hash, and
      the JSON library. Every theorem holds for any of them. */
  datatype Config = Config(
    enabled: bool,
    headerHit: string -> bool,
    keyHit: string -> bool,
    queryHit: string -> bool,
    digest: string -> nat,
    dump: Json -> string,
    number: string -> bool,
    parse: seq<Byte> -> Option<Json>,
    print_: Json -> seq<Byte>)

  /** What the parser can return: numbers as the library prints them, and no object
      with the same key twice. */
  predicate Loadable(c: Config, t: Json)
    decreases t
  {
    match t
    case JNum(text) => c.number(text)
    case JArr(items) => forall i :: 0 <= i < |items| ==> Loadable(c, items[i])
    case JObj(fields) =>
      && (forall i, j :: 0 <= i < j < |fields| ==> fields[i].key != fields[j].key)
      && forall i :: 0 <= i < |fields| ==> Loadable(c, fields[i].value)
    case _ => true
  }

  /** Parsing returns such values only, and undoes their printing. */
  ghost predicate JsonInverse(c: Config) {
    && (forall b: seq<Byte> :: c.parse(b).Some? ==> Loadable(c, c.parse(b).value))
    && forall t: Json :: Loadable(c, t) ==> c.parse(c.print_(t)) == Some(t)
  }

  // --------------------------------------------------------------------- trees

  /** Null and values already masked are never masked. */
  predicate Immune(t: Json) {
    t.JNull? || (t.JStr? && IsMasked(t.s))
  }

  /** A string as it stands, any other value as JSON text. */
  function TextOf(c: Config, t: Json): string {
    if t.JStr? then t.s else c.dump(t)
  }

  function Masked(c: Config, t: Json): Json {
    JStr(Mask(TextOf(c, t), c.digest))
  }

  function Walk(c: Config, t: Json, hit: bool): (Json, bool)
    decreases t, 1
  {
    if t.JArr? then (JArr(WalkItems(c, t.items, hit).0), WalkItems(c, t.items, hit).1)
    else if t.JObj? then (JObj(WalkFields(c, t.fields).0), WalkFields(c, t.fields).1)
    else if hit && !Immune(t) then (Masked(c, t), true)
    else (t, false)
  }

  function WalkItems(c: Config, items: seq<Json>, hit: bool): (seq<Json>, bool)
    decreases items, 0
  {
    if items == [] then ([], false)
    else
      var first, rest := Walk(c, items[0], hit), WalkItems(c, items[1..], hit);
      ([first.0] + rest.0, first.1 || rest.1)
  }

  function WalkFields(c: Config, fields: seq<Field>): (seq<Field>, bool)
    decreases fields, 0
  {
    if fields == [] then ([], false)
    else
      var f := fields[0];
      var first, rest := Walk(c, f.value, c.keyHit(f.key)), WalkFields(c, fields[1..]);
      ([Field(f.key, first.0)] + rest.0, first.1 || rest.1)
  }

  /** The walk as it is written: recursion with a loop over each object. */
  method WalkNode(c: Config, t: Json, hit: bool) returns (r: Json, changed: bool)
    ensures (r, changed) == Walk(c, t, hit)
    decreases t, 1
  {
    if t.JObj? {
      r, changed := WalkObject(c, t);
    } else if t.JArr? {
      r, changed := WalkArray(c, t, hit);
    } else {
      if hit && t != JNull {
        var text := if t.JStr? then t.s else c.dump(t);
        if t.JStr? && IsMasked(t.s) {
          return t, false;
        }
        return JStr(Mask(text, c.digest)), true;
      }
      return t, false;
    }
  }

  lemma WalkUnfolds(c: Config, t: Json, hit: bool)
    ensures t.JObj? ==> Walk(c, t, hit) == (JObj(WalkFields(c, t.fields).0), WalkFields(c, t.fields).1)
    ensures t.JArr? ==> Walk(c, t, hit) == (JArr(WalkItems(c, t.items, hit).0), WalkItems(c, t.items, hit).1)
  {
  }

  lemma WalkFieldsFrom(c: Config, fields: seq<Field>, i: nat)
    requires i < |fields|
    ensures var f, rest := fields[i], WalkFields(c, fields[i + 1..]);
            WalkFields(c, fields[i..]) ==
            ([Field(f.key, Walk(c, f.value, c.keyHit(f.key)).0)] + rest.0, Walk(c, f.value, c.keyHit(f.key)).1 || rest.1)
  {
    hide Walk;
    assert fields[i..][0] == fields[i] && fields[i..][1..] == fields[i + 1..];
  }

  lemma WalkItemsFrom(c: Config, items: seq<Json>, hit: bool, i: nat)
    requires i < |items|
    ensures var rest := WalkItems(c, items[i + 1..], hit);
            WalkItems(c, items[i..], hit) == ([Walk(c, items[i], hit).0] + rest.0, Walk(c, items[i], hit).1 || rest.1)
  {
    hide Walk;
    assert items[i..][0] == items[i] && items[i..][1..] == items[i + 1..];
  }

  method WalkObject(c: Config, t: Json) returns (r: Json, changed: bool)
    requires t.JObj?
    ensures (r, changed) == Walk(c, t, false)
    decreases t, 0
  {
    hide Walk, WalkFields;
    WalkUnfolds(c, t, false);
    var fields, out: seq<Field> := t.fields, [];
    changed := false;
    assert fields[0..] == fields;
    for i := 0 to |fields|
      invariant WalkFields(c, fields).0 == out + WalkFields(c, fields[i..]).0
      invariant WalkFields(c, fields).1 == (changed || WalkFields(c, fields[i..]).1)
    {
      WalkFieldsFrom(c, fields, i);
      var walked, subChanged := WalkNode(c, fields[i].value, c.keyHit(fields[i].key));
      out := out + [Field(fields[i].key, walked)];
      changed := changed || subChanged;
    }
    WalkNothing(c, false);
    assert fields[|fields|..] == [] && out + [] == out;
    r := JObj(out);
  }

  lemma WalkNothing(c: Config, hit: bool)
    ensures WalkFields(c, []) == ([], false) && WalkItems(c, [], hit) == ([], false)
  {
  }

  method WalkArray(c: Config, t: Json, hit: bool) returns (r: Json, changed: bool)
    requires t.JArr?
    ensures (r, changed) == Walk(c, t, hit)
    decreases t, 0
  {
    hide Walk, WalkItems;
    WalkUnfolds(c, t, hit);
    var items, out: seq<Json> := t.items, [];
    changed := false;
    assert items[0..] == items;
    for i := 0 to |items|
      invariant WalkItems(c, items, hit).0 == out + WalkItems(c, items[i..], hit).0
      invariant WalkItems(c, items, hit).1 == (changed || WalkItems(c, items[i..], hit).1)
    {
      WalkItemsFrom(c, items, hit, i);
      var walked, subChanged := WalkNode(c, items[i], hit);
      out := out + [walked];
      changed := changed || subChanged;
    }
    WalkNothing(c, hit);
    assert items[|items|..] == [] && out + [] == out;
    r := JArr(out);
  }

  lemma {:induction false} WalkItemsShape(c: Config, items: seq<Json>, hit: bool)
    ensures |WalkItems(c, items, hit).0| == |items|
    ensures forall i :: 0 <= i < |items| ==> WalkItems(c, items, hit).0[i] == Walk(c, items[i], hit).0
    decreases |items|
  {
    if items == [] {
    } else {
      hide Walk;
      WalkItemsShape(c, items[1..], hit);
    }
  }

  lemma {:induction false} WalkItemsFlag(c: Config, items: seq<Json>, hit: bool)
    ensures WalkItems(c, items, hit).1 <==> exists i :: 0 <= i < |items| && Walk(c, items[i], hit).1
    decreases |items|
  {
    if items == [] {
    } else {
      hide Walk;
      var rest := items[1..];
      WalkItemsFlag(c, rest, hit);
      assert forall i :: 0 <= i < |rest| ==> rest[i] == items[i + 1];
      assert forall i :: 0 < i < |items| ==> items[i] == rest[i - 1];
      if i :| 0 <= i < |rest| && Walk(c, rest[i], hit).1 {
        assert Walk(c, items[i + 1], hit).1;
      }
    }
  }

  lemma WalkItemsAt(c: Config, items: seq<Json>, hit: bool)
    ensures |WalkItems(c, items, hit).0| == |items|
    ensures forall i :: 0 <= i < |items| ==> WalkItems(c, items, hit).0[i] == Walk(c, items[i], hit).0
    ensures WalkItems(c, items, hit).1 <==> exists i :: 0 <= i < |items| && Walk(c, items[i], hit).1
  {
    hide Walk, WalkItems;
    WalkItemsShape(c, items, hit);
    WalkItemsFlag(c, items, hit);
  }

  /** One field walked: under its own key. */
  function WalkField(c: Config, f: Field): (Json, bool) {
    Walk(c, f.value, c.keyHit(f.key))
  }

  lemma {:induction false} WalkFieldsShape(c: Config, fields: seq<Field>)
    ensures |WalkFields(c, fields).0| == |fields|
    ensures forall i :: 0 <= i < |fields| ==>
              WalkFields(c, fields).0[i] == Field(fields[i].key, WalkField(c, fields[i]).0)
    decreases |fields|
  {
    if fields == [] {
    } else {
      hide Walk;
      WalkFieldsShape(c, fields[1..]);
    }
  }

  lemma {:induction false} WalkFieldsFlag(c: Config, fields: seq<Field>)
    ensures WalkFields(c, fields).1 <==> exists i :: 0 <= i < |fields| && WalkField(c, fields[i]).1
    decreases |fields|
  {
    if fields == [] {
    } else {
      hide Walk;
      var rest := fields[1..];
      WalkFieldsFlag(c, rest);
      assert forall i :: 0 <= i < |rest| ==> rest[i] == fields[i + 1];
      assert forall i :: 0 < i < |fields| ==> fields[i] == rest[i - 1];
      if i :| 0 <= i < |rest| && WalkField(c, rest[i]).1 {
        assert WalkField(c, fields[i + 1]).1;
      }
    }
  }

  lemma WalkFieldsAt(c: Config, fields: seq<Field>)
    ensures |WalkFields(c, fields).0| == |fields|
    ensures forall i :: 0 <= i < |fields| ==>
              WalkFields(c, fields).0[i] == Field(fields[i].key, WalkField(c, fields[i]).0)
    ensures WalkFields(c, fields).1 <==> exists i :: 0 <= i < |fields| && WalkField(c, fields[i]).1
  {
    hide Walk, WalkFields, WalkField;
    WalkFieldsShape(c, fields);
    WalkFieldsFlag(c, fields);
  }

  // ------------------------------------------------------------- where masks fall

  /** A way down a tree: into the value of an object's `i`th field, or an array's `i`th item. */
  datatype Step = Into(i: nat) | Item(i: nat)

  /** The subtree at the end of a path. */
  function At(t: Json, path: seq<Step>): Option<Json>
    decreases |path|
  {
    if path == [] then Some(t)
    else
      match (t, path[0])
      case (JObj(fields), Into(i)) => if i < |fields| then At(fields[i].value, path[1..]) else None
      case (JArr(items), Item(i)) => if i < |items| then At(items[i], path[1..]) else None
      case _ => None
  }

  /** The key of the nearest object field enclosing the end of a path; lists are
      looked through. */
  function NearestKey(t: Json, path: seq<Step>, above: Option<string>): Option<string>
    decreases |path|
  {
    if path == [] then above
    else
      match (t, path[0])
      case (JObj(fields), Into(i)) =>
        if i < |fields| then NearestKey(fields[i].value, path[1..], Some(fields[i].key)) else above
      case (JArr(items), Item(i)) => if i < |items| then NearestKey(items[i], path[1..], above) else above
      case _ => above
  }

  predicate Hits(c: Config, key: Option<string>) {
    key.Some? && c.keyHit(key.value)
  }

  /** What stands at a place after redaction: a masked scalar under a matching key,
      any other scalar as it was, and containers of the same extent and keys. */
  predicate RedactedTo(c: Config, before: Json, after: Json, hit: bool) {
    match before
    case JArr(items) => after.JArr? && |after.items| == |items|
    case JObj(fields) =>
      && after.JObj? && |after.fields| == |fields|
      && forall i :: 0 <= i < |fields| ==> after.fields[i].key == fields[i].key
    case _ =>
      var text := if before.JStr? then before.s else c.dump(before);
      after == if hit && !Immune(before) then JStr(Mask(text, c.digest)) else before
  }

  /** Redaction, place by place: the tree keeps its shape, and exactly the scalars
      whose nearest enclosing key matches are masked. */
  lemma {:induction false} WalkPlaceByPlace(c: Config, t: Json, above: Option<string>, path: seq<Step>)
    ensures var r := Walk(c, t, Hits(c, above)).0;
            && (At(r, path).Some? <==> At(t, path).Some?)
            && (At(t, path).Some? ==>
                  RedactedTo(c, At(t, path).value, At(r, path).value, Hits(c, NearestKey(t, path, above))))
    decreases |path|
  {
    hide IsMasked, Mask, WalkItems, WalkFields;
    var hit := Hits(c, above);
    match t {
      case JArr(items) =>
        WalkItemsAt(c, items, hit);
        if path != [] && path[0].Item? && path[0].i < |items| {
          WalkPlaceByPlace(c, items[path[0].i], above, path[1..]);
        }
      case JObj(fields) =>
        WalkFieldsAt(c, fields);
        if path != [] && path[0].Into? && path[0].i < |fields| {
          var f := fields[path[0].i];
          assert Hits(c, Some(f.key)) == c.keyHit(f.key);
          WalkPlaceByPlace(c, f.value, Some(f.key), path[1..]);
        }
      case _ =>
    }
  }

  /** `changed` says exactly whether the tree differs. */
  lemma {:induction false} WalkReportsChange(c: Config, t: Json, hit: bool)
    ensures Walk(c, t, hit).1 <==> Walk(c, t, hit).0 != t
    decreases t
  {
    match t {
      case JArr(items) =>
        WalkItemsAt(c, items, hit);
        forall i | 0 <= i < |items|
          ensures Walk(c, items[i], hit).1 <==> Walk(c, items[i], hit).0 != items[i]
        {
          WalkReportsChange(c, items[i], hit);
        }
        var out := WalkItems(c, items, hit).0;
        if !WalkItems(c, items, hit).1 {
          assert out == items;
        }
      case JObj(fields) =>
        WalkFieldsAt(c, fields);
        forall i | 0 <= i < |fields|
          ensures Walk(c, fields[i].value, c.keyHit(fields[i].key)).1 <==>
                  Walk(c, fields[i].value, c.keyHit(fields[i].key)).0 != fields[i].value
        {
          WalkReportsChange(c, fields[i].value, c.keyHit(fields[i].key));
        }
        var out := WalkFields(c, fields).0;
        if !WalkFields(c, fields).1 {
          assert forall i :: 0 <= i < |fields| ==> out[i] == fields[i];
          assert out == fields;
        }
      case _ =>
        MaskIsMasked(TextOf(c, t), c.digest);
    }
  }

  /** Redacting a redacted tree changes nothing. */
  lemma {:induction false} WalkIdempotent(c: Config, t: Json, hit: bool)
    ensures var r := Walk(c, t, hit).0; Walk(c, r, hit) == (r, false)
    decreases t
  {
    var r := Walk(c, t, hit).0;
    match t {
      case JArr(items) =>
        WalkItemsAt(c, items, hit);
        WalkItemsAt(c, r.items, hit);
        forall i | 0 <= i < |items|
          ensures Walk(c, r.items[i], hit) == (r.items[i], false)
        {
          WalkIdempotent(c, items[i], hit);
        }
        assert WalkItems(c, r.items, hit).0 == r.items;
      case JObj(fields) =>
        WalkFieldsAt(c, fields);
        WalkFieldsAt(c, r.fields);
        forall i | 0 <= i < |fields|
          ensures Walk(c, r.fields[i].value, c.keyHit(r.fields[i].key)) == (r.fields[i].value, false)
        {
          WalkIdempotent(c, fields[i].value, c.keyHit(fields[i].key));
        }
        assert forall i :: 0 <= i < |fields| ==> WalkFields(c, r.fields).0[i] == r.fields[i];
        assert WalkFields(c, r.fields).0 == r.fields;
      case _ =>
        MaskIsMasked(TextOf(c, t), c.digest);
    }
  }

  /** What can be parsed can still be parsed once redacted and printed. */
  lemma {:induction false} WalkLoadable(c: Config, t: Json, hit: bool)
    requires Loadable(c, t)
    ensures Loadable(c, Walk(c, t, hit).0)
    decreases t
  {
    var r := Walk(c, t, hit).0;
    match t {
      case JArr(items) =>
        WalkItemsAt(c, items, hit);
        forall i | 0 <= i < |items|
          ensures Loadable(c, r.items[i])
        {
          WalkLoadable(c, items[i], hit);
        }
      case JObj(fields) =>
        WalkFieldsAt(c, fields);
        forall i | 0 <= i < |fields|
          ensures Loadable(c, r.fields[i].value)
        {
          WalkLoadable(c, fields[i].value, c.keyHit(fields[i].key));
        }
      case _ =>
    }
  }

  // --------------------------------------------------------------- name/value pairs

  type Pairs = seq<(string, string)>

  /** What becomes of one header or query parameter. */
  function RedactPair(pair: (string, string), hit: string -> bool, digest: string -> nat): (string, string) {
    if pair.1 != "" && !IsMasked(pair.1) && hit(pair.0) then (pair.0, Mask(pair.1, digest)) else pair
  }

  function RedactPairs(pairs: Pairs, hit: string -> bool, digest: string -> nat): (r: Pairs)
    ensures |r| == |pairs|
    ensures forall i :: 0 <= i < |pairs| ==> r[i] == RedactPair(pairs[i], hit, digest)
  {
    seq(|pairs|, i requires 0 <= i < |pairs| => RedactPair(pairs[i], hit, digest))
  }

  lemma RedactPairMasks(pair: (string, string), hit: string -> bool, digest: string -> nat)
    ensures var mask := pair.1 != "" && !IsMasked(pair.1) && hit(pair.0);
            && (RedactPair(pair, hit, digest) != pair <==> mask)
            && RedactPair(pair, hit, digest) == (pair.0, if mask then Mask(pair.1, digest) else pair.1)
    ensures var r := RedactPair(pair, hit, digest); RedactPair(r, hit, digest) == r
  {
    hide IsMasked, Mask;
    MaskIsMasked(pair.1, digest);
  }

  lemma RedactPairsIdempotent(pairs: Pairs, hit: string -> bool, digest: string -> nat)
    ensures var r := RedactPairs(pairs, hit, digest); RedactPairs(r, hit, digest) == r
  {
  }

  /** The loop over headers: the pairs it masks, and whether there were any. The
      loop over query parameters is the same one with the other patterns. */
  method RedactLoop(enabled: bool, pairs: Pairs, hit: string -> bool, digest: string -> nat) returns (out: Pairs, changed: bool)
    ensures out == if enabled then RedactPairs(pairs, hit, digest) else pairs
    ensures changed <==> out != pairs
  {
    hide IsMasked, Mask, RedactPair;
    if !enabled {
      return pairs, false;
    }
    out, changed := [], false;
    for i := 0 to |pairs|
      invariant |out| == i && forall k :: 0 <= k < i ==> out[k] == RedactPair(pairs[k], hit, digest)
      invariant changed <==> exists k :: 0 <= k < i && out[k] != pairs[k]
    {
      RedactPairMasks(pairs[i], hit, digest);
      var name, value := pairs[i].0, pairs[i].1;
      var mask := value != "" && !IsMasked(value) && hit(name);
      ghost var before := out;
      out := out + [(name, if mask then Mask(value, digest) else value)];
      changed := changed || mask;
      assert out[i] != pairs[i] <==> mask;
      assert forall k :: 0 <= k < i ==> out[k] == before[k];
    }
  }

  // ------------------------------------------------------------------------ bodies

  predicate BlankBytes(b: seq<Byte>) {
    forall i :: 0 <= i < |b| ==> b[i] == 32 || 9 <= b[i] <= 13
  }

  function RedactBody(c: Config, body: Option<seq<Byte>>): Option<seq<Byte>> {
    if !c.enabled || body.None? || BlankBytes(body.value) || c.parse(body.value).None? then body
    else
      var (walked, changed) := Walk(c, c.parse(body.value).value, false);
      if changed then Some(c.print_(walked)) else body
  }

  lemma RedactBodyIdempotent(c: Config, body: Option<seq<Byte>>)
    requires JsonInverse(c)
    ensures var r := RedactBody(c, body); RedactBody(c, r) == r
  {
    if body.Some? && c.parse(body.value).Some? {
      var t := c.parse(body.value).value;
      WalkIdempotent(c, t, false);
      WalkLoadable(c, t, false);
      assert c.parse(c.print_(Walk(c, t, false).0)) == Some(Walk(c, t, false).0);
    }
  }

  /** A body comes out different exactly when it is JSON with something to mask in it. */
  lemma RedactBodyChanges(c: Config, body: Option<seq<Byte>>)
    requires JsonInverse(c)
    ensures RedactBody(c, body) != body <==>
            && c.enabled && body.Some? && !BlankBytes(body.value) && c.parse(body.value).Some?
            && Walk(c, c.parse(body.value).value, false).1
  {
    if body.Some? && c.parse(body.value).Some? {
      var t := c.parse(body.value).value;
      WalkReportsChange(c, t, false);
      WalkLoadable(c, t, false);
      assert c.parse(c.print_(Walk(c, t, false).0)) == Some(Walk(c, t, false).0);
    }
  }

  /** What redaction makes of a body: JSON comes out as the JSON that is redacted at every
      place, in the same bytes if that is the same tree; anything else as it was. */
  ghost predicate BodyRedacted(c: Config, before: Option<seq<Byte>>, after: Option<seq<Byte>>) {
    if before.None? || BlankBytes(before.value) || c.parse(before.value).None? then after == before
    else
      && after.Some? && c.parse(after.value).Some?
      && (var t, r := c.parse(before.value).value, c.parse(after.value).value;
          && TreeRedacted(c, t, r)
          && after.value == if r == t then before.value else c.print_(r))
  }

  /** The same places in both, and at each what redaction by its nearest enclosing key makes of it. */
  ghost predicate TreeRedacted(c: Config, t: Json, r: Json) {
    forall path ::
      && (At(r, path).Some? <==> At(t, path).Some?)
      && (At(t, path).Some? ==>
            RedactedTo(c, At(t, path).value, At(r, path).value, Hits(c, NearestKey(t, path, None))))
  }

  lemma RedactBodyCovers(c: Config, body: Option<seq<Byte>>)
    requires c.enabled && JsonInverse(c)
    ensures BodyRedacted(c, body, RedactBody(c, body))
  {
    if body.Some? && c.parse(body.value).Some? {
      var t := c.parse(body.value).value;
      var r := Walk(c, t, false).0;
      hide Walk, At, RedactedTo, NearestKey;
      forall path
        ensures (At(r, path).Some? <==> At(t, path).Some?)
        ensures At(t, path).Some? ==>
                  RedactedTo(c, At(t, path).value, At(r, path).value, Hits(c, NearestKey(t, path, None)))
      {
        WalkPlaceByPlace(c, t, None, path);
      }
      WalkReportsChange(c, t, false);
      WalkLoadable(c, t, false);
      assert c.parse(c.print_(r)) == Some(r);
    }
  }

  // --------------------------------------------------------------- whole records

  /** A request as far as redaction sees it; `rest` is everything else. */
  datatype Request = Request(headers: Pairs, body: Option<seq<Byte>>, query: Pairs, url: string, rest: string)

  datatype Response = Response(headers: Pairs, body: Option<seq<Byte>>, rest: string)

  datatype Message = Message(payload: seq<Byte>, rest: string)

  datatype Record = Record(request: Option<Request>, response: Option<Response>, messages: seq<Message>, rest: string)

  function RedactHeaders(c: Config, headers: Pairs): Pairs {
    if c.enabled then RedactPairs(headers, c.headerHit, c.digest) else headers
  }

  function RedactQuery(c: Config, query: Pairs): Pairs {
    if c.enabled then RedactPairs(query, c.queryHit, c.digest) else query
  }

  /** The URL is rebuilt only when a query parameter was masked. */
  function RedactRequest(c: Config, r: Request): Request {
    var query := RedactQuery(c, r.query);
    Request(RedactHeaders(c, r.headers), RedactBody(c, r.body), query,
            if query != r.query then RebuildUrl(r.url, query) else r.url, r.rest)
  }

  function RedactResponse(c: Config, r: Response): Response {
    Response(RedactHeaders(c, r.headers), RedactBody(c, r.body), r.rest)
  }

  function RedactMessage(c: Config, m: Message): Message {
    Message(RedactBody(c, Some(m.payload)).GetOr([]), m.rest)
  }

  function RedactRecord(c: Config, r: Record): Record {
    if !c.enabled then r
    else
      Record(
        if r.request.Some? then Some(RedactRequest(c, r.request.value)) else None,
        if r.response.Some? then Some(RedactResponse(c, r.response.value)) else None,
        seq(|r.messages|, i requires 0 <= i < |r.messages| => RedactMessage(c, r.messages[i])),
        r.rest)
  }

  /** After redaction no header or parameter that a pattern names carries a readable
      value, the others are as they were, and the two copies of the query agree: a
      URL with a query, when rebuilt, reads back as exactly the redacted pairs. */
  lemma RequestCovered(c: Config, r: Request)
    requires c.enabled
    ensures var out := RedactRequest(c, r);
            && Covered(r.headers, out.headers, c.headerHit, c.digest)
            && Covered(r.query, out.query, c.queryHit, c.digest)
            && (out.query == r.query ==> out.url == r.url)
            && (out.query != r.query && Split(r.url).query.Some? ==>
                  var now := Split(out.url);
                  && now.base == Split(r.url).base && now.fragment == Split(r.url).fragment
                  && now.query.Some? && |ReadQuery(now.query.value)| == |r.query|
                  && forall i :: 0 <= i < |r.query| ==>
                       ReadQuery(now.query.value)[i] == (Some(out.query[i].0), Some(out.query[i].1)))
  {
    hide RebuildUrl, ReadQuery, Split, RedactPair, IsMasked, Mask;
    PairsCovered(r.headers, c.headerHit, c.digest);
    PairsCovered(r.query, c.queryHit, c.digest);
    if Split(r.url).query.Some? {
      RebuiltReads(r.url, RedactQuery(c, r.query));
    }
  }

  /** Same names in the same order; a value under a matching name is empty or masked, a
      readable one by its own mask, and no other value differs. */
  predicate Covered(before: Pairs, after: Pairs, hit: string -> bool, digest: string -> nat) {
    && |after| == |before|
    && forall i :: 0 <= i < |before| ==>
         && after[i].0 == before[i].0
         && (hit(before[i].0) ==> after[i].1 == "" || IsMasked(after[i].1))
         && (after[i].1 == before[i].1 || (hit(before[i].0) && after[i].1 == Mask(before[i].1, digest)))
         && (before[i].1 == "" || IsMasked(before[i].1) ==> after[i].1 == before[i].1)
  }

  lemma PairsCovered(pairs: Pairs, hit: string -> bool, digest: string -> nat)
    ensures Covered(pairs, RedactPairs(pairs, hit, digest), hit, digest)
  {
    hide IsMasked, Mask;
    forall i | 0 <= i < |pairs| ensures IsMasked(Mask(pairs[i].1, digest)) {
      MaskIsMasked(pairs[i].1, digest);
    }
  }

  ghost predicate RequestRedacted(c: Config, before: Request, after: Request) {
    && Covered(before.headers, after.headers, c.headerHit, c.digest)
    && BodyRedacted(c, before.body, after.body)
    && Covered(before.query, after.query, c.queryHit, c.digest)
    && (if after.query == before.query then after.url == before.url
        else CarriesQuery(before.url, after.url, after.query))
    && after.rest == before.rest
  }

  ghost predicate ResponseRedacted(c: Config, before: Response, after: Response) {
    && Covered(before.headers, after.headers, c.headerHit, c.digest)
    && BodyRedacted(c, before.body, after.body)
    && after.rest == before.rest
  }

  ghost predicate MessageRedacted(c: Config, before: Message, after: Message) {
    BodyRedacted(c, Some(before.payload), Some(after.payload)) && after.rest == before.rest
  }

  /** The whole record: every header, parameter, URL, body and frame in it is redacted,
      nothing else is touched, and a redactor that is off does nothing. */
  lemma RecordRedacted(c: Config, r: Record)
    requires JsonInverse(c)
    ensures var out := RedactRecord(c, r);
            if !c.enabled then out == r
            else
              && (out.request.Some? <==> r.request.Some?)
              && (r.request.Some? ==> RequestRedacted(c, r.request.value, out.request.value))
              && (out.response.Some? <==> r.response.Some?)
              && (r.response.Some? ==> ResponseRedacted(c, r.response.value, out.response.value))
              && |out.messages| == |r.messages|
              && (forall i :: 0 <= i < |r.messages| ==> MessageRedacted(c, r.messages[i], out.messages[i]))
              && out.rest == r.rest
  {
    hide Covered, BodyRedacted, CarriesQuery, RedactBody, RedactPairs, RebuildUrl, JsonInverse;
    if c.enabled {
      if r.request.Some? {
        var q := r.request.value;
        PairsCovered(q.headers, c.headerHit, c.digest);
        PairsCovered(q.query, c.queryHit, c.digest);
        RedactBodyCovers(c, q.body);
        RebuiltCarries(q.url, RedactQuery(c, q.query));
      }
      if r.response.Some? {
        PairsCovered(r.response.value.headers, c.headerHit, c.digest);
        RedactBodyCovers(c, r.response.value.body);
      }
      forall i | 0 <= i < |r.messages|
        ensures MessageRedacted(c, r.messages[i], RedactMessage(c, r.messages[i]))
      {
        RedactBodyCovers(c, Some(r.messages[i].payload));
        StaysPresent(c, r.messages[i].payload);
      }
    }
  }

  /** Switched off, redaction leaves every part alone. */
  lemma OffLeaves(c: Config, request: Request, response: Response, message: Message)
    requires !c.enabled
    ensures RedactRequest(c, request) == request && RedactResponse(c, response) == response
    ensures RedactMessage(c, message) == message
  {
  }

  lemma StaysPresent(c: Config, payload: seq<Byte>)
    ensures RedactBody(c, Some(payload)).Some?
  {
  }

  /** Redacting a redacted record changes nothing: not a header, body, parameter,
      frame or URL. */
  lemma RedactRecordIdempotent(c: Config, r: Record)
    requires JsonInverse(c)
    ensures var once := RedactRecord(c, r); RedactRecord(c, once) == once
  {
    if c.enabled {
      var once := RedactRecord(c, r);
      if r.request.Some? {
        var q := r.request.value;
        RedactPairsIdempotent(q.headers, c.headerHit, c.digest);
        RedactBodyIdempotent(c, q.body);
        RedactPairsIdempotent(q.query, c.queryHit, c.digest);
      }
      if r.response.Some? {
        RedactPairsIdempotent(r.response.value.headers, c.headerHit, c.digest);
        RedactBodyIdempotent(c, r.response.value.body);
      }
      forall i | 0 <= i < |r.messages|
        ensures RedactMessage(c, once.messages[i]) == once.messages[i]
      {
        RedactBodyIdempotent(c, Some(r.messages[i].payload));
      }
      assert RedactRecord(c, once).messages == once.messages;
    }
  }
}
