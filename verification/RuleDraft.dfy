/** The rule builder's form model: rules read into a draft and written back
    (web/src/lib/rule-draft.ts). */
module RuleDraft {
  import opened Seqs
  import opened Text

  /** A parsed YAML value. An absent key is `None` wherever a key is looked up. */
  datatype Value =
    | Null
    | Bool(b: bool)
    | Num(n: int)
    | Str(s: string)
    | List(items: seq<Value>)
    | Obj(fields: map<string, Value>)

  type Record = map<string, Value>

  function Get(m: Record, key: string): Option<Value> {
    if key in m then Some(m[key]) else None
  }

  function Put(m: Record, key: string, v: Option<Value>): Record {
    if v.Some? then m[key := v.value] else m
  }

  /** Two records with the same keys and values are the same record. */
  lemma SameRecord(m: Record, n: Record)
    requires forall k :: Get(m, k) == Get(n, k)
    ensures m == n
  {
    assert forall k :: k in m <==> Get(m, k).Some?;
    assert forall k :: k in n <==> Get(n, k).Some?;
    assert forall k :: k in m ==> m[k] == Get(m, k).value;
  }

  /** JavaScript's `String(value)`. */
  function JsString(v: Value): string
    decreases v, 1
  {
    match v
    case Null => "null"
    case Bool(b) => if b then "true" else "false"
    case Num(n) => if n < 0 then "-" + Digits(-n) else Digits(n)
    case Str(s) => s
    case List(items) => JsJoin(items)
    case Obj(_) => "[object Object]"
  }

  /** An array's own text: elements joined by commas, nulls as nothing. */
  function JsJoin(items: seq<Value>): string
    decreases items, 0
  {
    if items == [] then ""
    else
      var head := if items[0].Null? then "" else JsString(items[0]);
      if |items| == 1 then head else head + "," + JsJoin(items[1..])
  }

  function AsString(v: Option<Value>): string {
    if v.None? || v.value.Null? then "" else JsString(v.value)
  }

  // --------------------------------------------------------------- text fields

  function WriteText(text: string): Option<Value> {
    if Blank(text) then None else Some(Str(text))
  }

  predicate OkText(v: Option<Value>) {
    v.None? || (v.value.Str? && !Blank(v.value.s))
  }

  lemma TextRoundTrip(v: Option<Value>)
    ensures WriteText(AsString(v)) == v <==> OkText(v)
  {
  }

  // ------------------------------------------------- fields that may hold a list

  datatype MultiField = MultiField(text: string, list: bool)

  function ReadMulti(v: Option<Value>): MultiField {
    if v.None? || v.value.Null? then MultiField("", false)
    else if v.value.List? then MultiField(JoinWith(Strings(v.value.items), ", "), true)
    else MultiField(JsString(v.value), false)
  }

  function Strings(items: seq<Value>): (r: seq<string>)
    ensures |r| == |items|
    ensures forall i :: 0 <= i < |items| ==> r[i] == JsString(items[i])
  {
    seq(|items|, i requires 0 <= i < |items| => JsString(items[i]))
  }

  /** The trimmed, non-empty pieces. */
  function Cleaned(parts: seq<string>): seq<string> {
    if parts == [] then []
    else (if Trim(parts[0]) == "" then [] else [Trim(parts[0])]) + Cleaned(parts[1..])
  }

  function SplitList(text: string): seq<string> {
    Cleaned(SplitOn(text, ','))
  }

  /** How a list field's pieces become a value; `each` turns one piece into one. */
  function WritePieces(f: MultiField, each: string -> Value): Option<Value> {
    var parts := SplitList(f.text);
    if parts == [] then None
    else if |parts| == 1 && !f.list then Some(each(parts[0]))
    else Some(List(Values(parts, each)))
  }

  function Values(parts: seq<string>, each: string -> Value): (r: seq<Value>)
    ensures |r| == |parts|
    ensures forall i :: 0 <= i < |parts| ==> r[i] == each(parts[i])
  {
    seq(|parts|, i requires 0 <= i < |parts| => each(parts[i]))
  }

  function WriteMulti(f: MultiField): Option<Value> {
    WritePieces(f, (part: string) => Str(part))
  }

  function StatusValue(part: string): Value {
    if AllDigits(part) then Num(Number(part)) else Str(part)
  }

  function WriteStatus(f: MultiField): Option<Value> {
    WritePieces(f, (part: string) => StatusValue(part))
  }

  /** A piece that survives splitting and trimming: non-empty, trimmed, comma-free. */
  predicate Clean(s: string) {
    s != "" && Trimmed(s) && Lacks(s, ',')
  }

  predicate OkPiece(v: Value) {
    v.Str? && Clean(v.s)
  }

  predicate OkStatusPiece(v: Value) {
    (v.Num? && v.n >= 0) || (v.Str? && Clean(v.s) && !AllDigits(v.s))
  }

  /** Absent, one good piece, or a non-empty list of them. */
  predicate OkPieces(v: Option<Value>, ok: Value -> bool) {
    v.None? || ok(v.value) ||
    (v.value.List? && v.value.items != [] && forall i :: 0 <= i < |v.value.items| ==> ok(v.value.items[i]))
  }

  lemma {:induction false} TrimLeftPiece(s: string)
    ensures |TrimLeft(s)| <= |s| && TrimLeft(s) == s[|s| - |TrimLeft(s)|..]
  {
    if s != "" && IsSpace(s[0]) {
      TrimLeftPiece(s[1..]);
    }
  }

  lemma TrimLacks(s: string, c: char)
    requires Lacks(s, c)
    ensures Lacks(Trim(s), c)
  {
    TrimLeftPiece(s);
    TrimRightKeepsHead(TrimLeft(s));
    var t := TrimLeft(s);
    assert Trim(s) == t[..|Trim(s)|];
    assert forall i :: 0 <= i < |t| ==> t[i] == s[|s| - |t| + i];
  }

  lemma {:induction false} CleanedAreClean(parts: seq<string>)
    requires forall i :: 0 <= i < |parts| ==> Lacks(parts[i], ',')
    ensures forall i :: 0 <= i < |Cleaned(parts)| ==> Clean(Cleaned(parts)[i])
  {
    if parts == [] {
    } else {
      CleanedAreClean(parts[1..]);
      TrimIsTrimmed(parts[0]);
      TrimLacks(parts[0], ',');
    }
  }

  lemma SplitListIsClean(text: string)
    ensures forall i :: 0 <= i < |SplitList(text)| ==> Clean(SplitList(text)[i])
  {
    SplitPiecesLack(text, ',');
    CleanedAreClean(SplitOn(text, ','));
  }

  /** Clean pieces joined with `, ` split back into themselves; a space in front
      does not matter. */
  lemma {:induction false} SplitListOfJoin(parts: seq<string>, lead: string)
    requires parts != [] && (lead == "" || lead == " ")
    requires forall i :: 0 <= i < |parts| ==> Clean(parts[i])
    ensures SplitList(lead + JoinWith(parts, ", ")) == parts
    decreases |parts|
  {
    var p := parts[0];
    var a := lead + p;
    TrimOfLead(lead, p);
    assert Lacks(a, ',');
    if |parts| == 1 {
      SplitLacking(a, ',');
      assert lead + JoinWith(parts, ", ") == a;
      assert [a][1..] == [];
      assert Cleaned([a]) == [p] + Cleaned([]);
      assert parts == [p];
    } else {
      var rest := " " + JoinWith(parts[1..], ", ");
      assert lead + JoinWith(parts, ", ") == a + [','] + rest;
      SplitFirst(a, ',', rest);
      SplitListOfJoin(parts[1..], " ");
      assert ([a] + SplitOn(rest, ','))[1..] == SplitOn(rest, ',');
      assert parts == [p] + parts[1..];
    }
  }

  lemma TrimOfLead(lead: string, p: string)
    requires lead == "" || lead == " "
    requires p != "" && Trimmed(p)
    ensures Trim(lead + p) == p
  {
    TrimFixed(p);
    if lead == " " {
      assert (lead + p)[1..] == p;
    } else {
      assert lead + p == p;
    }
  }

  lemma SplitListOfClean(s: string)
    requires Clean(s)
    ensures SplitList(s) == [s]
  {
    SplitListOfJoin([s], "");
    assert "" + JoinWith([s], ", ") == s;
  }

  /** A method or destination criterion comes back as it was exactly when it is
      absent, one clean string, or a non-empty list of clean strings. */
  lemma MultiRoundTrip(v: Option<Value>)
    ensures WriteMulti(ReadMulti(v)) == v <==> OkPieces(v, (x: Value) => OkPiece(x))
  {
    hide SplitList, JsString;
    SplitListIsClean(ReadMulti(v).text);
    if v.Some? && v.value.List? {
      var items := v.value.items;
      if items != [] && forall i :: 0 <= i < |items| ==> OkPiece(items[i]) {
        MultiListBack(items);
      }
    } else if v.Some? && OkPiece(v.value) {
      StringText(v.value.s);
      SplitListOfClean(v.value.s);
    } else if v.None? || v.value.Null? {
      NoPieces();
    }
  }

  lemma StringText(s: string)
    ensures JsString(Str(s)) == s
  {
  }

  lemma MultiListBack(items: seq<Value>)
    requires items != [] && forall i :: 0 <= i < |items| ==> OkPiece(items[i])
    ensures WriteMulti(ReadMulti(Some(List(items)))) == Some(List(items))
  {
    SplitListOfJoin(Strings(items), "");
    var text := JoinWith(Strings(items), ", ");
    assert "" + text == text;
    assert Values(Strings(items), (part: string) => Str(part)) == items;
  }

  lemma StatusPieceText(v: Value)
    requires OkStatusPiece(v)
    ensures Clean(JsString(v)) && StatusValue(JsString(v)) == v
  {
    if v.Num? {
      NumberOfDigits(v.n);
      DigitsAreClean(v.n);
    }
  }

  lemma DigitsAreClean(n: nat)
    ensures Clean(Digits(n))
  {
  }

  lemma StatusListBack(items: seq<Value>)
    requires items != [] && forall i :: 0 <= i < |items| ==> OkStatusPiece(items[i])
    ensures WriteStatus(ReadMulti(Some(List(items)))) == Some(List(items))
  {
    forall i | 0 <= i < |items|
      ensures Clean(Strings(items)[i]) && StatusValue(Strings(items)[i]) == items[i]
    {
      StatusPieceText(items[i]);
    }
    SplitListOfJoin(Strings(items), "");
    var text := JoinWith(Strings(items), ", ");
    assert "" + text == text;
    assert Values(Strings(items), (part: string) => StatusValue(part)) == items;
  }

  /** A status criterion comes back exactly when its pieces are non-negative
      integers, or clean strings that are not all digits. */
  lemma StatusRoundTrip(v: Option<Value>)
    ensures WriteStatus(ReadMulti(v)) == v <==> OkPieces(v, (x: Value) => OkStatusPiece(x))
  {
    hide SplitList, JsString;
    SplitListIsClean(ReadMulti(v).text);
    if v.Some? && v.value.List? {
      var items := v.value.items;
      if items != [] && forall i :: 0 <= i < |items| ==> OkStatusPiece(items[i]) {
        StatusListBack(items);
      }
    } else if v.Some? && OkStatusPiece(v.value) {
      StatusPieceText(v.value);
      SplitListOfClean(JsString(v.value));
    } else if v.None? || v.value.Null? {
      NoPieces();
    }
  }

  lemma NoPieces()
    ensures SplitList("") == []
  {
  }

  /** The text between two commas, trimmed, if anything is left of it. */
  function Piece(text: string): seq<string> {
    if Blank(text) then [] else [Trim(text)]
  }

  /** What a comma-separated text stands for. */
  lemma SplitListIs(a: string, rest: string)
    requires Lacks(a, ',')
    ensures SplitList(a) == Piece(a)
    ensures SplitList(a + "," + rest) == Piece(a) + SplitList(rest)
  {
    hide Trim;
    SplitLacking(a, ',');
    SplitFirst(a, ',', rest);
    assert a + "," + rest == a + [','] + rest;
    assert [a][1..] == [] && Cleaned([a]) == Piece(a) + Cleaned([]);
    var parts := [a] + SplitOn(rest, ',');
    assert parts[1..] == SplitOn(rest, ',');
  }

  /** What is typed in a text field is there when the rule is opened again. */
  lemma TextTyped(text: string)
    ensures AsString(WriteText(text)) == if Blank(text) then "" else text
    ensures WriteText(text).None? <==> Blank(text)
  {
  }

  lemma StringsOf(parts: seq<string>)
    ensures Strings(Values(parts, (part: string) => Str(part))) == parts
  {
  }

  /** Every piece that is typed is there when the rule is opened again, in the same order;
      several are a list, and so is one if it was read from a list. */
  lemma MultiTyped(f: MultiField)
    ensures var back := ReadMulti(WriteMulti(f));
            && SplitList(back.text) == SplitList(f.text)
            && (back.list <==> |SplitList(f.text)| > 1 || (f.list && SplitList(f.text) != []))
  {
    var parts := SplitList(f.text);
    SplitListIsClean(f.text);
    NoPieces();
    hide SplitList;
    if parts != [] {
      StringsOf(parts);
      var text := JoinWith(parts, ", ");
      SplitListOfJoin(parts, "");
      assert "" + text == text;
      assert |parts| == 1 ==> text == parts[0];
    }
  }

  /** How a status piece reads when it is opened again: a number without leading zeros. */
  function StatusText(part: string): string {
    if AllDigits(part) then Digits(Number(part)) else part
  }

  function StatusTexts(parts: seq<string>): (r: seq<string>)
    ensures |r| == |parts| && forall i :: 0 <= i < |parts| ==> r[i] == StatusText(parts[i])
  {
    seq(|parts|, i requires 0 <= i < |parts| => StatusText(parts[i]))
  }

  lemma StatusStrings(parts: seq<string>)
    ensures Strings(Values(parts, (part: string) => StatusValue(part))) == StatusTexts(parts)
  {
    hide Digits, Number;
    forall i | 0 <= i < |parts|
      ensures JsString(StatusValue(parts[i])) == StatusText(parts[i])
    {
    }
  }

  /** Statuses likewise, each as the number or range it stands for. */
  lemma StatusTyped(f: MultiField)
    ensures var back := ReadMulti(WriteStatus(f));
            && SplitList(back.text) == StatusTexts(SplitList(f.text))
            && (back.list <==> |SplitList(f.text)| > 1 || (f.list && SplitList(f.text) != []))
  {
    var parts := SplitList(f.text);
    var texts := StatusTexts(parts);
    SplitListIsClean(f.text);
    NoPieces();
    hide SplitList, Digits, Number;
    if parts != [] {
      StatusStrings(parts);
      forall i | 0 <= i < |parts| ensures Clean(texts[i]) {
        if AllDigits(parts[i]) {
          DigitsAreClean(Number(parts[i]));
        }
      }
      var text := JoinWith(texts, ", ");
      SplitListOfJoin(texts, "");
      assert "" + text == text;
      assert |parts| == 1 ==> text == texts[0] == Strings(Values(parts, (part: string) => StatusValue(part)))[0];
    }
  }

  // ---------------------------------------------------------------- key/value rows

  datatype Pair = Pair(key: string, value: string, presenceOnly: bool)

  /** The entries of a record, in some order: no theorem depends on which. */
  ghost function Entries(m: Record): seq<(string, Value)>
    decreases |m|
  {
    if m == map[] then []
    else
      var k :| k in m;
      [(k, m[k])] + Entries(m - {k})
  }

  ghost function ReadPairs(v: Option<Value>): seq<Pair> {
    if v.None? || !v.value.Obj? then []
    else RowsOf(Entries(v.value.fields))
  }

  function RowsOf(es: seq<(string, Value)>): seq<Pair> {
    if es == [] then []
    else [Pair(es[0].0, AsString(Some(es[0].1)), es[0].1.Null?)] + RowsOf(es[1..])
  }

  /** The rows with a usable key, assigned in order. */
  function Assigned(pairs: seq<Pair>, allowNull: bool): Record {
    if pairs == [] then map[]
    else
      var p := pairs[|pairs| - 1];
      var before := Assigned(pairs[..|pairs| - 1], allowNull);
      if Blank(p.key) then before
      else before[p.key := if allowNull && p.presenceOnly then Null else Str(p.value)]
  }

  function WritePairs(pairs: seq<Pair>, allowNull: bool): Option<Value> {
    var out := Assigned(pairs, allowNull);
    if out == map[] then None else Some(Obj(out))
  }

  predicate OkPairs(v: Option<Value>, allowNull: bool) {
    v.None? ||
    (&& v.value.Obj? && v.value.fields != map[]
     && forall k :: k in v.value.fields ==>
          !Blank(k) && (v.value.fields[k].Str? || (allowNull && v.value.fields[k].Null?)))
  }

  /** What a record of rows comes back as, key by key. */
  function PairBack(key: string, v: Value, allowNull: bool): Option<Value> {
    if Blank(key) then None
    else if allowNull && v.Null? then Some(Null)
    else Some(Str(AsString(Some(v))))
  }

  lemma {:induction false} AssignedConcat(a: seq<Pair>, b: seq<Pair>, allowNull: bool)
    ensures Assigned(a + b, allowNull) == Assigned(a, allowNull) + Assigned(b, allowNull)
  {
    if b == [] {
      assert a + b == a;
    } else {
      var c, n := a + b, |b| - 1;
      var init, p := b[..n], b[n];
      assert c[..|c| - 1] == a + init && c[|c| - 1] == p;
      AssignedConcat(a, init, allowNull);
      var v := if allowNull && p.presenceOnly then Null else Str(p.value);
      MergeThenPut(Assigned(a, allowNull), Assigned(init, allowNull), p.key, v);
    }
  }

  lemma MergeThenPut(m: Record, n: Record, key: string, v: Value)
    ensures (m + n)[key := v] == m + n[key := v]
  {
  }

  lemma {:induction false} RowsBack(m: Record, allowNull: bool, key: string)
    ensures Get(Assigned(RowsOf(Entries(m)), allowNull), key) ==
            if key in m then PairBack(key, m[key], allowNull) else None
    decreases |m|
  {
    var es := Entries(m);
    if m == map[] {
    } else {
      var k, v := es[0].0, es[0].1;
      var head := [Pair(k, AsString(Some(v)), v.Null?)];
      assert es[1..] == Entries(m - {k});
      RowsBack(m - {k}, allowNull, key);
      AssignedConcat(head, RowsOf(es[1..]), allowNull);
      assert head[..0] == [];
      assert Assigned(head, allowNull) ==
             if Blank(k) then map[] else map[][k := if allowNull && v.Null? then Null else Str(AsString(Some(v)))];
    }
  }

  /** Query, header-presence and header-edit rows come back exactly when there is
      at least one, every key is non-blank and every value is a string (or, where
      presence alone may be asked for, null). */
  lemma PairsRoundTrip(v: Option<Value>, allowNull: bool)
    ensures WritePairs(ReadPairs(v), allowNull) == v <==> OkPairs(v, allowNull)
  {
    if v.Some? && v.value.Obj? {
      var m := v.value.fields;
      var back := Assigned(ReadPairs(v), allowNull);
      forall k
        ensures Get(back, k) == if k in m then PairBack(k, m[k], allowNull) else None
      {
        RowsBack(m, allowNull, k);
      }
      if OkPairs(v, allowNull) {
        SameRecord(back, m);
      }
      if back == m {
        assert forall k :: k in m ==> Get(m, k) == PairBack(k, m[k], allowNull);
      }
    } else {
      assert Assigned([], allowNull) == map[];
    }
  }

  predicate NoneNames(pairs: seq<Pair>, key: string) {
    forall i :: 0 <= i < |pairs| ==> pairs[i].key != key
  }

  /** A key of the record that rows write holds the value of the last row naming it, or null
      where that row asks for presence only and may. */
  lemma {:induction false} PairsWritten(pairs: seq<Pair>, allowNull: bool, i: nat)
    requires i < |pairs| && !Blank(pairs[i].key)
    requires forall j :: i < j < |pairs| ==> pairs[j].key != pairs[i].key
    ensures Get(Assigned(pairs, allowNull), pairs[i].key) ==
            Some(if allowNull && pairs[i].presenceOnly then Null else Str(pairs[i].value))
  {
    hide Blank, Assigned, Get;
    AssignedAt(pairs, allowNull, pairs[i].key);
    if i < |pairs| - 1 {
      PairsWritten(pairs[..|pairs| - 1], allowNull, i);
    }
  }

  /** Only a key that is not blank and that some row names is in the record. */
  lemma {:induction false} KeysWritten(pairs: seq<Pair>, allowNull: bool, key: string)
    ensures key in Assigned(pairs, allowNull) <==> !Blank(key) && !NoneNames(pairs, key)
  {
    hide Blank;
    if pairs == [] {
    } else {
      var init := pairs[..|pairs| - 1];
      KeysWritten(init, allowNull, key);
      assert pairs == init + [pairs[|init|]];
    }
  }

  /** What the last row does to one key. */
  lemma AssignedAt(pairs: seq<Pair>, allowNull: bool, key: string)
    requires pairs != []
    ensures var p := pairs[|pairs| - 1];
            Get(Assigned(pairs, allowNull), key) ==
            if key == p.key && !Blank(key) then Some(if allowNull && p.presenceOnly then Null else Str(p.value))
            else Get(Assigned(pairs[..|pairs| - 1], allowNull), key)
  {
    hide Blank;
  }

  /** Rows of blank keys are no record at all. */
  lemma NoPairsWritten(pairs: seq<Pair>, allowNull: bool)
    ensures WritePairs(pairs, allowNull).None? <==> forall i :: 0 <= i < |pairs| ==> Blank(pairs[i].key)
    ensures WritePairs(pairs, allowNull).Some? ==> WritePairs(pairs, allowNull) == Some(Obj(Assigned(pairs, allowNull)))
  {
    hide Blank, Assigned;
    var out := Assigned(pairs, allowNull);
    if WritePairs(pairs, allowNull).None? {
      forall i | 0 <= i < |pairs| ensures Blank(pairs[i].key) {
        KeysWritten(pairs, allowNull, pairs[i].key);
      }
    } else {
      var k :| k in out;
      KeysWritten(pairs, allowNull, k);
    }
  }

  // ------------------------------------------------------------------ header edits

  datatype HeaderEdits = HeaderEdits(add: seq<Pair>, set_: seq<Pair>, remove: seq<string>, present: bool)

  const NO_EDITS := HeaderEdits([], [], [], false)

  ghost function ReadEdits(v: Option<Value>): HeaderEdits {
    if v.None? || !v.value.Obj? then NO_EDITS
    else
      var m := v.value.fields;
      HeaderEdits(ReadPairs(Get(m, "add")), ReadPairs(Get(m, "set")), ReadRemove(Get(m, "remove")), true)
  }

  function ReadRemove(v: Option<Value>): seq<string> {
    if v.Some? && v.value.List? then Strings(v.value.items) else []
  }

  predicate Named(name: string) {
    !Blank(name)
  }

  function NonBlank(names: seq<string>): seq<string> {
    Filter(names, Named)
  }

  function WriteRemove(names: seq<string>): Option<Value> {
    if NonBlank(names) == [] then None else Some(List(Values(NonBlank(names), (s: string) => Str(s))))
  }

  function EditsRecord(d: HeaderEdits): Record {
    Put(Put(Put(map[], "add", WritePairs(d.add, false)), "remove", WriteRemove(d.remove)), "set", WritePairs(d.set_, false))
  }

  function WriteEdits(d: HeaderEdits): Option<Value> {
    var out := EditsRecord(d);
    if out == map[] && !d.present then None else Some(Obj(out))
  }

  predicate OkRemove(v: Option<Value>) {
    v.None? ||
    (v.value.List? && v.value.items != []
     && forall i :: 0 <= i < |v.value.items| ==> v.value.items[i].Str? && !Blank(v.value.items[i].s))
  }

  predicate OkEdits(v: Option<Value>) {
    v.None? ||
    (&& v.value.Obj?
     && var m := v.value.fields;
        && m.Keys <= {"add", "remove", "set"}
        && OkPairs(Get(m, "add"), false) && OkRemove(Get(m, "remove")) && OkPairs(Get(m, "set"), false))
  }

  lemma NonBlankAre(names: seq<string>)
    ensures forall i :: 0 <= i < |NonBlank(names)| ==> !Blank(NonBlank(names)[i])
    ensures (forall i :: 0 <= i < |names| ==> !Blank(names[i])) ==> NonBlank(names) == names
  {
    hide Blank, Filter;
    FilterHolds(names, Named);
    assert forall i :: 0 <= i < |NonBlank(names)| ==> Named(NonBlank(names)[i]);
    if forall i :: 0 <= i < |names| ==> !Blank(names[i]) {
      assert forall x :: x in names ==> Named(x);
      FilterAll(names, Named);
    }
  }

  lemma RemoveRoundTrip(v: Option<Value>)
    ensures WriteRemove(ReadRemove(v)) == v <==> OkRemove(v)
  {
    NonBlankAre(ReadRemove(v));
    if v.Some? && v.value.List? && OkRemove(v) {
      assert Values(Strings(v.value.items), (s: string) => Str(s)) == v.value.items;
    }
  }

  /** Every name to remove that is not blank is there again, in the same order. */
  lemma RemoveTyped(names: seq<string>)
    ensures ReadRemove(WriteRemove(names)) == Filter(names, (name: string) => Trim(name) != "")
  {
    StringsOf(NonBlank(names));
    FilterSame(names, Named, (name: string) => Trim(name) != "");
  }

  lemma EditsAt(d: HeaderEdits, key: string)
    ensures Get(EditsRecord(d), key) ==
            if key == "add" then WritePairs(d.add, false)
            else if key == "remove" then WriteRemove(d.remove)
            else if key == "set" then WritePairs(d.set_, false)
            else None
  {
  }

  /** Header edits come back exactly when they are absent, or a record of nothing
      but well-formed `add`, `remove` and `set`. */
  lemma EditsRoundTrip(v: Option<Value>)
    ensures WriteEdits(ReadEdits(v)) == v <==> OkEdits(v)
  {
    if v.Some? && v.value.Obj? {
      hide WritePairs, WriteRemove, ReadPairs, ReadRemove, OkPairs, OkRemove, EditsRecord;
      var m := v.value.fields;
      var out := EditsRecord(ReadEdits(v));
      PairsRoundTrip(Get(m, "add"), false);
      RemoveRoundTrip(Get(m, "remove"));
      PairsRoundTrip(Get(m, "set"), false);
      forall k
        ensures Get(out, k) ==
                if k == "add" then WritePairs(ReadPairs(Get(m, "add")), false)
                else if k == "remove" then WriteRemove(ReadRemove(Get(m, "remove")))
                else if k == "set" then WritePairs(ReadPairs(Get(m, "set")), false)
                else None
      {
        EditsAt(ReadEdits(v), k);
      }
      if OkEdits(v) {
        forall k ensures Get(out, k) == Get(m, k) {
          assert k in m.Keys ==> k in {"add", "remove", "set"};
        }
        SameRecord(out, m);
      }
      if out == m {
        forall k | k in m.Keys ensures k in {"add", "remove", "set"} {
          assert Get(out, k).Some?;
        }
      }
    }
  }

  // ---------------------------------------------------------------- the match block

  const MATCH_KEYS: set<string> :=
    {"host", "path", "method", "dest", "status", "content_type", "query", "request_headers"}

  datatype MatchDraft = MatchDraft(
    host: string,
    path: string,
    method_: MultiField,
    dest: MultiField,
    status: MultiField,
    contentType: string,
    query: seq<Pair>,
    requestHeaders: seq<Pair>,
    extra: Record,
    present: bool)

  const NO_MATCH := MatchDraft("", "", MultiField("", false), MultiField("", false), MultiField("", false), "", [], [], map[], false)

  /** JavaScript reads an array as a record of its indices. */
  function Indexed(items: seq<Value>): Record {
    if items == [] then map[]
    else Indexed(items[..|items| - 1])[Digits(|items| - 1) := items[|items| - 1]]
  }

  function Omit(m: Record, keys: set<string>): Record {
    m - keys
  }

  ghost function ReadMatch(v: Option<Value>): MatchDraft {
    if v.None? || !(v.value.Obj? || v.value.List?) then NO_MATCH
    else
      var m := if v.value.Obj? then v.value.fields else Indexed(v.value.items);
      MatchDraft(
        AsString(Get(m, "host")), AsString(Get(m, "path")),
        ReadMulti(Get(m, "method")), ReadMulti(Get(m, "dest")), ReadMulti(Get(m, "status")),
        AsString(Get(m, "content_type")),
        ReadPairs(Get(m, "query")), ReadPairs(Get(m, "request_headers")),
        Omit(m, MATCH_KEYS), true)
  }

  /** The record the form's own fields write. */
  function MatchFields(d: MatchDraft): Record {
    var m := Put(Put(RequestFields(d), "status", WriteStatus(d.status)), "content_type", WriteText(d.contentType));
    Put(Put(m, "query", WritePairs(d.query, false)), "request_headers", WritePairs(d.requestHeaders, true))
  }

  function RequestFields(d: MatchDraft): Record {
    var m := Put(Put(map[], "host", WriteText(d.host)), "path", WriteText(d.path));
    Put(Put(m, "method", WriteMulti(d.method_)), "dest", WriteMulti(d.dest))
  }

  function WriteMatch(d: MatchDraft): Option<Value> {
    var out := MatchFields(d) + d.extra;
    if out == map[] && !d.present then None else Some(Obj(out))
  }

  /** What the form's own field for `key` writes. */
  function MatchField(d: MatchDraft, key: string): Option<Value> {
    if key == "host" then WriteText(d.host)
    else if key == "path" then WriteText(d.path)
    else if key == "method" then WriteMulti(d.method_)
    else if key == "dest" then WriteMulti(d.dest)
    else if key == "status" then WriteStatus(d.status)
    else if key == "content_type" then WriteText(d.contentType)
    else if key == "query" then WritePairs(d.query, false)
    else if key == "request_headers" then WritePairs(d.requestHeaders, true)
    else None
  }

  /** When the value of one modelled key survives the form. */
  predicate OkMatchKey(key: string, v: Option<Value>) {
    if key in {"host", "path", "content_type"} then OkText(v)
    else if key in {"method", "dest"} then OkPieces(v, (x: Value) => OkPiece(x))
    else if key == "status" then OkPieces(v, (x: Value) => OkStatusPiece(x))
    else OkPairs(v, key == "request_headers")
  }

  predicate OkMatch(v: Option<Value>) {
    v.None? || (v.value.Obj? && forall k :: k in MATCH_KEYS ==> OkMatchKey(k, Get(v.value.fields, k)))
  }

  lemma PutAt(m: Record, key: string, v: Option<Value>, k: string)
    ensures Get(Put(m, key, v), k) == if k == key && v.Some? then v else Get(m, k)
  {
  }

  lemma RequestFieldsAt(d: MatchDraft, key: string)
    ensures Get(RequestFields(d), key) == if key in {"host", "path", "method", "dest"} then MatchField(d, key) else None
  {
  }

  lemma MatchFieldsAt(d: MatchDraft, key: string)
    ensures Get(MatchFields(d), key) == MatchField(d, key)
  {
    hide WriteText, WriteMulti, WriteStatus, WritePairs, RequestFields;
    RequestFieldsAt(d, key);
  }

  /** Records that can differ on `owned` keys only, and agree there exactly when `ok`. */
  lemma AgreeExactly(m: Record, out: Record, owned: set<string>, ok: (string, Option<Value>) -> bool)
    requires forall k :: k !in owned ==> Get(out, k) == Get(m, k)
    requires forall k :: k in owned ==> (Get(out, k) == Get(m, k) <==> ok(k, Get(m, k)))
    ensures out == m <==> forall k :: k in owned ==> ok(k, Get(m, k))
  {
    if forall k :: k in owned ==> ok(k, Get(m, k)) {
      forall k ensures Get(out, k) == Get(m, k) {
        assert k in owned ==> ok(k, Get(m, k));
      }
      SameRecord(out, m);
    }
  }

  lemma MatchKeyRoundTrip(m: Record, key: string)
    requires key in MATCH_KEYS
    ensures MatchField(ReadMatch(Some(Obj(m))), key) == Get(m, key) <==> OkMatchKey(key, Get(m, key))
  {
    hide WriteText, WriteMulti, WriteStatus, WritePairs, ReadMulti, ReadPairs, OkText, OkPieces, OkPairs, AsString, Omit;
    var v := Get(m, key);
    if key in {"host", "path", "content_type"} {
      TextRoundTrip(v);
    } else if key in {"method", "dest"} {
      MultiRoundTrip(v);
    } else if key == "status" {
      StatusRoundTrip(v);
    } else {
      PairsRoundTrip(v, key == "request_headers");
    }
  }

  /** Every key the form does not own goes through untouched, so a match block
      comes back exactly when each owned key is well formed. */
  lemma MatchRoundTrip(v: Option<Value>)
    ensures WriteMatch(ReadMatch(v)) == v <==> OkMatch(v)
  {
    if v.Some? && v.value.Obj? {
      var m := v.value.fields;
      var d := ReadMatch(v);
      var out := MatchFields(d) + d.extra;
      hide MatchFields, MatchField, OkMatchKey;
      forall k
        ensures k !in MATCH_KEYS ==> Get(out, k) == Get(m, k)
        ensures k in MATCH_KEYS ==> (Get(out, k) == Get(m, k) <==> OkMatchKey(k, Get(m, k)))
      {
        MatchFieldsAt(d, k);
        if k in MATCH_KEYS {
          MatchKeyRoundTrip(m, k);
        } else {
          OnlyMatchKeys(d, k);
        }
      }
      AgreeExactly(m, out, MATCH_KEYS, (k: string, x: Option<Value>) => OkMatchKey(k, x));
    } else if v.None? {
      assert MatchFields(NO_MATCH) + map[] == map[] by {
        NoMatchWritesNothing();
      }
    }
  }

  lemma OnlyMatchKeys(d: MatchDraft, key: string)
    requires key !in MATCH_KEYS
    ensures MatchField(d, key) == None
  {
  }

  lemma NoMatchWritesNothing()
    ensures MatchFields(NO_MATCH) == map[]
  {
  }

  // ------------------------------------------------------------------- redirects

  const REDIRECT_KEYS: set<string> := {"scheme", "host", "port", "path", "query"}

  datatype Redirect = Redirect(scheme: string, host: string, port: string, path: string, query: string)

  const NO_REDIRECT := Redirect("", "", "", "", "")

  function ReadRedirect(v: Option<Value>): Redirect {
    if v.None? || !v.value.Obj? then NO_REDIRECT
    else
      var m := v.value.fields;
      Redirect(AsString(Get(m, "scheme")), AsString(Get(m, "host")), AsString(Get(m, "port")),
               AsString(Get(m, "path")), AsString(Get(m, "query")))
  }

  /** A port of digits becomes a number; anything else is kept as typed. */
  function WritePort(text: string): Option<Value> {
    if Blank(text) then None
    else if AllDigits(Trim(text)) then Some(Num(Number(Trim(text))))
    else Some(Str(text))
  }

  /** A local file's status: digits become a number, anything else is trimmed. */
  function WritePlainStatus(text: string): Option<Value> {
    if Blank(text) then None else Some(StatusValue(Trim(text)))
  }

  function RedirectFields(d: Redirect): Record {
    var m1 := Put(Put(map[], "scheme", WriteText(d.scheme)), "host", WriteText(d.host));
    Put(Put(Put(m1, "port", WritePort(d.port)), "path", WriteText(d.path)), "query", WriteText(d.query))
  }

  function WriteRedirect(d: Redirect): Option<Value> {
    var out := RedirectFields(d);
    if out == map[] then None else Some(Obj(out))
  }

  predicate OkPort(v: Option<Value>) {
    v.None? || (v.value.Num? && v.value.n >= 0) ||
    (v.value.Str? && !Blank(v.value.s) && !AllDigits(Trim(v.value.s)))
  }

  predicate OkPlainStatus(v: Option<Value>) {
    v.None? || (v.value.Num? && v.value.n >= 0) ||
    (v.value.Str? && v.value.s != "" && Trimmed(v.value.s) && !AllDigits(v.value.s))
  }

  predicate OkRedirectKey(key: string, v: Option<Value>) {
    if key == "port" then OkPort(v) else OkText(v)
  }

  /** A redirect target is well formed when it has a handled key and no others. */
  predicate OkRedirect(v: Option<Value>) {
    v.None? ||
    (&& v.value.Obj? && v.value.fields != map[] && v.value.fields.Keys <= REDIRECT_KEYS
     && forall k :: k in REDIRECT_KEYS ==> OkRedirectKey(k, Get(v.value.fields, k)))
  }

  lemma DigitsTrimmed(n: nat)
    ensures Trim(Digits(n)) == Digits(n) && Digits(n) != ""
  {
  }

  lemma PortRoundTrip(v: Option<Value>)
    ensures WritePort(AsString(v)) == v <==> OkPort(v)
  {
    if v.Some? && v.value.Num? && v.value.n >= 0 {
      DigitsTrimmed(v.value.n);
      NumberOfDigits(v.value.n);
    }
  }

  /** A typed port reads as the number it stands for, or as it was typed; a local status
      likewise, but trimmed. */
  lemma PortTyped(text: string)
    requires !Blank(text)
    ensures AsString(WritePort(text)) == if AllDigits(Trim(text)) then Digits(Number(Trim(text))) else text
    ensures AsString(WritePlainStatus(text)) == StatusText(Trim(text))
  {
    hide Digits, Number;
  }

  lemma PlainStatusRoundTrip(v: Option<Value>)
    ensures WritePlainStatus(AsString(v)) == v <==> OkPlainStatus(v)
  {
    if v.Some? && v.value.Num? && v.value.n >= 0 {
      DigitsTrimmed(v.value.n);
      NumberOfDigits(v.value.n);
    } else if v.Some? && v.value.Str? {
      TrimFixed(v.value.s);
      TrimIsTrimmed(v.value.s);
    }
  }

  lemma RedirectFieldsAt(d: Redirect, key: string)
    ensures Get(RedirectFields(d), key) ==
            if key == "scheme" then WriteText(d.scheme)
            else if key == "host" then WriteText(d.host)
            else if key == "port" then WritePort(d.port)
            else if key == "path" then WriteText(d.path)
            else if key == "query" then WriteText(d.query)
            else None
  {
  }

  lemma RedirectKeyRoundTrip(m: Record, key: string)
    ensures Get(RedirectFields(ReadRedirect(Some(Obj(m)))), key) == Get(m, key) <==>
            if key in REDIRECT_KEYS then OkRedirectKey(key, Get(m, key)) else key !in m
  {
    hide WriteText, WritePort, OkText, OkPort, RedirectFields, AsString;
    RedirectFieldsAt(ReadRedirect(Some(Obj(m))), key);
    TextRoundTrip(Get(m, key));
    PortRoundTrip(Get(m, key));
  }

  /** A redirect target comes back exactly when it is well formed: keys beyond the
      five handled ones, or an empty target, are lost. */
  lemma RedirectRoundTrip(v: Option<Value>)
    ensures WriteRedirect(ReadRedirect(v)) == v <==> OkRedirect(v)
  {
    if v.Some? && v.value.Obj? {
      hide RedirectFields, OkRedirectKey, ReadRedirect;
      var m := v.value.fields;
      var out := RedirectFields(ReadRedirect(v));
      var ok := (k: string, x: Option<Value>) => if k in REDIRECT_KEYS then OkRedirectKey(k, x) else x.None?;
      var owned := REDIRECT_KEYS + m.Keys;
      forall k
        ensures k !in owned ==> Get(out, k) == Get(m, k)
        ensures k in owned ==> (Get(out, k) == Get(m, k) <==> ok(k, Get(m, k)))
      {
        RedirectKeyRoundTrip(m, k);
      }
      AgreeExactly(m, out, owned, ok);
      assert (forall k :: k in owned ==> ok(k, Get(m, k))) <==>
             m.Keys <= REDIRECT_KEYS && forall k :: k in REDIRECT_KEYS ==> OkRedirectKey(k, Get(m, k)) by {
        assert forall k :: k in REDIRECT_KEYS ==> k in owned;
        assert forall k :: k in m.Keys ==> k in owned;
      }
    } else {
      assert RedirectFields(NO_REDIRECT) == map[];
    }
  }

  // ------------------------------------------------------------------ whole rules

  const ACTIONS: set<string> := {"passthrough", "block", "map_local", "redirect", "headers", "body"}

  const COMMON_KEYS: set<string> := {"name", "enabled", "match", "action"}

  /** The keys the form owns for an action. */
  function ActionKeys(action: string): set<string> {
    if action == "block" then {"mode", "stub"}
    else if action == "map_local" then {"file", "content_type", "status"}
    else if action == "redirect" then {"to"}
    else if action == "headers" then {"request", "response"}
    else if action == "body" then {"transform"}
    else {}
  }

  /** `action` is kept as it was written: a list spelling a known name passes the
      test for known names, but no comparison with a name. */
  datatype RuleDraft = RuleDraft(
    name: string,
    enabled: bool,
    enabledPresent: bool,
    action: Value,
    match_: MatchDraft,
    mode: string,
    stub: string,
    file: string,
    contentType: string,
    status: string,
    redirect: Redirect,
    request: HeaderEdits,
    response: HeaderEdits,
    transform: string,
    extra: Record)

  function Truthy(v: Value): bool {
    match v
    case Null => false
    case Bool(b) => b
    case Num(n) => n != 0
    case Str(s) => s != ""
    case _ => true
  }

  /** A string is read as such; anything else leaves the field empty. */
  function ReadString(v: Option<Value>): string {
    if v.Some? && v.value.Str? then v.value.s else ""
  }

  function ReadAction(raw: Record): Value {
    if AsString(Get(raw, "action")) in ACTIONS then raw["action"] else Str("block")
  }

  /** What the form cannot show, kept verbatim. */
  function ReadExtra(raw: Record, action: Value): Record {
    var extra := Omit(raw, COMMON_KEYS + ActionKeys(JsString(action)));
    if action == Str("block") && "stub" in raw && !raw["stub"].Str? then extra["stub" := raw["stub"]]
    else if action == Str("body") && "transform" in raw && ReadString(Get(raw, "transform")) == "" then
      extra["transform" := raw["transform"]]
    else extra
  }

  ghost function RuleToDraft(raw: Record): RuleDraft {
    var action := ReadAction(raw);
    var block, local, headers := action == Str("block"), action == Str("map_local"), action == Str("headers");
    RuleDraft(
      AsString(Get(raw, "name")),
      "enabled" !in raw || Truthy(raw["enabled"]),
      "enabled" in raw,
      action,
      ReadMatch(Get(raw, "match")),
      if block then AsString(Get(raw, "mode")) else "",
      if block then ReadString(Get(raw, "stub")) else "",
      if local then AsString(Get(raw, "file")) else "",
      if local then AsString(Get(raw, "content_type")) else "",
      if local then AsString(Get(raw, "status")) else "",
      if action == Str("redirect") then ReadRedirect(Get(raw, "to")) else NO_REDIRECT,
      if headers then ReadEdits(Get(raw, "request")) else NO_EDITS,
      if headers then ReadEdits(Get(raw, "response")) else NO_EDITS,
      if action == Str("body") then ReadString(Get(raw, "transform")) else "",
      ReadExtra(raw, action))
  }

  function CommonFields(d: RuleDraft): Record {
    var m := map["name" := Str(d.name)];
    var enabled := if d.enabledPresent || !d.enabled then Some(Bool(d.enabled)) else None;
    Put(Put(Put(m, "enabled", enabled), "match", WriteMatch(d.match_)), "action", Some(d.action))
  }

  function ActionFields(d: RuleDraft, m: Record): Record {
    if d.action == Str("block") then
      Put(Put(m, "mode", WriteText(d.mode)), "stub", WriteText(d.stub))
    else if d.action == Str("map_local") then
      Put(Put(Put(m, "file", WriteText(d.file)), "content_type", WriteText(d.contentType)),
          "status", WritePlainStatus(d.status))
    else if d.action == Str("redirect") then
      Put(m, "to", WriteRedirect(d.redirect))
    else if d.action == Str("headers") then
      Put(Put(m, "request", WriteEdits(d.request)), "response", WriteEdits(d.response))
    else if d.action == Str("body") then
      Put(m, "transform", WriteText(d.transform))
    else m
  }

  function DraftToRule(d: RuleDraft): Record {
    ActionFields(d, CommonFields(d)) + d.extra
  }

  /** What the form's own field for `key` writes, before `extra`. */
  function RuleField(d: RuleDraft, key: string): Option<Value> {
    if key == "name" then Some(Str(d.name))
    else if key == "enabled" then if d.enabledPresent || !d.enabled then Some(Bool(d.enabled)) else None
    else if key == "match" then WriteMatch(d.match_)
    else if key == "action" then Some(d.action)
    else if d.action == Str("block") then
      if key == "mode" then WriteText(d.mode) else if key == "stub" then WriteText(d.stub) else None
    else if d.action == Str("map_local") then
      if key == "file" then WriteText(d.file)
      else if key == "content_type" then WriteText(d.contentType)
      else if key == "status" then WritePlainStatus(d.status)
      else None
    else if d.action == Str("redirect") then
      if key == "to" then WriteRedirect(d.redirect) else None
    else if d.action == Str("headers") then
      if key == "request" then WriteEdits(d.request) else if key == "response" then WriteEdits(d.response) else None
    else if d.action == Str("body") then
      if key == "transform" then WriteText(d.transform) else None
    else None
  }

  lemma CommonFieldAt(d: RuleDraft, key: string)
    ensures Get(CommonFields(d), key) == if key in COMMON_KEYS then RuleField(d, key) else None
  {
  }

  lemma RuleFieldAt(d: RuleDraft, key: string)
    ensures Get(ActionFields(d, CommonFields(d)), key) == RuleField(d, key)
  {
    hide WriteText, WritePlainStatus, WriteRedirect, WriteEdits, CommonFields, Put, Get;
    CommonFieldAt(d, key);
    var m := CommonFields(d);
    if d.action == Str("block") {
      PutAt(m, "mode", WriteText(d.mode), key);
      PutAt(Put(m, "mode", WriteText(d.mode)), "stub", WriteText(d.stub), key);
    } else if d.action == Str("map_local") {
      var m1 := Put(m, "file", WriteText(d.file));
      PutAt(m, "file", WriteText(d.file), key);
      PutAt(m1, "content_type", WriteText(d.contentType), key);
      PutAt(Put(m1, "content_type", WriteText(d.contentType)), "status", WritePlainStatus(d.status), key);
    } else if d.action == Str("redirect") {
      PutAt(m, "to", WriteRedirect(d.redirect), key);
    } else if d.action == Str("headers") {
      PutAt(m, "request", WriteEdits(d.request), key);
      PutAt(Put(m, "request", WriteEdits(d.request)), "response", WriteEdits(d.response), key);
    } else if d.action == Str("body") {
      PutAt(m, "transform", WriteText(d.transform), key);
    }
  }

  /** When the value of one owned key survives, under the action the form reads. */
  predicate OkRuleKey(action: Value, key: string, v: Option<Value>) {
    if key == "name" then v.Some? && v.value.Str?
    else if key == "enabled" then v.None? || v.value.Bool?
    else if key == "match" then OkMatch(v)
    else if key == "action" then AsString(v) in ACTIONS
    else if action == Str("block") then
      if key == "mode" then OkText(v) else v.None? || !v.value.Str? || !Blank(v.value.s)
    else if action == Str("map_local") then
      if key == "status" then OkPlainStatus(v) else OkText(v)
    else if action == Str("redirect") then OkRedirect(v)
    else if action == Str("headers") then OkEdits(v)
    else if action == Str("body") then v.None? || !v.value.Str? || v.value.s == "" || !Blank(v.value.s)
    else v.None?
  }

  function OwnedKeys(raw: Record): set<string> {
    COMMON_KEYS + ActionKeys(JsString(ReadAction(raw)))
  }

  /** The rules the form loses nothing of: every key it owns is well formed. What
      the other keys hold does not matter. */
  predicate WellFormed(raw: Record) {
    forall k :: k in OwnedKeys(raw) ==> OkRuleKey(ReadAction(raw), k, Get(raw, k))
  }

  lemma ExtraAt(raw: Record, action: Value, key: string)
    ensures Get(ReadExtra(raw, action), key) ==
            if key !in COMMON_KEYS + ActionKeys(JsString(action)) then Get(raw, key)
            else if key == "stub" && action == Str("block") && "stub" in raw && !raw["stub"].Str? then Get(raw, key)
            else if key == "transform" && action == Str("body") && "transform" in raw && ReadString(Get(raw, "transform")) == ""
            then Get(raw, key)
            else None
  {
  }

  /** One key of the rule that comes back. */
  lemma BackAt(raw: Record, key: string)
    ensures var d := RuleToDraft(raw);
            var x := Get(ReadExtra(raw, ReadAction(raw)), key);
            Get(DraftToRule(d), key) == if x.Some? then x else RuleField(d, key)
  {
    hide ActionFields, CommonFields, RuleField, ReadExtra;
    RuleFieldAt(RuleToDraft(raw), key);
  }

  lemma CommonFieldsRead(raw: Record)
    ensures var d := RuleToDraft(raw);
            && d.name == AsString(Get(raw, "name"))
            && d.enabled == ("enabled" !in raw || Truthy(raw["enabled"])) && d.enabledPresent == ("enabled" in raw)
            && d.action == ReadAction(raw)
            && d.match_ == ReadMatch(Get(raw, "match"))
  {
    hide ReadAction, ReadMatch, ReadExtra, ReadRedirect, ReadEdits, ReadString, AsString, Truthy;
  }

  lemma CommonKeyRoundTrip(raw: Record, key: string)
    requires key in COMMON_KEYS
    ensures RuleField(RuleToDraft(raw), key) == Get(raw, key) <==> OkRuleKey(ReadAction(raw), key, Get(raw, key))
  {
    hide RuleToDraft, ReadMatch, WriteMatch, OkMatch;
    CommonFieldsRead(raw);
    MatchRoundTrip(Get(raw, "match"));
  }

  lemma BlockKeyRoundTrip(raw: Record, key: string)
    requires ReadAction(raw) == Str("block") && key in {"mode", "stub"}
    ensures var x := Get(ReadExtra(raw, ReadAction(raw)), key);
            (if x.Some? then x else RuleField(RuleToDraft(raw), key)) == Get(raw, key) <==>
            OkRuleKey(ReadAction(raw), key, Get(raw, key))
  {
    hide ReadMatch, ReadExtra, WriteText, Blank, ReadAction;
    var v := Get(raw, key);
    ExtraAt(raw, ReadAction(raw), key);
    TextRoundTrip(v);
    StubText(v);
  }

  lemma BodyKeyRoundTrip(raw: Record)
    requires ReadAction(raw) == Str("body")
    ensures var x := Get(ReadExtra(raw, ReadAction(raw)), "transform");
            (if x.Some? then x else RuleField(RuleToDraft(raw), "transform")) == Get(raw, "transform") <==>
            OkRuleKey(ReadAction(raw), "transform", Get(raw, "transform"))
  {
    hide ReadMatch, ReadExtra, WriteText, Blank, ReadAction;
    ExtraAt(raw, ReadAction(raw), "transform");
    StubText(Get(raw, "transform"));
  }

  /** The other actions keep nothing back. */
  lemma PlainKeyRoundTrip(raw: Record, key: string)
    requires ReadAction(raw) in {Str("map_local"), Str("redirect"), Str("headers")}
    requires key in ActionKeys(JsString(ReadAction(raw))) && key !in COMMON_KEYS
    ensures Get(ReadExtra(raw, ReadAction(raw)), key) == None
    ensures RuleField(RuleToDraft(raw), key) == Get(raw, key) <==> OkRuleKey(ReadAction(raw), key, Get(raw, key))
  {
    hide ReadMatch, ReadRedirect, WriteRedirect, OkRedirect, ReadEdits, WriteEdits, OkEdits, ReadExtra, WriteText,
         WritePlainStatus, OkPlainStatus, Blank, ReadAction;
    var v := Get(raw, key);
    ExtraAt(raw, ReadAction(raw), key);
    TextRoundTrip(v);
    PlainStatusRoundTrip(v);
    RedirectRoundTrip(v);
    EditsRoundTrip(v);
  }

  /** A known name that is not spelled as a string owns its keys and writes none. */
  lemma OddActionRoundTrip(raw: Record, key: string)
    requires ReadAction(raw) !in {Str("block"), Str("body"), Str("map_local"), Str("redirect"), Str("headers")}
    requires key in ActionKeys(JsString(ReadAction(raw))) && key !in COMMON_KEYS
    ensures Get(ReadExtra(raw, ReadAction(raw)), key) == None
    ensures RuleField(RuleToDraft(raw), key) == Get(raw, key) <==> OkRuleKey(ReadAction(raw), key, Get(raw, key))
  {
    hide ReadMatch, ReadExtra, ReadAction;
    ExtraAt(raw, ReadAction(raw), key);
  }

  lemma ActionKeyRoundTrip(raw: Record, key: string)
    requires key in ActionKeys(JsString(ReadAction(raw))) && key !in COMMON_KEYS
    ensures var x := Get(ReadExtra(raw, ReadAction(raw)), key);
            (if x.Some? then x else RuleField(RuleToDraft(raw), key)) == Get(raw, key) <==>
            OkRuleKey(ReadAction(raw), key, Get(raw, key))
  {
    hide ReadExtra, RuleField, RuleToDraft, OkRuleKey;
    var action := ReadAction(raw);
    if action == Str("block") {
      BlockKeyRoundTrip(raw, key);
    } else if action == Str("body") {
      BodyKeyRoundTrip(raw);
    } else if action in {Str("map_local"), Str("redirect"), Str("headers")} {
      PlainKeyRoundTrip(raw, key);
    } else {
      OddActionRoundTrip(raw, key);
    }
  }

  lemma StubText(v: Option<Value>)
    ensures v.Some? && v.value.Str? ==> (WriteText(ReadString(v)) == v <==> !Blank(v.value.s))
    ensures v.None? ==> WriteText(ReadString(v)) == None
    ensures WriteText("") == None
  {
  }

  /** Key by key, in any rule: what the form owns comes back exactly if it is well
      formed, and what the form does not own always does. */
  lemma KeyRoundTrip(raw: Record, key: string)
    ensures Get(DraftToRule(RuleToDraft(raw)), key) == Get(raw, key) <==>
            (key in OwnedKeys(raw) ==> OkRuleKey(ReadAction(raw), key, Get(raw, key)))
  {
    hide DraftToRule, RuleToDraft, RuleField, OkRuleKey, ReadExtra;
    BackAt(raw, key);
    ExtraAt(raw, ReadAction(raw), key);
    if key in COMMON_KEYS {
      CommonKeyRoundTrip(raw, key);
    } else if key in OwnedKeys(raw) {
      ActionKeyRoundTrip(raw, key);
    } else {
      OnlyRuleKeys(raw, key);
    }
  }

  /** A rule opened in the builder and written back is the same rule exactly when
      it is well formed. The keys the form does not own survive in every rule. */
  lemma RuleRoundTrip(raw: Record)
    ensures DraftToRule(RuleToDraft(raw)) == raw <==> WellFormed(raw)
    ensures forall k :: k !in OwnedKeys(raw) ==> Get(DraftToRule(RuleToDraft(raw)), k) == Get(raw, k)
  {
    hide DraftToRule, RuleToDraft, OkRuleKey, OwnedKeys, ReadAction;
    var out := DraftToRule(RuleToDraft(raw));
    var owned := OwnedKeys(raw);
    var ok := (k: string, x: Option<Value>) => OkRuleKey(ReadAction(raw), k, x);
    forall k
      ensures k !in owned ==> Get(out, k) == Get(raw, k)
      ensures k in owned ==> (Get(out, k) == Get(raw, k) <==> ok(k, Get(raw, k)))
    {
      KeyRoundTrip(raw, k);
    }
    AgreeExactly(raw, out, owned, ok);
  }

  // ------------------------------------------------- what the form writes is well formed

  lemma PiecesOk(f: MultiField)
    ensures OkPieces(WriteMulti(f), (x: Value) => OkPiece(x))
    ensures OkPieces(WriteStatus(f), (x: Value) => OkStatusPiece(x))
  {
    SplitListIsClean(f.text);
    hide SplitList, Clean;
  }

  lemma {:induction false} AssignedOk(pairs: seq<Pair>, allowNull: bool)
    ensures var m := Assigned(pairs, allowNull);
            forall k :: k in m ==> !Blank(k) && (m[k].Str? || (allowNull && m[k].Null?))
  {
    if pairs == [] {
    } else {
      hide Blank;
      AssignedOk(pairs[..|pairs| - 1], allowNull);
    }
  }

  lemma PairsOk(pairs: seq<Pair>, allowNull: bool)
    ensures OkPairs(WritePairs(pairs, allowNull), allowNull)
  {
    AssignedOk(pairs, allowNull);
  }

  lemma EditsOk(d: HeaderEdits)
    ensures OkEdits(WriteEdits(d))
  {
    PairsOk(d.add, false);
    PairsOk(d.set_, false);
    NonBlankAre(d.remove);
    hide WritePairs, OkPairs, NonBlank, Blank;
    var m := EditsRecord(d);
    EditsAt(d, "add");
    EditsAt(d, "remove");
    EditsAt(d, "set");
    forall k | k in m ensures k in {"add", "remove", "set"} {
      EditsAt(d, k);
    }
  }

  lemma PortOk(text: string)
    ensures OkPort(WritePort(text)) && OkPlainStatus(WritePlainStatus(text)) && OkText(WriteText(text))
  {
    TrimIsTrimmed(text);
    hide Trim, AllDigits, Number;
  }

  lemma RedirectOk(d: Redirect)
    ensures OkRedirect(WriteRedirect(d))
  {
    var m := RedirectFields(d);
    hide RedirectFields, WriteText, WritePort, OkPort, OkText;
    forall k
      ensures k in m ==> k in REDIRECT_KEYS
      ensures k in REDIRECT_KEYS ==> OkRedirectKey(k, Get(m, k))
    {
      RedirectFieldsAt(d, k);
      PortOk(d.scheme);
      PortOk(d.host);
      PortOk(d.port);
      PortOk(d.path);
      PortOk(d.query);
    }
  }

  lemma MatchFieldOk(d: MatchDraft, key: string)
    requires key in MATCH_KEYS
    ensures OkMatchKey(key, MatchField(d, key))
  {
    PortOk(d.host);
    PortOk(d.path);
    PortOk(d.contentType);
    PiecesOk(d.method_);
    PiecesOk(d.dest);
    PiecesOk(d.status);
    PairsOk(d.query, false);
    PairsOk(d.requestHeaders, true);
    hide WriteText, WriteMulti, WriteStatus, WritePairs, OkText, OkPieces, OkPairs, OkPiece, OkStatusPiece;
  }

  /** A written match block is well formed exactly if what was put beside the form's own
      fields is: of the keys they own, each that stands there as well. */
  lemma MatchWritten(d: MatchDraft)
    ensures OkMatch(WriteMatch(d)) <==>
            forall k :: k in MATCH_KEYS && k in d.extra ==> OkMatchKey(k, Some(d.extra[k]))
  {
    hide MatchFields, MatchField, OkMatchKey;
    var out := MatchFields(d) + d.extra;
    forall k | k in MATCH_KEYS
      ensures OkMatchKey(k, Get(out, k)) <==> (k in d.extra ==> OkMatchKey(k, Some(d.extra[k])))
    {
      MatchFieldsAt(d, k);
      MatchFieldOk(d, k);
      assert Get(out, k) == if k in d.extra then Some(d.extra[k]) else Get(MatchFields(d), k);
    }
  }

  lemma FieldOk(d: RuleDraft, key: string)
    requires d.action.Str? && d.action.s in ACTIONS
    requires key in COMMON_KEYS + ActionKeys(d.action.s) && key != "match"
    ensures OkRuleKey(d.action, key, RuleField(d, key))
  {
    PortOk(d.mode);
    PortOk(d.stub);
    PortOk(d.file);
    PortOk(d.contentType);
    PortOk(d.status);
    PortOk(d.transform);
    RedirectOk(d.redirect);
    EditsOk(d.request);
    EditsOk(d.response);
    hide WriteText, Blank, WritePlainStatus, WriteRedirect, WriteEdits, OkPlainStatus, OkRedirect, OkEdits;
  }

  /** What is well formed beside the form's own fields: every key they own that stands in
      `extra` as well, and in the match block's `extra` unless that is overridden. */
  predicate OkExtras(d: RuleDraft) {
    && d.action.Str? && d.action.s in ACTIONS
    && (forall k :: k in d.extra && k in COMMON_KEYS + ActionKeys(d.action.s) ==>
          OkRuleKey(d.action, k, Some(d.extra[k])))
    && ("match" in d.extra ||
        forall k :: k in MATCH_KEYS && k in d.match_.extra ==> OkMatchKey(k, Some(d.match_.extra[k])))
  }

  lemma WrittenAt(d: RuleDraft, key: string)
    ensures Get(DraftToRule(d), key) == if key in d.extra then Some(d.extra[key]) else RuleField(d, key)
  {
    hide ActionFields, CommonFields, RuleField;
    RuleFieldAt(d, key);
  }

  /** Whatever is entered in the form, the rule it writes is well formed, and so is the same
      rule when it is opened and written again, exactly if the free-form keys beside it are
      well formed where they stand in for the form's own. */
  lemma WrittenWellFormed(d: RuleDraft)
    requires d.action.Str? && d.action.s in ACTIONS && "action" !in d.extra
    ensures WellFormed(DraftToRule(d)) <==> OkExtras(d)
    ensures DraftToRule(RuleToDraft(DraftToRule(d))) == DraftToRule(d) <==> OkExtras(d)
  {
    var raw := DraftToRule(d);
    RuleRoundTrip(raw);
    WrittenAction(d);
    MatchWritten(d.match_);
    hide DraftToRule, RuleToDraft, RuleField, OkRuleKey, ReadAction, OkMatchKey, OkMatch, WriteMatch;
    forall k | k in OwnedKeys(raw)
      ensures OkRuleKey(d.action, k, Get(raw, k)) <==>
              if k in d.extra then OkRuleKey(d.action, k, Some(d.extra[k]))
              else k != "match" || OkMatch(WriteMatch(d.match_))
    {
      WrittenAt(d, k);
      if k != "match" {
        FieldOk(d, k);
      } else {
        MatchIs(d);
      }
    }
  }

  lemma MatchIs(d: RuleDraft)
    ensures RuleField(d, "match") == WriteMatch(d.match_)
    ensures forall v :: OkRuleKey(d.action, "match", v) == OkMatch(v)
  {
  }

  lemma WrittenAction(d: RuleDraft)
    requires d.action.Str? && d.action.s in ACTIONS && "action" !in d.extra
    ensures ReadAction(DraftToRule(d)) == d.action
    ensures OwnedKeys(DraftToRule(d)) == COMMON_KEYS + ActionKeys(d.action.s)
  {
    hide DraftToRule;
    WrittenAt(d, "action");
  }

  lemma OnlyRuleKeys(raw: Record, key: string)
    requires key !in OwnedKeys(raw)
    ensures RuleField(RuleToDraft(raw), key) == None
  {
  }

  /** A rule with an owned key that is not well formed comes back as another rule. */
  lemma IllFormedChanges(raw: Record, key: string)
    requires key in OwnedKeys(raw) && !OkRuleKey(ReadAction(raw), key, Get(raw, key))
    ensures DraftToRule(RuleToDraft(raw)) != raw
  {
    hide DraftToRule, RuleToDraft, OkRuleKey, ReadAction;
    RuleRoundTrip(raw);
  }

  lemma ActionIs(raw: Record, action: string)
    requires "action" in raw && raw["action"] == Str(action) && action in ACTIONS
    ensures ReadAction(raw) == Str(action) && OwnedKeys(raw) == COMMON_KEYS + ActionKeys(action)
  {
  }

  /** The documentation says a redirect's extra keys survive in `extra`; they do not. */
  lemma RedirectExtraWitness()
    ensures var to := Obj(map["host" := Str("h"), "fragment" := Str("x")]);
            var raw: Record := map["name" := Str("r"), "action" := Str("redirect"), "to" := to];
            DraftToRule(RuleToDraft(raw)) != raw
  {
    hide DraftToRule, RuleToDraft, ReadAction, OwnedKeys;
    var to := Obj(map["host" := Str("h"), "fragment" := Str("x")]);
    var raw: Record := map["name" := Str("r"), "action" := Str("redirect"), "to" := to];
    ActionIs(raw, "redirect");
    assert "fragment" in to.fields.Keys && "fragment" !in REDIRECT_KEYS;
    IllFormedChanges(raw, "to");
  }

  /** Nor does an empty list of methods, which the rule schema allows. */
  lemma EmptyListWitness()
    ensures var m := Obj(map["method" := List([])]);
            var raw: Record := map["name" := Str("r"), "action" := Str("block"), "match" := m];
            DraftToRule(RuleToDraft(raw)) != raw
  {
    hide DraftToRule, RuleToDraft, ReadAction, OwnedKeys;
    var m := Obj(map["method" := List([])]);
    var raw: Record := map["name" := Str("r"), "action" := Str("block"), "match" := m];
    ActionIs(raw, "block");
    assert !OkMatchKey("method", Get(m.fields, "method"));
    IllFormedChanges(raw, "match");
  }
}
