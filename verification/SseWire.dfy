/** The event stream's text: printed by the daemon
    (daemon/src/pporlock/control/events.py), put together again from arbitrary
    chunks by the web client (web/src/api/events.ts). Event streams are sections
    9.2.5 and 9.2.6 of the WHATWG HTML Living Standard. */
module SseWire {
  import opened Seqs
  import opened Text

  /** What the daemon writes: an event, or a comment such as a heartbeat. */
  datatype Item =
    | Event(id: nat, kind: string, payload: string)
    | Comment(text: string)

  const BLANK: string := "\n\n"

  /** The text of one item, without the blank line that ends it. */
  function Body(x: Item): string {
    match x
    case Event(id, kind, payload) =>
      ("id: " + Digits(id)) + "\n" + ("event: " + kind) + "\n" + ("data: " + payload)
    case Comment(text) => ": " + text
  }

  function Print(x: Item): string {
    Body(x) + BLANK
  }

  /** No field contains a line feed: JSON text and event names never do. */
  predicate Printable(x: Item) {
    match x
    case Event(_, kind, payload) => Lacks(kind, '\n') && Lacks(payload, '\n') && payload != ""
    case Comment(text) => Lacks(text, '\n')
  }

  function PrintAll(xs: seq<Item>): string {
    if xs == [] then "" else Print(xs[0]) + PrintAll(xs[1..])
  }

  // ---------------------------------------------------------- cutting into frames

  /** Where the first blank line starts; the length when there is none. */
  function Boundary(s: string): (i: nat)
    ensures i <= |s|
    ensures i < |s| ==> i + 1 < |s| && s[i] == '\n' && s[i + 1] == '\n'
    ensures forall k :: 0 <= k < i && k + 1 < |s| ==> !(s[k] == '\n' && s[k + 1] == '\n')
  {
    if |s| < 2 then |s|
    else if s[0] == '\n' && s[1] == '\n' then 0
    else
      var r := Boundary(s[1..]);
      assert forall k :: 0 < k < |s| ==> s[k] == s[1..][k - 1];
      1 + r
  }

  lemma BoundaryIs(s: string, i: nat)
    requires i <= |s|
    requires i < |s| ==> i + 1 < |s| && s[i] == '\n' && s[i + 1] == '\n'
    requires forall k :: 0 <= k < i && k + 1 < |s| ==> !(s[k] == '\n' && s[k + 1] == '\n')
    ensures Boundary(s) == i
  {
  }

  /** The complete frames in a buffer. */
  function Frames(s: string): seq<string>
    decreases |s|
  {
    var i := Boundary(s);
    if i == |s| then [] else [s[..i]] + Frames(s[i + 2..])
  }

  /** What stays in the buffer. */
  function Leftover(s: string): (r: string)
    ensures Boundary(r) == |r|
    ensures |r| <= |s|
    decreases |s|
  {
    var i := Boundary(s);
    if i == |s| then s else Leftover(s[i + 2..])
  }

  lemma FramesStep(s: string)
    ensures var i := Boundary(s);
            if i == |s| then Frames(s) == [] && Leftover(s) == s
            else Frames(s) == [s[..i]] + Frames(s[i + 2..]) && Leftover(s) == Leftover(s[i + 2..])
  {
  }

  /** More text only ever adds frames: those already complete stay as they are. */
  lemma {:induction false} FramesConcat(a: string, b: string)
    ensures Frames(a + b) == Frames(a) + Frames(Leftover(a) + b)
    ensures Leftover(a + b) == Leftover(Leftover(a) + b)
    decreases |a|
  {
    hide Frames, Leftover, Boundary;
    var i := Boundary(a);
    FramesStep(a);
    if i < |a| {
      var c, rest := a + b, a[i + 2..];
      BoundaryIs(c, i);
      assert c[..i] == a[..i] && c[i + 2..] == rest + b;
      FramesStep(c);
      FramesConcat(rest, b);
      assert [a[..i]] + (Frames(rest) + Frames(Leftover(rest) + b)) == [a[..i]] + Frames(rest) + Frames(Leftover(rest) + b);
    } else {
      assert [] + Frames(a + b) == Frames(a + b);
    }
  }

  // --------------------------------------------------------------- parsing a frame

  /** The lines of a frame, split at every line feed. */
  function Lines(s: string): seq<string> {
    SplitOn(s, '\n')
  }

  function FieldName(line: string): string {
    line[..Find(line, ':')]
  }

  /** The text after the colon, less one leading space. */
  function FieldValue(line: string): string {
    var c := Find(line, ':');
    if c == |line| then ""
    else
      var v := line[c + 1..];
      if v != "" && v[0] == ' ' then v[1..] else v
  }

  predicate IsField(line: string) {
    line != "" && line[0] != ':'
  }

  /** A parsed frame: the last `id`, the last `event`, and the data lines. */
  datatype Parsed = Parsed(id: Option<string>, event: Option<string>, data: seq<string>, sawField: bool)

  const NOTHING := Parsed(None, None, [], false)

  function ParseLine(p: Parsed, line: string): Parsed {
    if !IsField(line) then p
    else
      var q := p.(sawField := true);
      var v := FieldValue(line);
      if FieldName(line) == "id" then q.(id := Some(v))
      else if FieldName(line) == "event" then q.(event := Some(v))
      else if FieldName(line) == "data" then q.(data := q.data + [v])
      else q
  }

  function ParseLines(p: Parsed, lines: seq<string>): Parsed
    decreases |lines|
  {
    if lines == [] then p else ParseLines(ParseLine(p, lines[0]), lines[1..])
  }

  /** The client's parser: one pass over the lines. */
  method ParseFrame(frame: string) returns (p: Parsed)
    ensures p == ParseLines(NOTHING, Lines(frame))
  {
    var lines := Lines(frame);
    p := NOTHING;
    for i := 0 to |lines|
      invariant ParseLines(p, lines[i..]) == ParseLines(NOTHING, lines)
    {
      var line := lines[i];
      assert lines[i..][0] == line && lines[i..][1..] == lines[i + 1..];
      p := ParseLine(p, line);
    }
  }

  /** What one frame makes the client do: hand over a payload and remember an id. */
  datatype Dispatch = Ignore | Deliver(id: Option<string>, data: string)

  function Dispatched(frame: string): Dispatch {
    var p := ParseLines(NOTHING, Lines(frame));
    if !p.sawField || p.data == [] || JoinWith(p.data, "\n") == "" then Ignore
    else Deliver(if p.id.Some? && p.id.value != "" then p.id else None, JoinWith(p.data, "\n"))
  }

  // ------------------------------------------------------ what any frame parses to

  /** A field of that name; a comment or an empty line is none. */
  predicate Names(line: string, name: string) {
    IsField(line) && FieldName(line) == name
  }

  /** A line with a colon is the name before the first one and the value after it, less one
      leading space; a line without is a name. */
  lemma FieldIs(name: string, value: string)
    requires Lacks(name, ':')
    ensures FieldName(name) == name && FieldValue(name) == ""
    ensures FieldName(name + ":" + value) == name
    ensures FieldValue(name + ":" + value) == if value != "" && value[0] == ' ' then value[1..] else value
  {
    var line := name + ":" + value;
    hide Find;
    assert Find(name, ':') == |name|;
    assert line[|name|] == ':' && forall k :: 0 <= k < |name| ==> line[k] == name[k];
    assert Find(line, ':') == |name| && line[|name| + 1..] == value;
  }

  /** The values of the fields of one name, in order. */
  function ValuesNamed(lines: seq<string>, name: string): seq<string> {
    if lines == [] then []
    else
      var line := lines[|lines| - 1];
      ValuesNamed(lines[..|lines| - 1], name) + if Names(line, name) then [FieldValue(line)] else []
  }

  function LastOf(values: seq<string>): Option<string> {
    if values == [] then None else Some(values[|values| - 1])
  }

  lemma {:induction false} ParseLinesSnoc(p: Parsed, lines: seq<string>, line: string)
    ensures ParseLines(p, lines + [line]) == ParseLine(ParseLines(p, lines), line)
    decreases |lines|
  {
    hide ParseLine;
    var all := lines + [line];
    if lines == [] {
      assert all[1..] == [];
    } else {
      assert all[1..] == lines[1..] + [line];
      ParseLinesSnoc(ParseLine(p, lines[0]), lines[1..], line);
    }
  }

  /** The last `id`, the last `event` and all the data, in order. */
  ghost predicate ParsedAs(lines: seq<string>, p: Parsed) {
    && p.id == LastOf(ValuesNamed(lines, "id"))
    && p.event == LastOf(ValuesNamed(lines, "event"))
    && p.data == ValuesNamed(lines, "data")
    && (p.sawField <==> exists i :: 0 <= i < |lines| && IsField(lines[i]))
  }

  /** Any frame parses to them. */
  lemma {:induction false} ParsedIs(lines: seq<string>)
    ensures ParsedAs(lines, ParseLines(NOTHING, lines))
  {
    if lines == [] {
    } else {
      hide ParsedAs, ParseLines, ParseLine;
      var n := |lines| - 1;
      ParsedIs(lines[..n]);
      assert lines[..n] + [lines[n]] == lines;
      ParseLinesSnoc(NOTHING, lines[..n], lines[n]);
      ParsedOn(lines[..n], ParseLines(NOTHING, lines[..n]), lines[n]);
    }
  }

  lemma ParsedOn(lines: seq<string>, p: Parsed, line: string)
    requires ParsedAs(lines, p)
    ensures ParsedAs(lines + [line], ParseLine(p, line))
  {
    hide FieldName, FieldValue, IsField, ValuesNamed;
    ValuesSnoc(lines, line, "id");
    ValuesSnoc(lines, line, "event");
    ValuesSnoc(lines, line, "data");
    FieldsSnoc(lines, line);
  }

  lemma ValuesSnoc(lines: seq<string>, line: string, name: string)
    ensures ValuesNamed(lines + [line], name) ==
            if Names(line, name) then ValuesNamed(lines, name) + [FieldValue(line)] else ValuesNamed(lines, name)
  {
    hide Names, FieldValue;
    assert (lines + [line])[..|lines|] == lines;
    assert ValuesNamed(lines, name) + [] == ValuesNamed(lines, name);
  }

  lemma FieldsSnoc(lines: seq<string>, line: string)
    ensures var all := lines + [line];
            (exists i :: 0 <= i < |all| && IsField(all[i])) <==>
            IsField(line) || exists i :: 0 <= i < |lines| && IsField(lines[i])
  {
    hide IsField;
    var all := lines + [line];
    assert all[|lines|] == line && forall i :: 0 <= i < |lines| ==> all[i] == lines[i];
  }

  lemma {:induction false} DataIsField(lines: seq<string>)
    ensures ValuesNamed(lines, "data") != [] ==> exists i :: 0 <= i < |lines| && IsField(lines[i])
  {
    if lines == [] {
    } else {
      hide FieldName, FieldValue, IsField;
      var n := |lines| - 1;
      DataIsField(lines[..n]);
      assert forall i :: 0 <= i < n ==> lines[..n][i] == lines[i];
    }
  }

  /** A frame hands over its data lines joined, if that is any text at all, and an id to
      remember, if it names one that is not empty. */
  lemma DispatchedIs(frame: string)
    ensures var lines := Lines(frame);
            var text, id := JoinWith(ValuesNamed(lines, "data"), "\n"), LastOf(ValuesNamed(lines, "id"));
            Dispatched(frame) == if text == "" then Ignore else Deliver(if id == Some("") then None else id, text)
  {
    ParsedIs(Lines(frame));
    DataIsField(Lines(frame));
  }

  // ------------------------------------------------ one printed item, read back

  /** A field line reads back as its name and value. */
  lemma FieldReads(name: string, value: string)
    requires name != "" && forall i :: 0 <= i < |name| ==> name[i] != ':'
    ensures var line := name + ": " + value;
            IsField(line) && FieldName(line) == name && FieldValue(line) == value
  {
    var line := name + ": " + value;
    var c := Find(line, ':');
    assert line[|name|] == ':' && forall k :: 0 <= k < |name| ==> line[k] == name[k];
    assert c == |name|;
    assert line[c + 1..] == " " + value;
  }

  lemma EventLines(x: Item)
    requires Printable(x) && x.Event?
    ensures Lines(Body(x)) == ["id" + ": " + Digits(x.id), "event" + ": " + x.kind, "data" + ": " + x.payload]
  {
    hide SplitOn;
    var a, b, c := "id: " + Digits(x.id), "event: " + x.kind, "data: " + x.payload;
    assert a == "id" + ": " + Digits(x.id) && b == "event" + ": " + x.kind && c == "data" + ": " + x.payload;
    assert Body(x) == a + ['\n'] + (b + ['\n'] + c);
    SplitFirst(a, '\n', b + ['\n'] + c);
    SplitFirst(b, '\n', c);
    SplitLacking(c, '\n');
  }

  lemma FieldsParse(id: string, kind: string, payload: string)
    ensures ParseLines(NOTHING, ["id" + ": " + id, "event" + ": " + kind, "data" + ": " + payload])
            == Parsed(Some(id), Some(kind), [payload], true)
  {
    hide Find;
    FieldReads("id", id);
    FieldReads("event", kind);
    FieldReads("data", payload);
    var lines := ["id" + ": " + id, "event" + ": " + kind, "data" + ": " + payload];
    assert lines[1..] == [lines[1], lines[2]] && lines[1..][1..] == [lines[2]] && lines[1..][1..][1..] == [];
    var p1 := ParseLine(NOTHING, lines[0]);
    var p2 := ParseLine(p1, lines[1]);
    var p3 := ParseLine(p2, lines[2]);
    assert ParseLines(p3, []) == p3;
    assert ParseLines(p2, lines[1..][1..]) == p3;
    assert ParseLines(p1, lines[1..]) == p3;
  }

  /** An event frame gives back its id, kind and payload; a comment gives nothing. */
  lemma PrintedParses(x: Item)
    requires Printable(x)
    ensures var p := ParseLines(NOTHING, Lines(Body(x)));
            match x
            case Event(id, kind, payload) => p == Parsed(Some(Digits(id)), Some(kind), [payload], true)
            case Comment(_) => p == NOTHING
  {
    match x
    case Event(id, kind, payload) =>
      EventLines(x);
      FieldsParse(Digits(id), kind, payload);
    case Comment(text) =>
      SplitLacking(Body(x), '\n');
      assert [Body(x)][1..] == [];
  }

  lemma PrintedDispatches(x: Item)
    requires Printable(x)
    ensures Dispatched(Body(x)) ==
            match x case Event(id, _, payload) => Deliver(Some(Digits(id)), payload) case Comment(_) => Ignore
  {
    PrintedParses(x);
  }

  lemma BodyBreaksOnce(x: Item)
    requires Printable(x)
    ensures var b := Body(x); forall k :: 0 <= k < |b| && b[k] == '\n' ==> k + 1 < |b| && b[k + 1] != '\n'
  {
    match x
    case Event(id, kind, payload) =>
      var b, one, two, three := Body(x), "id: " + Digits(id), "event: " + kind, "data: " + payload;
      assert b == one + "\n" + two + "\n" + three;
      var m, n := |one|, |one| + 1 + |two|;
      assert forall k :: 0 <= k < |b| && k != m && k != n ==> b[k] != '\n';
      assert b[m + 1] == 'e' && b[n + 1] == 'd';
    case Comment(text) =>
  }

  /** No printed body contains a blank line, starts with a line feed or ends in one. */
  lemma BodyIsClosed(x: Item, rest: string)
    requires Printable(x)
    ensures Boundary(Print(x) + rest) == |Body(x)|
    ensures forall k :: 0 <= k <= |Body(x)| + 1 ==> Boundary(Print(x)[..k]) == k
  {
    var b := Body(x);
    BodyBreaksOnce(x);
    hide Body, Boundary;
    PrintIs(x);
    var s := Print(x) + rest;
    assert forall k :: 0 <= k < |b| ==> s[k] == b[k];
    assert s[|b|] == '\n' && s[|b| + 1] == '\n';
    BoundaryIs(s, |b|);
    forall k | 0 <= k <= |b| + 1
      ensures Boundary(Print(x)[..k]) == k
    {
      BoundaryIs(Print(x)[..k], k);
    }
  }

  lemma PrintIs(x: Item)
    ensures Print(x) == Body(x) + BLANK
  {
  }

  function Bodies(xs: seq<Item>): seq<string> {
    if xs == [] then [] else [Body(xs[0])] + Bodies(xs[1..])
  }

  /** The frames of whole items followed by part of the next one are those items,
      and the part stays in the buffer. */
  lemma {:induction false} FramesOfPrinted(xs: seq<Item>, partial: string)
    requires forall i :: 0 <= i < |xs| ==> Printable(xs[i])
    requires Boundary(partial) == |partial|
    ensures Frames(PrintAll(xs) + partial) == Bodies(xs)
    ensures Leftover(PrintAll(xs) + partial) == partial
  {
    hide Frames, Leftover, Boundary, Print, Body;
    if xs == [] {
      assert PrintAll(xs) + partial == partial;
      FramesStep(partial);
    } else {
      var rest := PrintAll(xs[1..]) + partial;
      var s := PrintAll(xs) + partial;
      assert s == Print(xs[0]) + rest;
      BodyIsClosed(xs[0], rest);
      var i := |Body(xs[0])|;
      PrintIs(xs[0]);
      assert s[..i] == Body(xs[0]) && s[i + 2..] == rest;
      FramesStep(s);
      FramesOfPrinted(xs[1..], partial);
    }
  }

  // ------------------------------------------------------------------- the client

  /** What the handlers see of a sequence of frames: parsed payloads, in order. */
  function Handled<T>(frames: seq<string>, parse: string -> Option<T>): seq<T> {
    if frames == [] then []
    else
      var d := Dispatched(frames[0]);
      (if d.Deliver? && parse(d.data).Some? then [parse(d.data).value] else []) + Handled(frames[1..], parse)
  }

  /** The last id remembered after a sequence of frames. */
  function Remembered(frames: seq<string>, lastEventId: Option<string>): Option<string>
    decreases |frames|
  {
    if frames == [] then lastEventId
    else
      var d := Dispatched(frames[0]);
      Remembered(frames[1..], if d.Deliver? && d.id.Some? then d.id else lastEventId)
  }

  function Concat(chunks: seq<string>): string {
    if chunks == [] then "" else Concat(chunks[..|chunks| - 1]) + chunks[|chunks| - 1]
  }

  lemma {:induction false} HandledConcat<T>(a: seq<string>, b: seq<string>, parse: string -> Option<T>)
    ensures Handled(a + b, parse) == Handled(a, parse) + Handled(b, parse)
  {
    if a == [] {
      assert a + b == b;
    } else {
      var c := a + b;
      assert c[0] == a[0] && c[1..] == a[1..] + b;
      HandledConcat(a[1..], b, parse);
      var d := Dispatched(a[0]);
      var head := if d.Deliver? && parse(d.data).Some? then [parse(d.data).value] else [];
      assert head + (Handled(a[1..], parse) + Handled(b, parse)) == head + Handled(a[1..], parse) + Handled(b, parse);
    }
  }

  lemma {:induction false} RememberedConcat(a: seq<string>, b: seq<string>, id: Option<string>)
    ensures Remembered(a + b, id) == Remembered(b, Remembered(a, id))
    decreases |a|
  {
    if a == [] {
      assert a + b == b;
    } else {
      var c := a + b;
      assert c[0] == a[0] && c[1..] == a[1..] + b;
      var d := Dispatched(a[0]);
      RememberedConcat(a[1..], b, if d.Deliver? && d.id.Some? then d.id else id);
    }
  }

  lemma Nothing<T>(parse: string -> Option<T>, id: Option<string>)
    ensures Handled([], parse) == [] && Remembered([], id) == id
    ensures Frames("") == [] && Leftover("") == "" && Boundary("") == 0 && Concat([]) == ""
  {
  }

  lemma ConcatSnoc(chunks: seq<string>, i: nat)
    requires i < |chunks|
    ensures Concat(chunks[..i + 1]) == Concat(chunks[..i]) + chunks[i]
  {
    assert chunks[..i + 1][..i] == chunks[..i];
  }

  /** One more frame handled. */
  lemma HandledSnoc<T>(done: seq<string>, frame: string, parse: string -> Option<T>, id: Option<string>)
    ensures Handled(done + [frame], parse) == Handled(done, parse) + Handled([frame], parse)
    ensures Remembered(done + [frame], id) == Remembered([frame], Remembered(done, id))
  {
    HandledConcat(done, [frame], parse);
    RememberedConcat(done, [frame], id);
  }

  class EventStream<T> {
    const parse: string -> Option<T>
    var buffer: string
    var lastEventId: Option<string>
    /** What the handlers have been called with. */
    var handled: seq<T>

    constructor (parse: string -> Option<T>)
      ensures buffer == "" && lastEventId == None && handled == [] && this.parse == parse
    {
      this.parse, buffer, lastEventId, handled := parse, "", None, [];
    }

    method Dispatch(frame: string)
      modifies this`lastEventId, this`handled
      ensures handled == old(handled) + Handled([frame], parse)
      ensures lastEventId == Remembered([frame], old(lastEventId))
    {
      assert [frame][1..] == [];
      var p := ParseFrame(frame);
      if !p.sawField || p.data == [] || JoinWith(p.data, "\n") == "" {
        return;
      }
      if p.id.Some? && p.id.value != "" {
        lastEventId := p.id;
      }
      var payload := parse(JoinWith(p.data, "\n"));
      if payload.Some? {
        handled := handled + [payload.value];
      }
    }

    /** One chunk of text: every frame it completes is dispatched, in order, and the
        buffer keeps what is not yet a frame. */
    method Receive(chunk: string)
      modifies this
      ensures handled == old(handled) + Handled(Frames(old(buffer) + chunk), parse)
      ensures lastEventId == Remembered(Frames(old(buffer) + chunk), old(lastEventId))
      ensures buffer == Leftover(old(buffer) + chunk)
      ensures Boundary(buffer) == |buffer|
    {
      hide *;
      buffer := buffer + chunk;
      ghost var text, done := buffer, [];
      Nothing(parse, lastEventId);
      var boundary := Boundary(buffer);
      while boundary < |buffer|
        invariant boundary == Boundary(buffer)
        invariant Frames(text) == done + Frames(buffer) && Leftover(text) == Leftover(buffer)
        invariant handled == old(handled) + Handled(done, parse)
        invariant lastEventId == Remembered(done, old(lastEventId))
        decreases |buffer|
      {
        FramesStep(buffer);
        var frame := buffer[..boundary];
        HandledSnoc(done, frame, parse, old(lastEventId));
        assert done + ([frame] + Frames(buffer[boundary + 2..])) == done + [frame] + Frames(buffer[boundary + 2..]);
        buffer := buffer[boundary + 2..];
        Dispatch(frame);
        done := done + [frame];
        boundary := Boundary(buffer);
      }
      FramesStep(buffer);
      assert done + [] == done;
    }

    /** A whole connection's worth of chunks, however the text is cut: the outcome
        depends only on the text. */
    method ReceiveAll(chunks: seq<string>)
      requires buffer == ""
      modifies this
      ensures handled == old(handled) + Handled(Frames(Concat(chunks)), parse)
      ensures lastEventId == Remembered(Frames(Concat(chunks)), old(lastEventId))
      ensures buffer == Leftover(Concat(chunks)) && Boundary(buffer) == |buffer|
    {
      hide *;
      Nothing(parse, lastEventId);
      assert chunks[..0] == [];
      for i := 0 to |chunks|
        invariant handled == old(handled) + Handled(Frames(Concat(chunks[..i])), parse)
        invariant lastEventId == Remembered(Frames(Concat(chunks[..i])), old(lastEventId))
        invariant buffer == Leftover(Concat(chunks[..i])) && Boundary(buffer) == |buffer|
      {
        ghost var text := Concat(chunks[..i]);
        ConcatSnoc(chunks, i);
        FramesConcat(text, chunks[i]);
        HandledConcat(Frames(text), Frames(buffer + chunks[i]), parse);
        RememberedConcat(Frames(text), Frames(buffer + chunks[i]), old(lastEventId));
        Receive(chunks[i]);
      }
      assert chunks[..|chunks|] == chunks;
    }
  }

  /** The values of the events among some items, where their payloads have one. */
  function Values<T>(xs: seq<Item>, parse: string -> Option<T>): seq<T> {
    if xs == [] then []
    else
      (if xs[0].Event? && parse(xs[0].payload).Some? then [parse(xs[0].payload).value] else [])
      + Values(xs[1..], parse)
  }

  function LastEvent(xs: seq<Item>): Option<string> {
    if xs == [] then None
    else if xs[|xs| - 1].Event? then Some(Digits(xs[|xs| - 1].id))
    else LastEvent(xs[..|xs| - 1])
  }

  lemma {:induction false} BodiesConcat(a: seq<Item>, b: seq<Item>)
    ensures Bodies(a + b) == Bodies(a) + Bodies(b)
  {
    if a == [] {
      assert a + b == b;
    } else {
      assert (a + b)[1..] == a[1..] + b;
      BodiesConcat(a[1..], b);
    }
  }

  lemma {:induction false} HandledPrinted<T>(xs: seq<Item>, parse: string -> Option<T>)
    requires forall i :: 0 <= i < |xs| ==> Printable(xs[i])
    ensures Handled(Bodies(xs), parse) == Values(xs, parse)
  {
    if xs == [] {
    } else {
      PrintedDispatches(xs[0]);
      assert Bodies(xs)[1..] == Bodies(xs[1..]);
      HandledPrinted(xs[1..], parse);
    }
  }

  lemma {:induction false} RememberedPrinted(xs: seq<Item>)
    requires forall i :: 0 <= i < |xs| ==> Printable(xs[i])
    ensures Remembered(Bodies(xs), None) == LastEvent(xs)
  {
    if xs == [] {
    } else {
      var n := |xs| - 1;
      RememberedPrinted(xs[..n]);
      PrintedDispatches(xs[n]);
      assert xs[..n] + [xs[n]] == xs;
      BodiesConcat(xs[..n], [xs[n]]);
      assert Bodies([xs[n]]) == [Body(xs[n])];
      RememberedConcat(Bodies(xs[..n]), [Body(xs[n])], None);
      assert [Body(xs[n])][1..] == [];
    }
  }

  /** The whole path: the daemon prints items, the network cuts the text anywhere,
      and the connection may end inside an item. The client has handled exactly the
      events that arrived whole, once each and in order; it remembers the last one's
      id; and the rest of the text waits in a buffer with no blank line in it. */
  lemma StreamRecovered<T>(xs: seq<Item>, next: Item, cut: nat, chunks: seq<string>, parse: string -> Option<T>)
    requires Printable(next) && forall i :: 0 <= i < |xs| ==> Printable(xs[i])
    requires cut < |Print(next)|
    requires Concat(chunks) == PrintAll(xs) + Print(next)[..cut]
    ensures Handled(Frames(Concat(chunks)), parse) == Values(xs, parse)
    ensures Remembered(Frames(Concat(chunks)), None) == LastEvent(xs)
    ensures Leftover(Concat(chunks)) == Print(next)[..cut]
  {
    BodyIsClosed(next, "");
    FramesOfPrinted(xs, Print(next)[..cut]);
    HandledPrinted(xs, parse);
    RememberedPrinted(xs);
  }
}
