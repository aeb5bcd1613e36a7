/** What committed batches leave in a session file: the `flows` table, keyed by
    flow id, and the `notes` table, which has no key
    (daemon/src/pporlock/capture/session.py). */
module SessionTables {
  import opened Seqs
  import opened SessionWriter

  datatype NoteRow = NoteRow(flow: FlowId, note: Note)

  datatype Tables = Tables(flows: map<FlowId, Row>, notes: seq<NoteRow>)

  const EMPTY := Tables(map[], [])

  /** `INSERT OR REPLACE`, row by row. */
  function Upsert(flows: map<FlowId, Row>, rows: seq<Row>): map<FlowId, Row>
    decreases |rows|
  {
    if rows == [] then flows else Upsert(flows[rows[0].flow := rows[0]], rows[1..])
  }

  function NoteRowsOf(flow: FlowId, notes: seq<Note>): seq<NoteRow> {
    seq(|notes|, i requires 0 <= i < |notes| => NoteRow(flow, notes[i]))
  }

  /** The note rows of a batch, in order. */
  function NoteRows(rows: seq<Row>): seq<NoteRow> {
    if rows == [] then [] else NoteRowsOf(rows[0].flow, rows[0].notes) + NoteRows(rows[1..])
  }

  predicate Writes(rows: seq<Row>, f: FlowId) {
    exists i :: 0 <= i < |rows| && rows[i].flow == f
  }

  /** One committed batch. The notes of its flows are replaced only when the batch
      carries a note row at all. */
  function Store(t: Tables, rows: seq<Row>): Tables {
    Tables(
      Upsert(t.flows, rows),
      if NoteRows(rows) == [] then t.notes
      else Filter(t.notes, (r: NoteRow) => !Writes(rows, r.flow)) + NoteRows(rows))
  }

  function StoreAll(batches: seq<seq<Row>>): Tables {
    if batches == [] then EMPTY
    else Store(StoreAll(batches[..|batches| - 1]), batches[|batches| - 1])
  }

  // ----------------------------------------------------------- the flows table

  /** The position of the last row for `f`, or -1. */
  function LastWrite(rows: seq<Row>, f: FlowId): (k: int)
    ensures -1 <= k < |rows|
    ensures k >= 0 ==> rows[k].flow == f
    ensures forall i :: k < i < |rows| ==> rows[i].flow != f
  {
    if rows == [] then -1
    else if rows[|rows| - 1].flow == f then |rows| - 1
    else LastWrite(rows[..|rows| - 1], f)
  }

  lemma LastWriteIs(rows: seq<Row>, f: FlowId, k: int)
    requires -1 <= k < |rows|
    requires k >= 0 ==> rows[k].flow == f
    requires forall i :: k < i < |rows| ==> rows[i].flow != f
    ensures LastWrite(rows, f) == k
  {
  }

  lemma LastWriteConcat(a: seq<Row>, b: seq<Row>, f: FlowId)
    ensures LastWrite(a + b, f) == if LastWrite(b, f) >= 0 then |a| + LastWrite(b, f) else LastWrite(a, f)
  {
    var j := LastWrite(b, f);
    LastWriteIs(a + b, f, if j >= 0 then |a| + j else LastWrite(a, f));
  }

  lemma {:induction false} UpsertMeans(flows: map<FlowId, Row>, rows: seq<Row>, f: FlowId)
    ensures var t := Upsert(flows, rows);
            var k := LastWrite(rows, f);
            if k >= 0 then f in t && t[f] == rows[k]
            else (f in t <==> f in flows) && (f in t ==> t[f] == flows[f])
    decreases |rows|
  {
    if rows == [] {
    } else {
      var rest := rows[1..];
      UpsertMeans(flows[rows[0].flow := rows[0]], rest, f);
      var k := LastWrite(rest, f);
      if k >= 0 {
        LastWriteIs(rows, f, k + 1);
      } else {
        LastWriteIs(rows, f, if rows[0].flow == f then 0 else -1);
      }
    }
  }

  /** After any committed batches the table holds, per flow id, exactly its last
      committed row. */
  lemma {:induction false} FlowsHoldLastWrite(batches: seq<seq<Row>>, f: FlowId)
    ensures var flows := StoreAll(batches).flows;
            var log := Flatten(batches);
            var k := LastWrite(log, f);
            (f in flows <==> k >= 0) && (k >= 0 ==> flows[f] == log[k])
  {
    if batches == [] {
    } else {
      var init, rows := batches[..|batches| - 1], batches[|batches| - 1];
      FlowsHoldLastWrite(init, f);
      UpsertMeans(StoreAll(init).flows, rows, f);
      LastWriteConcat(Flatten(init), rows, f);
    }
  }

  /** For a session recorded by the writer: sequence numbers in the table are
      distinct, and comparing them compares the times of the last writes. */
  lemma SeqOrderIsWriteOrder(c: Config, steps: seq<Step>, f: FlowId, g: FlowId)
    requires var flows := StoreAll(Committed(Run(c, steps).flushes)).flows; f in flows && g in flows
    ensures var flows := StoreAll(Committed(Run(c, steps).flushes)).flows;
            var log := Log(Run(c, steps));
            && (flows[f].seqNo < flows[g].seqNo <==> LastWrite(log, f) < LastWrite(log, g))
            && (flows[f].seqNo == flows[g].seqNo <==> f == g)
  {
    hide Run, StoreAll, Committed, Flatten;
    var batches := Committed(Run(c, steps).flushes);
    FlowsHoldLastWrite(batches, f);
    FlowsHoldLastWrite(batches, g);
    LogRises(c, steps);
  }

  // ----------------------------------------------------------- the notes table

  /** The notes a reader finds for one flow, in table order. */
  function NotesOf(notes: seq<NoteRow>, f: FlowId): seq<NoteRow> {
    Filter(notes, (r: NoteRow) => r.flow == f)
  }

  /** The notes of every row for `f` in a batch, one after the other. */
  function BatchNotes(rows: seq<Row>, f: FlowId): seq<NoteRow> {
    if rows == [] then []
    else (if rows[0].flow == f then NoteRowsOf(f, rows[0].notes) else []) + BatchNotes(rows[1..], f)
  }

  lemma {:induction false} BatchNotesAre(rows: seq<Row>, f: FlowId)
    ensures NotesOf(NoteRows(rows), f) == BatchNotes(rows, f)
  {
    if rows == [] {
    } else {
      var p := (r: NoteRow) => r.flow == f;
      var head := NoteRowsOf(rows[0].flow, rows[0].notes);
      BatchNotesAre(rows[1..], f);
      FilterConcat(head, NoteRows(rows[1..]), p);
      if rows[0].flow == f {
        FilterAll(head, p);
      } else {
        FilterNone(head, p);
      }
    }
  }

  lemma {:induction false} FilterTwice(notes: seq<NoteRow>, keep: NoteRow -> bool, f: FlowId, kept: bool)
    requires forall r: NoteRow :: r.flow == f ==> keep(r) == kept
    ensures NotesOf(Filter(notes, keep), f) == if kept then NotesOf(notes, f) else []
  {
    if notes == [] {
    } else {
      var p := (r: NoteRow) => r.flow == f;
      FilterTwice(notes[1..], keep, f, kept);
      var head := if keep(notes[0]) then [notes[0]] else [];
      FilterConcat(head, Filter(notes[1..], keep), p);
      if keep(notes[0]) {
        assert Filter([notes[0]], p) == if p(notes[0]) then [notes[0]] else [];
      }
    }
  }

  lemma {:induction false} NoBatchNotes(rows: seq<Row>, f: FlowId)
    requires !Writes(rows, f)
    ensures BatchNotes(rows, f) == []
  {
    if rows == [] {
    } else {
      assert rows[0].flow != f;
      assert forall i :: 0 <= i < |rows| - 1 ==> rows[1..][i] == rows[i + 1];
      NoBatchNotes(rows[1..], f);
    }
  }

  /** What one committed batch does to one flow's notes, exactly. */
  lemma StoreNotes(t: Tables, rows: seq<Row>, f: FlowId)
    ensures NotesOf(Store(t, rows).notes, f) ==
            if NoteRows(rows) != [] && Writes(rows, f) then BatchNotes(rows, f) else NotesOf(t.notes, f)
  {
    if NoteRows(rows) != [] {
      var keep := (r: NoteRow) => !Writes(rows, r.flow);
      var p := (r: NoteRow) => r.flow == f;
      FilterConcat(Filter(t.notes, keep), NoteRows(rows), p);
      FilterTwice(t.notes, keep, f, !Writes(rows, f));
      BatchNotesAre(rows, f);
      if !Writes(rows, f) {
        NoBatchNotes(rows, f);
      }
    }
  }

  /** The notes belonging to the last row for `f` in a batch that has one. */
  function LastNotes(rows: seq<Row>, f: FlowId): seq<NoteRow>
    requires Writes(rows, f)
  {
    var k := LastWrite(rows, f);
    assert k >= 0;
    NoteRowsOf(f, rows[k].notes)
  }

  /** Every row for `f` but the last has no notes. */
  predicate EarlierSilent(rows: seq<Row>, f: FlowId) {
    forall i :: 0 <= i < LastWrite(rows, f) && rows[i].flow == f ==> rows[i].notes == []
  }

  /** A batch's notes for a flow end in the last row's, so they are just those
      exactly when the earlier rows carry none. */
  lemma {:induction false} BatchNotesEndInLast(rows: seq<Row>, f: FlowId)
    requires Writes(rows, f)
    ensures |BatchNotes(rows, f)| >= |LastNotes(rows, f)|
    ensures BatchNotes(rows, f) == LastNotes(rows, f) <==> EarlierSilent(rows, f)
    ensures !EarlierSilent(rows, f) ==> |BatchNotes(rows, f)| > |LastNotes(rows, f)|
  {
    hide LastWrite;
    var rest := rows[1..];
    assert forall i :: 0 <= i < |rest| ==> rest[i] == rows[i + 1];
    if Writes(rest, f) {
      var k := LastWrite(rest, f);
      LastWriteIs(rows, f, k + 1);
      BatchNotesEndInLast(rest, f);
      var head := if rows[0].flow == f then NoteRowsOf(f, rows[0].notes) else [];
      assert BatchNotes(rows, f) == head + BatchNotes(rest, f);
      assert EarlierSilent(rows, f) <==> (rows[0].flow == f ==> rows[0].notes == []) && EarlierSilent(rest, f) by {
        if EarlierSilent(rows, f) {
          assert forall i :: 0 <= i < k && rest[i].flow == f ==> rows[i + 1].notes == [];
        }
      }
      if rows[0].flow == f ==> rows[0].notes == [] {
        assert head == [];
      }
    } else {
      NoBatchNotes(rest, f);
      assert rows[0].flow == f;
      LastWriteIs(rows, f, 0);
    }
  }

  /** When one batch's commit leaves a flow with the notes of its last row: if the
      batch carries notes, exactly when its earlier rows for that flow carry none;
      if it carries none at all, exactly when the flow had none before. */
  lemma NotesCurrent(t: Tables, rows: seq<Row>, f: FlowId)
    requires Writes(rows, f)
    ensures NotesOf(Store(t, rows).notes, f) == LastNotes(rows, f) <==>
            if NoteRows(rows) != [] then EarlierSilent(rows, f) else NotesOf(t.notes, f) == []
  {
    StoreNotes(t, rows, f);
    if NoteRows(rows) != [] {
      BatchNotesEndInLast(rows, f);
    } else {
      BatchNotesAre(rows, f);
      BatchNotesEndInLast(rows, f);
      assert LastNotes(rows, f) == [];
    }
  }

  predicate DistinctFlows(rows: seq<Row>) {
    forall i, j :: 0 <= i < j < |rows| ==> rows[i].flow != rows[j].flow
  }

  /** The notes of the last row for `f` in a log; none when there is no such row. */
  function NotesOfLast(log: seq<Row>, f: FlowId): seq<NoteRow> {
    var k := LastWrite(log, f);
    if k >= 0 then NoteRowsOf(f, log[k].notes) else []
  }

  lemma NotesOfLastConcat(a: seq<Row>, b: seq<Row>, f: FlowId)
    ensures NotesOfLast(a + b, f) == if LastWrite(b, f) >= 0 then NotesOfLast(b, f) else NotesOfLast(a, f)
  {
    hide LastWrite, NoteRowsOf;
    LastWriteConcat(a, b, f);
    var j, k := LastWrite(b, f), LastWrite(a, f);
    if j >= 0 {
      assert (a + b)[|a| + j] == b[j];
    } else if k >= 0 {
      assert (a + b)[k] == a[k];
    }
  }

  lemma StoreDistinct(t: Tables, rows: seq<Row>, f: FlowId)
    requires DistinctFlows(rows) && NoteRows(rows) != []
    ensures NotesOf(Store(t, rows).notes, f) ==
            if LastWrite(rows, f) >= 0 then NotesOfLast(rows, f) else NotesOf(t.notes, f)
  {
    StoreNotes(t, rows, f);
    if LastWrite(rows, f) >= 0 {
      assert rows[LastWrite(rows, f)].flow == f;
      BatchNotesEndInLast(rows, f);
    }
  }

  /** Over a whole recording: when every batch has distinct flow ids and carries
      at least one note row, every flow has exactly its last row's notes. */
  lemma {:induction false} NotesHoldLastWrite(batches: seq<seq<Row>>, f: FlowId)
    requires forall b :: b in batches ==> DistinctFlows(b) && NoteRows(b) != []
    ensures NotesOf(StoreAll(batches).notes, f) == NotesOfLast(Flatten(batches), f)
  {
    if batches == [] {
    } else {
      var init, rows := batches[..|batches| - 1], batches[|batches| - 1];
      NotesHoldLastWrite(init, f);
      StoreDistinct(StoreAll(init), rows, f);
      NotesOfLastConcat(Flatten(init), rows, f);
    }
  }

  /** A flow written twice in one batch, with a note each time, keeps both notes. */
  lemma DuplicateNotesWitness()
    ensures var a := Row(0, "f", 1, "", ["old"], 512);
            var b := Row(1, "f", 2, "", ["new"], 512);
            && StoreAll([[a, b]]).flows == map["f" := b]
            && NotesOf(StoreAll([[a, b]]).notes, "f") == [NoteRow("f", "old"), NoteRow("f", "new")]
  {
    var a := Row(0, "f", 1, "", ["old"], 512);
    var b := Row(1, "f", 2, "", ["new"], 512);
    var rows := [a, b];
    assert StoreAll([rows]) == Store(EMPTY, rows);
    assert rows[1..] == [b];
    assert BatchNotes([b], "f") == NoteRowsOf("f", ["new"]);
    assert BatchNotes(rows, "f") == NoteRowsOf("f", ["old"]) + NoteRowsOf("f", ["new"]);
    BatchNotesAre(rows, "f");
    StoreNotes(EMPTY, rows, "f");
    assert Upsert(map["f" := a], [b]) == map["f" := b];
    assert Writes(rows, "f") by { assert rows[0].flow == "f"; }
  }

  /** A flow rewritten without notes, in a batch that carries none, keeps its old ones. */
  lemma StaleNotesWitness()
    ensures var a := Row(0, "f", 1, "", ["old"], 512);
            var b := Row(1, "f", 2, "", [], 512);
            && StoreAll([[a], [b]]).flows == map["f" := b]
            && NotesOf(StoreAll([[a], [b]]).notes, "f") == [NoteRow("f", "old")]
  {
    var a := Row(0, "f", 1, "", ["old"], 512);
    var b := Row(1, "f", 2, "", [], 512);
    assert [[a], [b]][..1] == [[a]];
    assert StoreAll([[a]]) == Store(EMPTY, [a]);
    assert StoreAll([[a], [b]]) == Store(StoreAll([[a]]), [b]);
    assert BatchNotes([a], "f") == NoteRowsOf("f", ["old"]);
    BatchNotesAre([a], "f");
    StoreNotes(EMPTY, [a], "f");
    assert Writes([a], "f") by { assert [a][0].flow == "f"; }
    assert NoteRows([b]) == [];
    assert Upsert(map[], [a]) == map["f" := a];
    assert Upsert(map["f" := a], [b]) == map["f" := b];
  }
}
