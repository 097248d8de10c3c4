/**
 The events table as SQLite sees it: rows of encoded columns in insertion order, two unique
 keys, and one upsert statement.
 */
module EventRows {
  import opened Text
  import opened Model

  datatype EventRow = EventRow(
    uid: string, source: string, sourceId: string, title: string, description: string, location: string, url: string,
    startsAt: string, endsAt: string, status: EventStatus, anchor: bool, score: int, fingerprint: string,
    createdAt: string, updatedAt: string)

  function FindFingerprint(rows: seq<EventRow>, fingerprint: string): (i: int)
    ensures -1 <= i < |rows|
    ensures i >= 0 ==> rows[i].fingerprint == fingerprint
    ensures i < 0 ==> forall j :: 0 <= j < |rows| ==> rows[j].fingerprint != fingerprint
  {
    if rows == [] then -1
    else if rows[|rows| - 1].fingerprint == fingerprint then |rows| - 1
    else FindFingerprint(rows[..|rows| - 1], fingerprint)
  }

  predicate UidTaken(rows: seq<EventRow>, uid: string) {
    exists i :: 0 <= i < |rows| && rows[i].uid == uid
  }

  /** DO UPDATE SET: everything but uid, starts_at, fingerprint and created_at. */
  function Merge(stored: EventRow, excluded: EventRow): EventRow {
    stored.(source := excluded.source, sourceId := excluded.sourceId, title := excluded.title,
            description := excluded.description, location := excluded.location, url := excluded.url,
            endsAt := excluded.endsAt, status := excluded.status, anchor := excluded.anchor,
            score := excluded.score, updatedAt := excluded.updatedAt)
  }

  /**
   The upsert statement. SQLite looks at the conflict target first: a known fingerprint
   updates that row. A new fingerprint under a uid already in use violates the primary key,
   which the conflict clause does not cover, and is refused (None).
   */
  function Upsert(rows: seq<EventRow>, row: EventRow): Option<seq<EventRow>> {
    var i := FindFingerprint(rows, row.fingerprint);
    if i >= 0 then Some(rows[i := Merge(rows[i], row)])
    else if UidTaken(rows, row.uid) then None
    else Some(rows + [row])
  }

  /** The table after a statement; a refused one changes nothing. */
  function Apply(rows: seq<EventRow>, row: EventRow): seq<EventRow> {
    match Upsert(rows, row)
    case Some(changed) => changed
    case None => rows
  }

  function Replay(writes: seq<EventRow>): seq<EventRow> {
    if writes == [] then [] else Apply(Replay(writes[..|writes| - 1]), writes[|writes| - 1])
  }

  lemma ReplaySnoc(writes: seq<EventRow>, row: EventRow)
    ensures Replay(writes + [row]) == Apply(Replay(writes), row)
  {
    assert (writes + [row])[..|writes|] == writes;
  }

  ghost predicate Unique(rows: seq<EventRow>) {
    && (forall i, j :: 0 <= i < j < |rows| ==> rows[i].uid != rows[j].uid)
    && (forall i, j :: 0 <= i < j < |rows| ==> rows[i].fingerprint != rows[j].fingerprint)
  }

  predicate HasFingerprint(rows: seq<EventRow>, fingerprint: string) {
    exists i :: 0 <= i < |rows| && rows[i].fingerprint == fingerprint
  }

  /** Rows stay, keep their keys, and stay unique; an accepted write is stored under its key. */
  lemma UpsertKeepsRows(rows: seq<EventRow>, row: EventRow)
    requires Unique(rows)
    ensures Unique(Apply(rows, row)) && |rows| <= |Apply(rows, row)|
    ensures forall i :: 0 <= i < |rows| ==>
             Apply(rows, row)[i].fingerprint == rows[i].fingerprint && Apply(rows, row)[i].uid == rows[i].uid
    ensures Upsert(rows, row).Some? ==> HasFingerprint(Apply(rows, row), row.fingerprint)
  {
    var i := FindFingerprint(rows, row.fingerprint);
    if i < 0 && !UidTaken(rows, row.uid) {
      assert Apply(rows, row)[|rows|].fingerprint == row.fingerprint;
    } else if i >= 0 {
      assert Apply(rows, row)[i].fingerprint == row.fingerprint;
    }
  }

  lemma {:induction false} ReplayKeepsUnique(writes: seq<EventRow>)
    ensures Unique(Replay(writes))
  {
    if writes == [] {
    } else {
      ReplayKeepsUnique(writes[..|writes| - 1]);
      UpsertKeepsRows(Replay(writes[..|writes| - 1]), writes[|writes| - 1]);
    }
  }

  /** A property of single rows that writes have and merging keeps is a property of the table. */
  lemma ApplyKeepsAll(rows: seq<EventRow>, row: EventRow, good: EventRow -> bool)
    requires good(row) && forall i :: 0 <= i < |rows| ==> good(rows[i])
    requires forall i :: 0 <= i < |rows| && rows[i].fingerprint == row.fingerprint ==> good(Merge(rows[i], row))
    ensures forall i :: 0 <= i < |Apply(rows, row)| ==> good(Apply(rows, row)[i])
  {
  }

  // ---------- the table as a record of the writes ----------

  predicate Accepted(writes: seq<EventRow>, i: nat)
    requires i < |writes|
  {
    Upsert(Replay(writes[..i]), writes[i]).Some?
  }

  predicate AcceptedFor(writes: seq<EventRow>, i: nat, fingerprint: string)
    requires i < |writes|
  {
    Accepted(writes, i) && writes[i].fingerprint == fingerprint
  }

  ghost predicate IsFirst(writes: seq<EventRow>, i: nat) {
    && i < |writes| && Accepted(writes, i)
    && forall j :: 0 <= j < i ==> !AcceptedFor(writes, j, writes[i].fingerprint)
  }

  ghost predicate IsLast(writes: seq<EventRow>, i: nat) {
    && i < |writes| && Accepted(writes, i)
    && forall j :: i < j < |writes| ==> !AcceptedFor(writes, j, writes[i].fingerprint)
  }

  /** uid, start and created_at of one write, every other column of another. */
  function Combine(first: EventRow, last: EventRow): EventRow {
    last.(uid := first.uid, startsAt := first.startsAt, createdAt := first.createdAt)
  }

  ghost predicate RecordedAs(writes: seq<EventRow>, row: EventRow, first: nat, last: nat) {
    && IsFirst(writes, first) && IsLast(writes, last)
    && writes[first].fingerprint == writes[last].fingerprint
    && row == Combine(writes[first], writes[last])
  }

  ghost predicate Records(writes: seq<EventRow>, rows: seq<EventRow>, first: seq<nat>, last: seq<nat>) {
    && |rows| == |first| == |last|
    && (forall r :: 0 <= r < |rows| ==> RecordedAs(writes, rows[r], first[r], last[r]))
    && (forall i :: 0 <= i < |writes| && Accepted(writes, i) ==> HasFingerprint(rows, writes[i].fingerprint))
  }

  lemma AcceptedSnoc(writes: seq<EventRow>, w: EventRow, i: nat)
    requires i < |writes|
    ensures Accepted(writes + [w], i) == Accepted(writes, i)
    ensures forall k :: AcceptedFor(writes + [w], i, k) == AcceptedFor(writes, i, k)
  {
    assert (writes + [w])[..i] == writes[..i];
  }

  lemma FirstSnoc(writes: seq<EventRow>, w: EventRow, i: nat)
    requires IsFirst(writes, i)
    ensures IsFirst(writes + [w], i)
  {
    AcceptedSnoc(writes, w, i);
    var all := writes + [w];
    forall j | 0 <= j < i ensures !AcceptedFor(all, j, all[i].fingerprint) {
      AcceptedSnoc(writes, w, j);
    }
  }

  lemma LastSnoc(writes: seq<EventRow>, w: EventRow, i: nat)
    requires IsLast(writes, i)
    requires !AcceptedFor(writes + [w], |writes|, writes[i].fingerprint)
    ensures IsLast(writes + [w], i)
  {
    AcceptedSnoc(writes, w, i);
    var all := writes + [w];
    forall j | i < j < |all| ensures !AcceptedFor(all, j, all[i].fingerprint) {
      if j < |writes| { AcceptedSnoc(writes, w, j); }
    }
  }

  lemma RecordedSnoc(writes: seq<EventRow>, w: EventRow, row: EventRow, first: nat, last: nat)
    requires RecordedAs(writes, row, first, last)
    requires !AcceptedFor(writes + [w], |writes|, row.fingerprint)
    ensures RecordedAs(writes + [w], row, first, last)
  {
    FirstSnoc(writes, w, first);
    LastSnoc(writes, w, last);
  }

  lemma RecordedOver(writes: seq<EventRow>, w: EventRow, row: EventRow, first: nat, last: nat)
    requires RecordedAs(writes, row, first, last)
    requires AcceptedFor(writes + [w], |writes|, row.fingerprint)
    ensures RecordedAs(writes + [w], Merge(row, w), first, |writes|)
  {
    FirstSnoc(writes, w, first);
  }

  lemma StillStored(writes: seq<EventRow>, w: EventRow, rows: seq<EventRow>)
    requires forall i :: 0 <= i < |writes| && Accepted(writes, i) ==> HasFingerprint(rows, writes[i].fingerprint)
    requires Unique(rows) && rows == Replay(writes)
    ensures var all := writes + [w];
            forall i :: 0 <= i < |all| && Accepted(all, i) ==> HasFingerprint(Apply(rows, w), all[i].fingerprint)
  {
    var all := writes + [w];
    UpsertKeepsRows(rows, w);
    assert all[..|writes|] == writes;
    forall i | 0 <= i < |all| && Accepted(all, i) ensures HasFingerprint(Apply(rows, w), all[i].fingerprint) {
      if i < |writes| {
        AcceptedSnoc(writes, w, i);
        var r :| 0 <= r < |rows| && rows[r].fingerprint == writes[i].fingerprint;
        assert Apply(rows, w)[r].fingerprint == writes[i].fingerprint;
      }
    }
  }

  lemma NotAcceptedSnoc(writes: seq<EventRow>, w: EventRow, rows: seq<EventRow>)
    requires forall i :: 0 <= i < |writes| && Accepted(writes, i) ==> HasFingerprint(rows, writes[i].fingerprint)
    requires !HasFingerprint(rows, w.fingerprint)
    ensures forall j :: 0 <= j < |writes| ==> !AcceptedFor(writes + [w], j, w.fingerprint)
  {
    forall j | 0 <= j < |writes| ensures !AcceptedFor(writes + [w], j, w.fingerprint) {
      AcceptedSnoc(writes, w, j);
    }
  }

  lemma LastWriteVerdict(writes: seq<EventRow>, w: EventRow)
    ensures Accepted(writes + [w], |writes|) == Upsert(Replay(writes), w).Some?
  {
    assert (writes + [w])[..|writes|] == writes;
  }

  /** Every row but one carries its record over; `written` says what became of that one. */
  lemma RowsCarryOver(writes: seq<EventRow>, w: EventRow, rows: seq<EventRow>, f: seq<nat>, l: seq<nat>, written: int)
    requires |rows| == |f| == |l| && Unique(rows)
    requires forall r :: 0 <= r < |rows| ==> RecordedAs(writes, rows[r], f[r], l[r])
    requires Accepted(writes + [w], |writes|) ==> written == FindFingerprint(rows, w.fingerprint)
    ensures forall r :: 0 <= r < |rows| && r != written ==> RecordedAs(writes + [w], rows[r], f[r], l[r])
  {
    forall r | 0 <= r < |rows| && r != written ensures RecordedAs(writes + [w], rows[r], f[r], l[r]) {
      RecordedSnoc(writes, w, rows[r], f[r], l[r]);
    }
  }

  lemma InsertRecorded(writes: seq<EventRow>, w: EventRow, rows: seq<EventRow>)
    requires forall i :: 0 <= i < |writes| && Accepted(writes, i) ==> HasFingerprint(rows, writes[i].fingerprint)
    requires !HasFingerprint(rows, w.fingerprint) && Accepted(writes + [w], |writes|)
    ensures RecordedAs(writes + [w], w, |writes|, |writes|)
  {
    NotAcceptedSnoc(writes, w, rows);
  }

  lemma RowsRecorded(writes: seq<EventRow>, w: EventRow, rows: seq<EventRow>, f: seq<nat>, l: seq<nat>)
    returns (first: seq<nat>, last: seq<nat>)
    requires |rows| == |f| == |l|
    requires var at := FindFingerprint(rows, w.fingerprint);
             forall r :: 0 <= r < |rows| ==>
               RecordedAs(writes + [w], Apply(rows, w)[r], f[r], if r == at then |writes| else l[r])
    requires |Apply(rows, w)| > |rows| ==> RecordedAs(writes + [w], w, |writes|, |writes|)
    ensures |Apply(rows, w)| == |first| == |last|
    ensures forall r :: 0 <= r < |first| ==> RecordedAs(writes + [w], Apply(rows, w)[r], first[r], last[r])
  {
    var at := FindFingerprint(rows, w.fingerprint);
    first, last := f, if at >= 0 then l[at := |writes|] else l;
    if |Apply(rows, w)| > |rows| {
      first, last := f + [|writes|], l + [|writes|];
    }
  }

  lemma RecordsStep(writes: seq<EventRow>, w: EventRow, f: seq<nat>, l: seq<nat>)
    returns (first: seq<nat>, last: seq<nat>)
    requires Records(writes, Replay(writes), f, l)
    ensures Records(writes + [w], Apply(Replay(writes), w), first, last)
  {
    var rows := Replay(writes);
    ReplayKeepsUnique(writes);
    StillStored(writes, w, rows);
    LastWriteVerdict(writes, w);
    var at := FindFingerprint(rows, w.fingerprint);
    RowsCarryOver(writes, w, rows, f, l, at);
    if at >= 0 {
      RecordedOver(writes, w, rows[at], f[at], l[at]);
    } else if !UidTaken(rows, w.uid) {
      InsertRecorded(writes, w, rows);
    }
    first, last := RowsRecorded(writes, w, rows, f, l);
  }

  /**
   The table after any sequence of upserts has one row for each fingerprint that was ever
   accepted, made of the first and the last accepted write of that fingerprint.
   */
  lemma {:induction false} TableRecordsWrites(writes: seq<EventRow>) returns (first: seq<nat>, last: seq<nat>)
    ensures Records(writes, Replay(writes), first, last)
  {
    if writes == [] {
      first, last := [], [];
    } else {
      var before, w := writes[..|writes| - 1], writes[|writes| - 1];
      assert writes == before + [w];
      var f, l := TableRecordsWrites(before);
      first, last := RecordsStep(before, w, f, l);
    }
  }
}
