/**
 Events in and out of the table: how an event becomes a row, what a table of such rows
 keeps, and the two queries that read it back in order of time.
 */
module Events {
  import opened Text
  import opened Model
  import opened Timestamps
  import opened Keys
  import opened EventRows

  /** One call of the upsert: the event and the clock reading taken inside. */
  datatype Write = Write(event: Event, now: Time)

  function Encode(w: Write): EventRow {
    var e := w.event;
    var created := if IsZero(e.createdAt) then w.now else e.createdAt;
    var uid := if e.uid == "" then EventUid(e.source, e.sourceId, e.title, e.startsAt) else e.uid;
    EventRow(uid, e.source, e.sourceId, e.title, e.description, e.location, e.url, Format(e.startsAt), Format(e.endsAt),
             e.status, e.anchor, e.score, Fingerprint(e.title, Format(e.startsAt), e.location),
             Format(created), Format(w.now))
  }

  function EncodeAll(ws: seq<Write>): (rows: seq<EventRow>)
    ensures |rows| == |ws|
  {
    seq(|ws|, i requires 0 <= i < |ws| => Encode(ws[i]))
  }

  predicate HasTexts(row: EventRow, e: Event) {
    && row.source == e.source && row.sourceId == e.sourceId && row.title == e.title && row.description == e.description
    && row.location == e.location && row.url == e.url && row.status == e.status && row.anchor == e.anchor
    && row.score == e.score
  }

  predicate HasTimes(row: EventRow, e: Event) {
    row.startsAt == Format(e.startsAt) && row.endsAt == Format(e.endsAt)
  }

  /** The columns of a row that come straight from the event. */
  predicate HasColumns(row: EventRow, e: Event) {
    HasTexts(row, e) && HasTimes(row, e)
  }

  lemma EncodedColumns(w: Write)
    ensures HasColumns(Encode(w), w.event)
  {
  }

  lemma SnocEqual<T>(all: seq<T>, before: seq<T>, last: T)
    requires |all| == |before| + 1 && all[|before|] == last
    requires forall i :: 0 <= i < |before| ==> all[i] == before[i]
    ensures all == before + [last]
  {
  }

  lemma EncodeAllSnoc(ws: seq<Write>, w: Write)
    ensures EncodeAll(ws + [w]) == EncodeAll(ws) + [Encode(w)]
  {
    var all := ws + [w];
    forall i | 0 <= i < |ws| ensures EncodeAll(all)[i] == EncodeAll(ws)[i] { assert all[i] == ws[i]; }
    assert all[|ws|] == w;
    SnocEqual(EncodeAll(all), EncodeAll(ws), Encode(w));
  }

  // ---------- the keys of a row keep their meaning ----------

  ghost predicate FingerprintIsCurrent(row: EventRow) {
    && row.fingerprint == Fingerprint(row.title, row.startsAt, row.location)
    && exists second :: row.startsAt == Rfc3339(second)
  }

  ghost predicate AllCurrent(rows: seq<EventRow>) {
    forall i :: 0 <= i < |rows| ==> FingerprintIsCurrent(rows[i])
  }

  lemma EncodedIsCurrent(w: Write)
    ensures FingerprintIsCurrent(Encode(w))
  {
    assert Encode(w).startsAt == Rfc3339(SecondOf(w.event.startsAt));
  }

  /** Rows with one fingerprint agree on the start and, up to normalisation, on title and location. */
  lemma SameFingerprint(a: EventRow, b: EventRow)
    requires FingerprintIsCurrent(a) && FingerprintIsCurrent(b) && a.fingerprint == b.fingerprint
    ensures a.startsAt == b.startsAt && Normalise(a.title) == Normalise(b.title)
            && Normalise(a.location) == Normalise(b.location)
  {
    var s :| a.startsAt == Rfc3339(s);
    var t :| b.startsAt == Rfc3339(t);
    FingerprintInjective(a.title, s, a.location, b.title, t, b.location);
  }

  lemma MergeIsCurrent(stored: EventRow, row: EventRow)
    requires FingerprintIsCurrent(stored) && FingerprintIsCurrent(row) && stored.fingerprint == row.fingerprint
    ensures FingerprintIsCurrent(Merge(stored, row))
  {
    SameFingerprint(stored, row);
  }

  lemma ApplyKeepsCurrent(rows: seq<EventRow>, row: EventRow)
    requires AllCurrent(rows) && FingerprintIsCurrent(row)
    ensures AllCurrent(Apply(rows, row))
  {
    forall i | 0 <= i < |rows| && rows[i].fingerprint == row.fingerprint
      ensures FingerprintIsCurrent(Merge(rows[i], row))
    {
      MergeIsCurrent(rows[i], row);
    }
    ApplyKeepsAll(rows, row, r => FingerprintIsCurrent(r));
  }

  lemma ReplayLast(ws: seq<Write>)
    requires ws != []
    ensures Replay(EncodeAll(ws)) == Apply(Replay(EncodeAll(ws[..|ws| - 1])), Encode(ws[|ws| - 1]))
  {
    assert EncodeAll(ws)[..|ws| - 1] == EncodeAll(ws[..|ws| - 1]);
  }

  lemma {:induction false} ReplayKeepsCurrent(ws: seq<Write>)
    ensures AllCurrent(Replay(EncodeAll(ws)))
  {
    if ws == [] {
    } else {
      var before, w := ws[..|ws| - 1], ws[|ws| - 1];
      ReplayKeepsCurrent(before);
      EncodedIsCurrent(w);
      ApplyKeepsCurrent(Replay(EncodeAll(before)), Encode(w));
      ReplayLast(ws);
    }
  }

  /** The key events are deduplicated by. */
  predicate SameKey(a: Event, b: Event) {
    && Normalise(a.title) == Normalise(b.title)
    && SecondOf(a.startsAt) == SecondOf(b.startsAt)
    && Normalise(a.location) == Normalise(b.location)
  }

  lemma SameKeySameFingerprint(v: Write, w: Write)
    ensures Encode(v).fingerprint == Encode(w).fingerprint <==> SameKey(v.event, w.event)
  {
    if Encode(v).fingerprint == Encode(w).fingerprint {
      FingerprintInjective(v.event.title, SecondOf(v.event.startsAt), v.event.location,
                           w.event.title, SecondOf(w.event.startsAt), w.event.location);
    }
  }

  // ---------- the table as a map from keys to writes ----------

  predicate AcceptedWrite(ws: seq<Write>, i: nat)
    requires i < |ws|
  {
    Accepted(EncodeAll(ws), i)
  }

  ghost predicate FirstOfKey(ws: seq<Write>, i: nat) {
    && i < |ws| && AcceptedWrite(ws, i)
    && forall j :: 0 <= j < i && SameKey(ws[j].event, ws[i].event) ==> !AcceptedWrite(ws, j)
  }

  ghost predicate LastOfKey(ws: seq<Write>, i: nat) {
    && i < |ws| && AcceptedWrite(ws, i)
    && forall j :: i < j < |ws| && SameKey(ws[j].event, ws[i].event) ==> !AcceptedWrite(ws, j)
  }

  /** A row made of the last accepted write of a key, with uid and created_at of the first. */
  ghost predicate RowOfKey(ws: seq<Write>, row: EventRow, first: nat, last: nat) {
    && FirstOfKey(ws, first) && LastOfKey(ws, last) && SameKey(ws[first].event, ws[last].event)
    && row == Encode(ws[last]).(uid := Encode(ws[first]).uid, createdAt := Encode(ws[first]).createdAt)
  }

  ghost predicate HasKey(rows: seq<EventRow>, e: Event) {
    HasFingerprint(rows, Fingerprint(e.title, Format(e.startsAt), e.location))
  }

  lemma RecordedRowOfKey(ws: seq<Write>, row: EventRow, first: nat, last: nat)
    requires RecordedAs(EncodeAll(ws), row, first, last)
    ensures RowOfKey(ws, row, first, last)
  {
    SameKeySameFingerprint(ws[first], ws[last]);
    assert Encode(ws[first]).startsAt == Encode(ws[last]).startsAt;
    forall j | 0 <= j < |ws| && AcceptedWrite(ws, j)
      ensures SameKey(ws[j].event, ws[first].event) ==> AcceptedFor(EncodeAll(ws), j, Encode(ws[first]).fingerprint)
      ensures SameKey(ws[j].event, ws[last].event) ==> AcceptedFor(EncodeAll(ws), j, Encode(ws[last]).fingerprint)
    {
      SameKeySameFingerprint(ws[j], ws[first]);
      SameKeySameFingerprint(ws[j], ws[last]);
    }
  }

  /**
   After any sequence of upserts: one row for each key ever accepted, uid and created_at
   from the first accepted write of the key and all other columns from the last, both keys
   unique, and every fingerprint that of the row's current contents.
   */
  lemma EventTableHistory(ws: seq<Write>) returns (first: seq<nat>, last: seq<nat>)
    ensures var rows := Replay(EncodeAll(ws));
            && |rows| == |first| == |last|
            && (forall r :: 0 <= r < |rows| ==> RowOfKey(ws, rows[r], first[r], last[r]))
            && (forall i :: 0 <= i < |ws| && AcceptedWrite(ws, i) ==> HasKey(rows, ws[i].event))
            && Unique(rows) && AllCurrent(rows)
  {
    var writes := EncodeAll(ws);
    first, last := TableRecordsWrites(writes);
    ReplayKeepsUnique(writes);
    ReplayKeepsCurrent(ws);
    var rows := Replay(writes);
    forall r | 0 <= r < |rows| ensures RowOfKey(ws, rows[r], first[r], last[r]) {
      RecordedRowOfKey(ws, rows[r], first[r], last[r]);
    }
    forall i | 0 <= i < |ws| && AcceptedWrite(ws, i) ensures HasKey(rows, ws[i].event) {
      assert HasFingerprint(rows, writes[i].fingerprint);
    }
  }

  /** A new key under a uid already in use is refused, and refusal changes nothing. */
  lemma RefusedExactly(rows: seq<EventRow>, w: Write)
    requires Unique(rows)
    ensures Upsert(rows, Encode(w)).None? <==> !HasKey(rows, w.event) && UidTaken(rows, Encode(w).uid)
    ensures Upsert(rows, Encode(w)).None? ==> Apply(rows, Encode(w)) == rows
  {
    var at := FindFingerprint(rows, Encode(w).fingerprint);
    if at >= 0 { assert rows[at].fingerprint == Encode(w).fingerprint; }
  }

  /** The uid of an event whose source left it to the store, or made it in the same way. */
  predicate UidIsComputed(e: Event) {
    e.uid == "" || e.uid == EventUid(e.source, e.sourceId, e.title, e.startsAt)
  }

  /** The same entry of the same source, at another place. */
  predicate Moved(e: Event, moved: Event) {
    && e.source == moved.source && e.sourceId == moved.sourceId && Normalise(e.title) == Normalise(moved.title)
    && SecondOf(e.startsAt) == SecondOf(moved.startsAt) && Normalise(e.location) != Normalise(moved.location)
  }

  /** Uids do not look at the location: a moved event has the old uid under a new key. */
  lemma MovedKeepsUid(w: Write, moved: Write)
    requires UidIsComputed(w.event) && UidIsComputed(moved.event) && Moved(w.event, moved.event)
    ensures Encode(moved).uid == Encode(w).uid && !SameKey(moved.event, w.event)
  {
  }

  lemma UidStays(rows: seq<EventRow>, row: EventRow, uid: string)
    requires Unique(rows) && UidTaken(rows, uid)
    ensures UidTaken(Apply(rows, row), uid)
  {
    UpsertKeepsRows(rows, row);
    var i :| 0 <= i < |rows| && rows[i].uid == uid;
    assert Apply(rows, row)[i].uid == uid;
  }

  // ---------- reading back ----------

  function Decode(row: EventRow): Event {
    Event(row.uid, row.source, row.sourceId, row.title, row.description, row.location, row.url,
          ParseOrZero(row.startsAt), ParseOrZero(row.endsAt), row.status, row.anchor, row.score,
          ParseOrZero(row.createdAt), ParseOrZero(row.updatedAt))
  }

  /** What was written is read back: every field, times to the second, with the defaults filled in. */
  lemma EventRoundTrip(w: Write)
    requires InRange(SecondOf(w.event.startsAt)) && InRange(SecondOf(w.event.endsAt))
    requires InRange(SecondOf(w.event.createdAt)) && InRange(SecondOf(w.now))
    ensures var e := w.event;
            Decode(Encode(w))
            == e.(uid := if e.uid == "" then EventUid(e.source, e.sourceId, e.title, e.startsAt) else e.uid,
                  startsAt := WholeSecond(e.startsAt), endsAt := WholeSecond(e.endsAt),
                  createdAt := WholeSecond(if IsZero(e.createdAt) then w.now else e.createdAt),
                  updatedAt := WholeSecond(w.now))
  {
    FormatReadBack(w.event.startsAt);
    FormatReadBack(w.event.endsAt);
    FormatReadBack(w.event.createdAt);
    FormatReadBack(w.now);
  }

  function DecodeAll(rows: seq<EventRow>): (events: seq<Event>)
    ensures |events| == |rows| && forall i :: 0 <= i < |rows| ==> events[i] == Decode(rows[i])
  {
    seq(|rows|, i requires 0 <= i < |rows| => Decode(rows[i]))
  }

  function Filter(rows: seq<EventRow>, keep: EventRow -> bool): seq<EventRow> {
    if rows == [] then []
    else
      var rest := Filter(rows[..|rows| - 1], keep);
      var row := rows[|rows| - 1];
      if keep(row) then rest + [row] else rest
  }

  lemma {:induction false} FilterCounts(rows: seq<EventRow>, keep: EventRow -> bool)
    ensures forall row :: multiset(Filter(rows, keep))[row] == if keep(row) then multiset(rows)[row] else 0
  {
    if rows == [] {
    } else {
      FilterCounts(rows[..|rows| - 1], keep);
      assert rows == rows[..|rows| - 1] + [rows[|rows| - 1]];
    }
  }

  /** What a SELECT ... WHERE ... ORDER BY starts_at may answer; the order of equal texts is SQLite's. */
  ghost predicate OrderedSelection(answer: seq<EventRow>, rows: seq<EventRow>, where: EventRow -> bool) {
    && multiset(answer) == multiset(Filter(rows, where))
    && forall i, j :: 0 <= i < j < |answer| ==> TextLe(answer[i].startsAt, answer[j].startsAt)
  }

  function StartsFrom(from: Time): EventRow -> bool {
    (row: EventRow) => TextLe(Format(from), row.startsAt)
  }

  function AnyRow(): EventRow -> bool {
    (row: EventRow) => true
  }

  ghost predicate StartsInRange(rows: seq<EventRow>) {
    forall i :: 0 <= i < |rows| ==> IsStamp(rows[i].startsAt)
  }

  function StartOf(row: EventRow): Time {
    ParseOrZero(row.startsAt)
  }

  ghost predicate Chronological(rows: seq<EventRow>) {
    forall i, j :: 0 <= i < j < |rows| ==> StartOf(rows[i]) <= StartOf(rows[j])
  }

  lemma SelectedRow(answer: seq<EventRow>, rows: seq<EventRow>, where: EventRow -> bool, i: nat)
    requires OrderedSelection(answer, rows, where) && i < |answer|
    ensures answer[i] in rows && where(answer[i])
  {
    FilterCounts(rows, where);
    assert answer[i] in multiset(answer);
  }

  lemma SelectionIsChronological(answer: seq<EventRow>, rows: seq<EventRow>, where: EventRow -> bool)
    requires OrderedSelection(answer, rows, where) && StartsInRange(rows)
    ensures Chronological(answer)
  {
    forall i, j | 0 <= i < j < |answer| ensures StartOf(answer[i]) <= StartOf(answer[j]) {
      SelectedRow(answer, rows, where, i);
      SelectedRow(answer, rows, where, j);
      StampOrder(answer[i].startsAt, answer[j].startsAt);
    }
  }

  /** Every event written starts in years 0-9999. */
  predicate StartsWritable(ws: seq<Write>) {
    forall i :: 0 <= i < |ws| ==> InRange(SecondOf(ws[i].event.startsAt))
  }

  lemma ApplyKeepsInRange(rows: seq<EventRow>, row: EventRow)
    requires StartsInRange(rows) && IsStamp(row.startsAt)
    ensures StartsInRange(Apply(rows, row))
  {
    ApplyKeepsAll(rows, row, (r: EventRow) => IsStamp(r.startsAt));
  }

  lemma {:induction false} ReplayInRange(ws: seq<Write>)
    requires StartsWritable(ws)
    ensures StartsInRange(Replay(EncodeAll(ws)))
  {
    if ws == [] {
    } else {
      var before, w := ws[..|ws| - 1], ws[|ws| - 1];
      ReplayInRange(before);
      StampWritten(w);
      ApplyKeepsInRange(Replay(EncodeAll(before)), Encode(w));
      ReplayLast(ws);
    }
  }

  lemma StampWritten(w: Write)
    requires InRange(SecondOf(w.event.startsAt))
    ensures IsStamp(Encode(w).startsAt)
  {
    assert Encode(w).startsAt == Rfc3339(SecondOf(w.event.startsAt));
  }

  /** What the two queries owe each other for one table. */
  ghost predicate LaterOfAll(from: Time, upcoming: seq<EventRow>, all: seq<EventRow>) {
    && (forall row :: multiset(upcoming)[row]
            == if SecondOf(StartOf(row)) >= SecondOf(from) then multiset(all)[row] else 0)
    && Chronological(upcoming) && Chronological(all)
  }

  lemma UpcomingOfRows(rows: seq<EventRow>, from: Time, upcoming: seq<EventRow>, all: seq<EventRow>)
    requires StartsInRange(rows) && InRange(SecondOf(from))
    requires OrderedSelection(upcoming, rows, StartsFrom(from)) && OrderedSelection(all, rows, AnyRow())
    ensures multiset(all) == multiset(rows) && LaterOfAll(from, upcoming, all)
  {
    SelectionIsChronological(upcoming, rows, StartsFrom(from));
    SelectionIsChronological(all, rows, AnyRow());
    AllRowsSelected(rows, all);
    forall row
      ensures multiset(upcoming)[row] == if SecondOf(StartOf(row)) >= SecondOf(from) then multiset(rows)[row] else 0
    {
      UpcomingCount(rows, from, upcoming, row);
    }
  }

  /**
   After any writes of events that start in years 0-9999, and whatever order SQLite gives
   equal starts, the upcoming events are exactly those of all events whose start second is
   not before the given one, and both lists are in order of time.
   */
  lemma UpcomingAreTheLaterOfAll(ws: seq<Write>, from: Time, upcoming: seq<EventRow>, all: seq<EventRow>)
    requires StartsWritable(ws) && InRange(SecondOf(from))
    requires OrderedSelection(upcoming, Replay(EncodeAll(ws)), StartsFrom(from))
    requires OrderedSelection(all, Replay(EncodeAll(ws)), AnyRow())
    ensures multiset(all) == multiset(Replay(EncodeAll(ws))) && LaterOfAll(from, upcoming, all)
  {
    ReplayInRange(ws);
    UpcomingOfRows(Replay(EncodeAll(ws)), from, upcoming, all);
  }

  /** The query puts a start on the right side of a clock reading. */
  predicate SelectsRight(from: Time, start: int) {
    TextLe(Format(from), Rfc3339(start)) <==> SecondOf(from) <= start
  }

  lemma SelectsAsSorts(from: Time, second: int, start: int)
    requires second == SecondOf(from)
    ensures SelectsRight(from, start) <==> (TextLe(Rfc3339(second), Rfc3339(start)) <==> second <= start)
  {
  }

  lemma RightForAllReadings(start: int)
    requires SortsRight(start)
    ensures forall from: Time :: InRange(SecondOf(from)) ==> SelectsRight(from, start)
  {
    forall from: Time | InRange(SecondOf(from)) ensures SelectsRight(from, start) {
      SelectsAsSorts(from, SecondOf(from), start);
    }
  }

  lemma RightForAllSeconds(start: int)
    requires forall from: Time :: InRange(SecondOf(from)) ==> SelectsRight(from, start)
    ensures SortsRight(start)
  {
    forall a | InRange(a) ensures TextLe(Rfc3339(a), Rfc3339(start)) <==> a <= start {
      assert SecondOf(a * NANOS) == a;
      SelectsAsSorts(a * NANOS, a, start);
    }
  }

  /** It does so for every clock reading exactly for these starts. */
  lemma UpcomingExactly(start: int)
    ensures (forall from: Time :: InRange(SecondOf(from)) ==> SelectsRight(from, start))
            <==> start < 0 || InRange(start) || YearHead(start) == LAST_HEAD
  {
    TextOrderExactly(start);
    if SortsRight(start) {
      RightForAllReadings(start);
    } else if forall from: Time :: InRange(SecondOf(from)) ==> SelectsRight(from, start) {
      RightForAllSeconds(start);
    }
  }

  lemma AllRowsSelected(rows: seq<EventRow>, all: seq<EventRow>)
    requires multiset(all) == multiset(Filter(rows, AnyRow()))
    ensures multiset(all) == multiset(rows)
  {
    FilterCounts(rows, AnyRow());
  }

  lemma UpcomingCount(rows: seq<EventRow>, from: Time, upcoming: seq<EventRow>, row: EventRow)
    requires StartsInRange(rows) && InRange(SecondOf(from)) && OrderedSelection(upcoming, rows, StartsFrom(from))
    ensures multiset(upcoming)[row] == if SecondOf(StartOf(row)) >= SecondOf(from) then multiset(rows)[row] else 0
  {
    FilterCounts(rows, StartsFrom(from));
    if row in rows {
      StampAfter(row.startsAt, from);
    } else {
      assert row !in multiset(rows);
    }
  }
}
