/**
 Syncs and reviews running against one database. A statement or a transaction is one step.
 A sync prunes and upserts; a review action loads a candidate in one step and writes the
 whole snapshot back in another, so that any number of sync steps and of other reviewers'
 steps may fall in between. Runs are all sequences of steps, from the empty database.
 */
module Review {
  import opened Text
  import opened Model
  import opened Timestamps
  import opened Keys
  import EventRows
  import opened Events
  import opened CandidateRows
  import opened Candidates

  datatype Db = Db(candidates: Table, events: seq<EventRows.EventRow>)

  datatype Action = Approve | Reject | Restore

  /** A review between its load and its write-back. */
  datatype InFlight = InFlight(action: Action, now: Time, snapshot: Candidate)

  datatype Sys = Sys(db: Db, reviews: map<nat, InFlight>)

  datatype Step =
    | SyncPrune(now: Time)
    | SyncEvent(write: Write)
    | SyncCandidate(lead: Candidate, outcome: Outcome, now: Time)
    | Load(reviewer: nat, action: Action, now: Time, url: string)
    | WriteBack(reviewer: nat, at: Time)
    | Abandon(reviewer: nat)

  const EMPTY := Sys(Db(map[], []), map[])

  // ---------- transitions ----------

  function PublishedEvent(c: Candidate): Event {
    Event("", "reviewed-" + c.source, c.url, c.eventTitle, c.description, c.location, c.evidenceUrl, c.startTime,
          if IsZero(c.endTime) then c.startTime + 2 * HOUR else c.endTime,
          Tentative, false, c.score, ZERO_TIME, ZERO_TIME)
  }

  /** updateCandidate; None when no row has the URL. */
  function Update(table: Table, c: Candidate): Option<Table> {
    if c.url in table then Some(table[c.url := Overwrite(table[c.url], c)]) else None
  }

  /** The Publish transaction: both writes, or None and a rollback. */
  function Publish(db: Db, w: Write, c: Candidate): Option<Db> {
    var events := EventRows.Upsert(db.events, Encode(w));
    var candidates := Update(db.candidates, c);
    if events.Some? && candidates.Some? then Some(Db(candidates.value, events.value)) else None
  }

  /** The snapshot with the review columns of the action set. */
  function Reviewed(r: InFlight): Candidate {
    r.snapshot.(status := match r.action case Approve => Approved case Reject => Rejected case Restore => Pending,
                reviewedAt := Some(r.now))
  }

  function PublishWrite(r: InFlight, at: Time): Write {
    Write(PublishedEvent(r.snapshot), at)
  }

  function Finish(db: Db, r: InFlight, at: Time): Option<Db> {
    if r.action == Approve then
      if Gate(r.snapshot, r.now).Some? then None else Publish(db, PublishWrite(r, at), Reviewed(r))
    else
      var candidates := Update(db.candidates, Reviewed(r));
      if candidates.Some? then Some(db.(candidates := candidates.value)) else None
  }

  function OrSame(changed: Option<Db>, db: Db): Db {
    if changed.Some? then changed.value else db
  }

  function Next(s: Sys, step: Step): Sys {
    match step
    case SyncPrune(now) => s.(db := s.db.(candidates := Prune(s.db.candidates, now)))
    case SyncEvent(w) => s.(db := s.db.(events := EventRows.Apply(s.db.events, Encode(w))))
    case SyncCandidate(lead, outcome, now) =>
      s.(db := s.db.(candidates := Upsert(s.db.candidates, EncodeCandidate(Verify(lead, outcome), now))))
    case Load(reviewer, action, now, url) =>
      if url in s.db.candidates && Readable(s.db.candidates[url]) then
        s.(reviews := s.reviews[reviewer := InFlight(action, now, DecodeCandidate(s.db.candidates[url]))])
      else s
    case WriteBack(reviewer, at) =>
      if reviewer in s.reviews then
        Sys(OrSame(Finish(s.db, s.reviews[reviewer], at), s.db), s.reviews - {reviewer})
      else s
    case Abandon(reviewer) => s.(reviews := s.reviews - {reviewer})
  }

  function Run(steps: seq<Step>): Sys {
    if steps == [] then EMPTY else Next(Run(steps[..|steps| - 1]), steps[|steps| - 1])
  }

  /** What the pipeline guarantees of its own steps: it stores what sources and verification hand over. */
  predicate StepOk(step: Step) {
    step.SyncCandidate? ==> IsLead(step.lead) && ClockOk(step.outcome)
  }

  predicate AllOk(steps: seq<Step>) {
    forall i :: 0 <= i < |steps| ==> StepOk(steps[i])
  }

  // ---------- approved candidates are published ----------

  ghost predicate Published(row: CandidateRow, events: seq<EventRows.EventRow>) {
    && row.eventTitle != "" && row.startTime != "" && row.location != ""
    && (exists second :: row.startTime == Rfc3339(second))
    && EventRows.HasFingerprint(events, Fingerprint(row.eventTitle, row.startTime, row.location))
  }

  ghost predicate ApprovedPublished(db: Db) {
    && (forall url :: url in db.candidates && db.candidates[url].status == Approved ==>
         Published(db.candidates[url], db.events))
    && EventRows.Unique(db.events)
  }

  lemma FingerprintsStay(events: seq<EventRows.EventRow>, w: Write, fingerprint: string)
    requires EventRows.Unique(events) && EventRows.HasFingerprint(events, fingerprint)
    ensures EventRows.HasFingerprint(EventRows.Apply(events, Encode(w)), fingerprint)
  {
    EventRows.UpsertKeepsRows(events, Encode(w));
    var i :| 0 <= i < |events| && events[i].fingerprint == fingerprint;
    assert EventRows.Apply(events, Encode(w))[i].fingerprint == fingerprint;
  }

  /** Writing an event keeps every published candidate published. */
  lemma EventKeepsPublished(db: Db, w: Write)
    requires ApprovedPublished(db)
    ensures ApprovedPublished(db.(events := EventRows.Apply(db.events, Encode(w))))
  {
    EventRows.UpsertKeepsRows(db.events, Encode(w));
    forall url | url in db.candidates && db.candidates[url].status == Approved
      ensures Published(db.candidates[url], EventRows.Apply(db.events, Encode(w)))
    {
      var row := db.candidates[url];
      FingerprintsStay(db.events, w, Fingerprint(row.eventTitle, row.startTime, row.location));
    }
  }

  lemma CandidateKeepsPublished(db: Db, row: CandidateRow)
    requires ApprovedPublished(db) && row.status != Approved
    ensures ApprovedPublished(db.(candidates := Upsert(db.candidates, row)))
  {
  }

  /** The row written by an approval names the event written with it. */
  lemma ApprovalPublishes(r: InFlight, at: Time, stored: CandidateRow)
    requires Gate(r.snapshot, r.now).None?
    ensures var row := Overwrite(stored, Reviewed(r));
            && row.eventTitle != "" && row.startTime != "" && row.location != ""
            && row.startTime == Rfc3339(SecondOf(r.snapshot.startTime))
            && Encode(PublishWrite(r, at)).fingerprint == Fingerprint(row.eventTitle, row.startTime, row.location)
  {
    GateOpens(r.snapshot, r.now);
    FormatNotEmpty(r.snapshot.startTime);
  }

  /** A row that is put in place of another keeps the others published. */
  lemma RowKeepsPublished(db: Db, url: string, row: CandidateRow)
    requires ApprovedPublished(db) && (row.status == Approved ==> Published(row, db.events))
    ensures ApprovedPublished(db.(candidates := db.candidates[url := row]))
  {
  }

  lemma ApprovedDb(db: Db, r: InFlight, at: Time)
    requires Finish(db, r, at).Some? && r.action == Approve
    ensures var c, w := Reviewed(r), PublishWrite(r, at);
            && Gate(r.snapshot, r.now).None? && EventRows.Upsert(db.events, Encode(w)).Some? && c.url in db.candidates
            && Finish(db, r, at).value
               == Db(db.candidates[c.url := Overwrite(db.candidates[c.url], c)], EventRows.Apply(db.events, Encode(w)))
  {
  }

  lemma UpdatedDb(db: Db, r: InFlight, at: Time)
    requires Finish(db, r, at).Some? && r.action != Approve
    ensures var c := Reviewed(r);
            && c.url in db.candidates && Overwrite(db.candidates[c.url], c).status != Approved
            && Finish(db, r, at).value == db.(candidates := db.candidates[c.url := Overwrite(db.candidates[c.url], c)])
  {
  }

  lemma FinishUpdates(db: Db, r: InFlight, at: Time)
    ensures var after, c := OrSame(Finish(db, r, at), db).candidates, Reviewed(r);
            || after == db.candidates
            || (c.url in db.candidates && after == db.candidates[c.url := Overwrite(db.candidates[c.url], c)])
  {
    if Finish(db, r, at).Some? {
      if r.action == Approve { ApprovedDb(db, r, at); } else { UpdatedDb(db, r, at); }
    }
  }

  lemma FinishKeepsPublished(db: Db, r: InFlight, at: Time)
    requires ApprovedPublished(db)
    ensures ApprovedPublished(OrSame(Finish(db, r, at), db))
  {
    if Finish(db, r, at).Some? {
      var w, c := PublishWrite(r, at), Reviewed(r);
      if r.action == Approve {
        ApprovedDb(db, r, at);
        EventKeepsPublished(db, w);
        EventRows.UpsertKeepsRows(db.events, Encode(w));
        ApprovalPublishes(r, at, db.candidates[c.url]);
        RowKeepsPublished(db.(events := EventRows.Apply(db.events, Encode(w))), c.url,
            Overwrite(db.candidates[c.url], c));
      } else {
        UpdatedDb(db, r, at);
        RowKeepsPublished(db, c.url, Overwrite(db.candidates[c.url], c));
      }
    }
  }

  lemma PruneKeepsPublished(db: Db, now: Time)
    requires ApprovedPublished(db)
    ensures ApprovedPublished(db.(candidates := Prune(db.candidates, now)))
  {
  }

  lemma NextKeepsPublished(s: Sys, step: Step)
    requires ApprovedPublished(s.db) && StepOk(step)
    ensures ApprovedPublished(Next(s, step).db)
  {
    match step
    case SyncPrune(now) => PruneKeepsPublished(s.db, now);
    case SyncEvent(w) => EventKeepsPublished(s.db, w);
    case SyncCandidate(lead, outcome, now) =>
      VerifyContract(lead, outcome);
      CandidateKeepsPublished(s.db, EncodeCandidate(Verify(lead, outcome), now));
    case Load(_, _, _, _) =>
    case WriteBack(reviewer, at) =>
      if reviewer in s.reviews { FinishKeepsPublished(s.db, s.reviews[reviewer], at); }
    case Abandon(_) =>
  }

  lemma {:induction false} RunKeepsPublished(steps: seq<Step>)
    requires AllOk(steps)
    ensures ApprovedPublished(Run(steps).db)
  {
    if steps == [] {
    } else {
      RunKeepsPublished(steps[..|steps| - 1]);
      NextKeepsPublished(Run(steps[..|steps| - 1]), steps[|steps| - 1]);
    }
  }

  /** The events written by a step: by a sync, or by an approval that committed. */
  function StepWrites(s: Sys, step: Step): seq<Write> {
    match step
    case SyncEvent(w) => [w]
    case WriteBack(reviewer, at) =>
      if reviewer in s.reviews && s.reviews[reviewer].action == Approve && Finish(s.db, s.reviews[reviewer], at).Some?
      then [PublishWrite(s.reviews[reviewer], at)] else []
    case _ => []
  }

  function Writes(steps: seq<Step>): seq<Write> {
    if steps == [] then []
    else Writes(steps[..|steps| - 1]) + StepWrites(Run(steps[..|steps| - 1]), steps[|steps| - 1])
  }

  lemma FinishWrites(db: Db, r: InFlight, at: Time)
    ensures OrSame(Finish(db, r, at), db).events
            == if r.action == Approve && Finish(db, r, at).Some?
               then EventRows.Apply(db.events, Encode(PublishWrite(r, at)))
               else db.events
  {
    if Finish(db, r, at).Some? {
      if r.action == Approve { ApprovedDb(db, r, at); } else { UpdatedDb(db, r, at); }
    }
  }

  lemma WriteBackNext(s: Sys, step: Step)
    requires step.WriteBack?
    ensures Next(s, step)
            == if step.reviewer in s.reviews
               then Sys(OrSame(Finish(s.db, s.reviews[step.reviewer], step.at), s.db), s.reviews - {step.reviewer})
               else s
  {
  }

  /** The table of events after applying what a step writes. */
  function AppliedTo(events: seq<EventRows.EventRow>, ws: seq<Write>): seq<EventRows.EventRow> {
    if ws == [] then events else EventRows.Apply(events, Encode(ws[0]))
  }

  lemma WriteBackAppliesWrites(s: Sys, step: Step)
    requires step.WriteBack?
    ensures |StepWrites(s, step)| <= 1 && Next(s, step).db.events == AppliedTo(s.db.events, StepWrites(s, step))
  {
    WriteBackNext(s, step);
    if step.reviewer in s.reviews { FinishWrites(s.db, s.reviews[step.reviewer], step.at); }
  }

  lemma NextAppliesWrites(s: Sys, step: Step)
    ensures |StepWrites(s, step)| <= 1 && Next(s, step).db.events == AppliedTo(s.db.events, StepWrites(s, step))
  {
    if step.WriteBack? { WriteBackAppliesWrites(s, step); }
  }

  lemma ReplaySnoc(ws: seq<Write>, w: Write)
    ensures EventRows.Replay(EncodeAll(ws + [w])) == EventRows.Apply(EventRows.Replay(EncodeAll(ws)), Encode(w))
  {
    EncodeAllSnoc(ws, w);
    EventRows.ReplaySnoc(EncodeAll(ws), Encode(w));
  }

  /** Reviews and syncs together leave the table of exactly the events they wrote, in order. */
  lemma {:induction false} EventsAreTheWrites(steps: seq<Step>)
    ensures Run(steps).db.events == EventRows.Replay(EncodeAll(Writes(steps)))
  {
    if steps == [] {
    } else {
      var before, step := steps[..|steps| - 1], steps[|steps| - 1];
      EventsAreTheWrites(before);
      NextAppliesWrites(Run(before), step);
      var ws := StepWrites(Run(before), step);
      if ws == [] {
        assert Writes(steps) == Writes(before);
      } else {
        assert Writes(steps) == Writes(before) + [ws[0]];
        ReplaySnoc(Writes(before), ws[0]);
      }
    }
  }

  lemma RunKeepsUnique(steps: seq<Step>)
    ensures EventRows.Unique(Run(steps).db.events)
  {
    EventsAreTheWrites(steps);
    EventRows.ReplayKeepsUnique(EncodeAll(Writes(steps)));
  }

  lemma NextKeepsUid(s: Sys, step: Step, uid: string)
    requires EventRows.Unique(s.db.events) && EventRows.UidTaken(s.db.events, uid)
    ensures EventRows.UidTaken(Next(s, step).db.events, uid)
  {
    NextAppliesWrites(s, step);
    var ws := StepWrites(s, step);
    if ws != [] { UidStays(s.db.events, Encode(ws[0]), uid); }
  }

  lemma UidStaysSnoc(steps: seq<Step>, step: Step, uid: string)
    requires EventRows.UidTaken(Run(steps).db.events, uid)
    ensures EventRows.UidTaken(Run(steps + [step]).db.events, uid)
  {
    RunKeepsUnique(steps);
    NextKeepsUid(Run(steps), step, uid);
    RunSnoc(steps, step);
  }

  lemma {:induction false} UidsStay(steps: seq<Step>, more: seq<Step>, uid: string)
    requires EventRows.UidTaken(Run(steps).db.events, uid)
    ensures EventRows.UidTaken(Run(steps + more).db.events, uid)
    decreases |more|
  {
    if more == [] {
      assert steps + more == steps;
    } else {
      var before, last := more[..|more| - 1], more[|more| - 1];
      UidsStay(steps, before, uid);
      assert steps + more == (steps + before) + [last];
      UidStaysSnoc(steps + before, last, uid);
    }
  }

  /**
   A feed that moves an event: once the event is stored under its uid, the moved one is
   refused after every continuation of the run, exactly as long as no other write has stored
   the moved event's own key.
   */
  lemma MovedEventIsRefused(steps: seq<Step>, more: seq<Step>, w: Write, moved: Write)
    requires UidIsComputed(w.event) && UidIsComputed(moved.event) && Moved(w.event, moved.event)
    requires EventRows.UidTaken(Run(steps).db.events, Encode(w).uid)
    ensures var events := Run(steps + more).db.events;
            EventRows.Upsert(events, Encode(moved)).None? <==> !HasKey(events, moved.event)
  {
    MovedKeepsUid(w, moved);
    UidsStay(steps, more, Encode(w).uid);
    RunKeepsUnique(steps + more);
    RefusedExactly(Run(steps + more).db.events, moved);
  }

  /** In every run that writes events of years 0-9999, the upcoming events are the later ones of all events. */
  lemma UpcomingInEveryRun(steps: seq<Step>, from: Time, upcoming: seq<EventRows.EventRow>,
      all: seq<EventRows.EventRow>)
    requires StartsWritable(Writes(steps)) && InRange(SecondOf(from))
    requires OrderedSelection(upcoming, Run(steps).db.events, StartsFrom(from))
    requires OrderedSelection(all, Run(steps).db.events, AnyRow())
    ensures multiset(all) == multiset(Run(steps).db.events) && LaterOfAll(from, upcoming, all)
  {
    EventsAreTheWrites(steps);
    UpcomingAreTheLaterOfAll(Writes(steps), from, upcoming, all);
  }

  /** An event row carries a candidate's event: same start, and same title and location up to normalisation. */
  predicate Carries(event: EventRows.EventRow, row: CandidateRow) {
    && event.startsAt == row.startTime
    && Normalise(event.title) == Normalise(row.eventTitle)
    && Normalise(event.location) == Normalise(row.location)
  }

  /** In every run, every approved candidate has its event in the table. */
  lemma ApprovedIsPublished(steps: seq<Step>, url: string) returns (i: nat)
    requires AllOk(steps)
    requires url in Run(steps).db.candidates && Run(steps).db.candidates[url].status == Approved
    ensures i < |Run(steps).db.events| && Carries(Run(steps).db.events[i], Run(steps).db.candidates[url])
  {
    RunKeepsPublished(steps);
    EventsAreTheWrites(steps);
    ReplayKeepsCurrent(Writes(steps));
    var db := Run(steps).db;
    i := PublishedRow(db.candidates[url], db.events);
  }

  lemma PublishedRow(row: CandidateRow, events: seq<EventRows.EventRow>) returns (i: nat)
    requires Published(row, events) && AllCurrent(events)
    ensures i < |events| && Carries(events[i], row)
  {
    i :| 0 <= i < |events| && events[i].fingerprint == Fingerprint(row.eventTitle, row.startTime, row.location);
    var s :| row.startTime == Rfc3339(s);
    assert FingerprintIsCurrent(events[i]);
    var t :| events[i].startsAt == Rfc3339(t);
    FingerprintInjective(row.eventTitle, s, row.location, events[i].title, t, events[i].location);
  }

  predicate CarriesTexts(event: EventRows.EventRow, c: Candidate) {
    && event.source == "reviewed-" + c.source && event.sourceId == c.url && event.title == c.eventTitle
    && event.description == c.description && event.location == c.location && event.url == c.evidenceUrl
    && event.status == Tentative && !event.anchor && event.score == c.score
  }

  predicate CarriesTimes(event: EventRows.EventRow, c: Candidate) {
    && event.startsAt == Format(c.startTime)
    && event.endsAt == Format(if IsZero(c.endTime) then c.startTime + 7_200 * NANOS else c.endTime)
  }

  /** The event row of an approval carries the whole of what the reviewer saw. */
  predicate CarriesReviewed(event: EventRows.EventRow, r: InFlight) {
    CarriesTexts(event, r.snapshot) && CarriesTimes(event, r.snapshot)
  }

  lemma WrittenRow(rows: seq<EventRows.EventRow>, row: EventRows.EventRow) returns (i: nat)
    requires EventRows.Upsert(rows, row).Some?
    requires forall j :: 0 <= j < |rows| && rows[j].fingerprint == row.fingerprint ==> rows[j].startsAt == row.startsAt
    ensures i < |EventRows.Apply(rows, row)|
    ensures EventRows.Apply(rows, row)[i]
            == row.(uid := EventRows.Apply(rows, row)[i].uid, createdAt := EventRows.Apply(rows, row)[i].createdAt)
  {
    var at := EventRows.FindFingerprint(rows, row.fingerprint);
    i := if at >= 0 then at else |rows|;
  }

  lemma ReviewedTexts(row: EventRows.EventRow, c: Candidate, e: Event)
    requires HasTexts(row, e) && e == PublishedEvent(c)
    ensures CarriesTexts(row, c)
  {
  }

  lemma ReviewedTimes(row: EventRows.EventRow, c: Candidate, e: Event)
    requires HasTimes(row, e) && e == PublishedEvent(c)
    ensures CarriesTimes(row, c)
  {
  }

  lemma ReviewedRow(row: EventRows.EventRow, r: InFlight)
    requires HasColumns(row, PublishedEvent(r.snapshot))
    ensures CarriesReviewed(row, r)
  {
    ReviewedTexts(row, r.snapshot, PublishedEvent(r.snapshot));
    ReviewedTimes(row, r.snapshot, PublishedEvent(r.snapshot));
  }

  lemma SameStarts(events: seq<EventRows.EventRow>, w: Write)
    requires AllCurrent(events)
    ensures forall j :: 0 <= j < |events| && events[j].fingerprint == Encode(w).fingerprint ==>
             events[j].startsAt == Encode(w).startsAt
  {
    EncodedIsCurrent(w);
    forall j | 0 <= j < |events| && events[j].fingerprint == Encode(w).fingerprint
      ensures events[j].startsAt == Encode(w).startsAt
    {
      SameFingerprint(events[j], Encode(w));
    }
  }

  lemma FinishedApproval(db: Db, r: InFlight, at: Time)
    requires r.action == Approve && Finish(db, r, at).Some?
    ensures EventRows.Upsert(db.events, Encode(PublishWrite(r, at))).Some?
    ensures Finish(db, r, at).value.events == EventRows.Apply(db.events, Encode(PublishWrite(r, at)))
    ensures r.snapshot.url in Finish(db, r, at).value.candidates
    ensures var row := Finish(db, r, at).value.candidates[r.snapshot.url];
            row.status == Approved && row.reviewedAt == Some(Format(r.now))
  {
  }

  /** A committed approval leaves the reviewed event in the table and the candidate approved, whatever was there. */
  lemma ApprovalIsVisible(db: Db, r: InFlight, at: Time) returns (i: nat)
    requires AllCurrent(db.events) && r.action == Approve && Finish(db, r, at).Some?
    ensures var after := Finish(db, r, at).value;
            && i < |after.events| && CarriesReviewed(after.events[i], r)
            && r.snapshot.url in after.candidates && after.candidates[r.snapshot.url].status == Approved
            && after.candidates[r.snapshot.url].reviewedAt == Some(Format(r.now))
  {
    var w := PublishWrite(r, at);
    FinishedApproval(db, r, at);
    SameStarts(db.events, w);
    EncodedColumns(w);
    ReviewedRow(Encode(w), r);
    i := WrittenRow(db.events, Encode(w));
  }

  // ---------- what ends an approval ----------

  /** The step that takes an approval back: a rejection or a restore of that candidate. */
  predicate TakesBack(s: Sys, step: Step, url: string) {
    && step.WriteBack? && step.reviewer in s.reviews
    && s.reviews[step.reviewer].action != Approve && s.reviews[step.reviewer].snapshot.url == url
  }

  lemma FinishStatus(db: Db, r: InFlight, at: Time, url: string)
    requires url in db.candidates && db.candidates[url].status == Approved
    ensures var after := OrSame(Finish(db, r, at), db);
            && url in after.candidates
            && (after.candidates[url].status == Approved <==> !(r.action != Approve && r.snapshot.url == url))
  {
  }

  /** No other step ends an approval or removes the row; in particular neither prune nor re-discovery. */
  lemma ApprovalStays(s: Sys, step: Step, url: string)
    requires url in s.db.candidates && s.db.candidates[url].status == Approved
    ensures url in Next(s, step).db.candidates
    ensures Next(s, step).db.candidates[url].status == Approved <==> !TakesBack(s, step, url)
  {
    if step.WriteBack? && step.reviewer in s.reviews {
      FinishStatus(s.db, s.reviews[step.reviewer], step.at, url);
    }
  }

  // ---------- evidence comes from one verification ----------

  function StepFindings(step: Step): set<Evidence> {
    if step.SyncCandidate? && Succeeded(step.outcome) then {EvidenceFrom(Verify(step.lead, step.outcome))} else {}
  }

  /** The evidence of every successful verification of a run. */
  function Findings(steps: seq<Step>): set<Evidence> {
    if steps == [] then {} else Findings(steps[..|steps| - 1]) + StepFindings(steps[|steps| - 1])
  }

  /** Every successful verification of the step found a start that the store can write and read back. */
  predicate StepStorable(step: Step) {
    step.SyncCandidate? && Succeeded(step.outcome) ==> Storable(Verify(step.lead, step.outcome).startTime)
  }

  predicate AllStorable(steps: seq<Step>) {
    forall i :: 0 <= i < |steps| ==> StepStorable(steps[i])
  }

  predicate SnapshotIntact(c: Candidate, found: set<Evidence>) {
    && (EvidenceFrom(c).Empty() || EvidenceFrom(c) in found)
    && (c.verification == Verified ==> EvidenceFrom(c) in found)
  }

  ghost predicate AllStable(found: set<Evidence>) {
    forall e :: e in found ==> StableStart(e.start)
  }

  ghost predicate EvidenceOk(s: Sys, found: set<Evidence>) {
    && AllIntact(s.db.candidates, found) && AllComplete(found) && AllStable(found)
    && forall r :: r in s.reviews ==> SnapshotIntact(s.reviews[r].snapshot, found)
  }

  lemma StepFindingsOk(step: Step)
    requires StepOk(step) && StepStorable(step)
    ensures AllComplete(StepFindings(step)) && AllStable(StepFindings(step))
  {
    if step.SyncCandidate? && Succeeded(step.outcome) {
      VerifyContract(step.lead, step.outcome);
      StoredStart(Verify(step.lead, step.outcome).startTime);
    }
  }

  /** Loading keeps the six columns as they are stored. */
  lemma LoadedIntact(row: CandidateRow, found: set<Evidence>)
    requires Intact(row, found) && AllStable(found)
    ensures EvidenceFrom(DecodeCandidate(row)) == EvidenceOf(row) && SnapshotIntact(DecodeCandidate(row), found)
  {
    if !EvidenceOf(row).Empty() { assert StableStart(EvidenceOf(row).start); }
    StableReload(row.startTime);
  }

  lemma VerifiedRowIntact(step: Step, found: set<Evidence>)
    requires step.SyncCandidate? && StepOk(step) && StepFindings(step) <= found
    ensures Intact(EncodeCandidate(Verify(step.lead, step.outcome), step.now), found)
  {
    VerifyContract(step.lead, step.outcome);
    var c := Verify(step.lead, step.outcome);
    assert EvidenceOf(EncodeCandidate(c, step.now)) == EvidenceFrom(c);
  }

  lemma FinishKeepsIntact(db: Db, r: InFlight, at: Time, found: set<Evidence>)
    requires AllIntact(db.candidates, found) && SnapshotIntact(r.snapshot, found)
    ensures AllIntact(OrSame(Finish(db, r, at), db).candidates, found)
  {
    var url, c := r.snapshot.url, Reviewed(r);
    var after := OrSame(Finish(db, r, at), db).candidates;
    assert EvidenceFrom(c) == EvidenceFrom(r.snapshot);
    if url in db.candidates {
      assert EvidenceOf(Overwrite(db.candidates[url], c)) == EvidenceFrom(c);
      assert Intact(Overwrite(db.candidates[url], c), found);
    }
    forall u | u in after ensures Intact(after[u], found) {
      assert u in db.candidates && (after[u] == db.candidates[u]
          || (u == url && after[u] == Overwrite(db.candidates[url], c)));
    }
  }

  lemma NextKeepsEvidence(s: Sys, step: Step, found: set<Evidence>)
    requires EvidenceOk(s, found) && StepOk(step) && StepFindings(step) <= found
    ensures EvidenceOk(Next(s, step), found)
  {
    match step
    case SyncPrune(now) =>
    case SyncEvent(w) =>
    case SyncCandidate(lead, outcome, now) =>
      VerifiedRowIntact(step, found);
      UpsertKeepsIntact(s.db.candidates, EncodeCandidate(Verify(lead, outcome), now), found);
    case Load(_, _, _, url) =>
      if url in s.db.candidates { LoadedIntact(s.db.candidates[url], found); }
    case WriteBack(reviewer, at) =>
      if reviewer in s.reviews { FinishKeepsIntact(s.db, s.reviews[reviewer], at, found); }
    case Abandon(_) =>
  }

  lemma MoreFindings(s: Sys, found: set<Evidence>, more: set<Evidence>)
    requires EvidenceOk(s, found) && AllComplete(more) && AllStable(more)
    ensures EvidenceOk(s, found + more)
  {
  }

  lemma {:induction false} RunKeepsEvidence(steps: seq<Step>)
    requires AllOk(steps) && AllStorable(steps)
    ensures EvidenceOk(Run(steps), Findings(steps))
  {
    if steps == [] {
    } else {
      var before, step := steps[..|steps| - 1], steps[|steps| - 1];
      RunKeepsEvidence(before);
      StepFindingsOk(step);
      MoreFindings(Run(before), Findings(before), StepFindings(step));
      NextKeepsEvidence(Run(before), step, Findings(steps));
    }
  }

  /**
   In every run, under any interleaving, the six evidence columns of a row are all empty or
   all from one successful verification, and a verified row has all six.
   */
  lemma EvidenceIsOneFinding(steps: seq<Step>, url: string)
    requires AllOk(steps) && AllStorable(steps) && url in Run(steps).db.candidates
    ensures var row := Run(steps).db.candidates[url];
            && (EvidenceOf(row).Empty() || EvidenceOf(row) in Findings(steps))
            && (row.verification == Verified ==> EvidenceOf(row) in Findings(steps) && EvidenceOf(row).Complete())
  {
    RunKeepsEvidence(steps);
    assert Intact(Run(steps).db.candidates[url], Findings(steps));
  }

  // ---------- and exactly when ----------

  /** The start of every successful verification of the run is one of the admissible times. */
  predicate StartsIn(steps: seq<Step>, admissible: Time -> bool) {
    forall i :: 0 <= i < |steps| && steps[i].SyncCandidate? && Succeeded(steps[i].outcome)
                ==> admissible(Verify(steps[i].lead, steps[i].outcome).startTime)
  }

  /** A verified start lies after 1970; of those, every admissible one has a UTC year of at most 9999. */
  ghost predicate AllAdmissibleStorable(admissible: Time -> bool) {
    forall start: Time :: admissible(start) && start > EPOCH * NANOS ==> Storable(start)
  }

  lemma AdmissibleIsStorable(steps: seq<Step>, admissible: Time -> bool)
    requires AllOk(steps) && StartsIn(steps, admissible) && AllAdmissibleStorable(admissible)
    ensures AllStorable(steps)
  {
    forall i | 0 <= i < |steps| ensures StepStorable(steps[i]) {
      assert StepOk(steps[i]);
      if steps[i].SyncCandidate? && Succeeded(steps[i].outcome) { VerifyContract(steps[i].lead, steps[i].outcome); }
    }
  }

  function FoundLead(clock: Time): Candidate {
    Lead("s", "t", "u", "", 0, clock)
  }

  function FoundPage(start: Time, clock: Time): Outcome {
    Asked(Page("t", Some(start), None, "l", "u", "d", "p", ""), clock, clock)
  }

  /** One verification with the given start, loaded by a reviewer, and rejected. */
  function RejectAfterLoad(start: Time, clock: Time): seq<Step> {
    [] + [SyncCandidate(FoundLead(clock), FoundPage(start, clock), clock)]
    + [Load(0, Reject, clock, "u")] + [WriteBack(0, clock)]
  }

  lemma RunSnoc(steps: seq<Step>, step: Step)
    ensures Run(steps + [step]) == Next(Run(steps), step)
    ensures Findings(steps + [step]) == Findings(steps) + StepFindings(step)
  {
    assert (steps + [step])[..|steps|] == steps;
  }

  predicate ClockBefore(clock: Time, start: Time) {
    EPOCH * NANOS <= clock < start && InRange(SecondOf(clock))
  }

  lemma FoundCandidate(start: Time, clock: Time)
    requires ClockBefore(clock, start)
    ensures var c := Verify(FoundLead(clock), FoundPage(start, clock));
            && c.url == "u" && c.verifiedAt == Some(clock) && c.reviewedAt == None && c.startTime == start
            && EvidenceFrom(c) == Evidence("t", FormatOptional(start), "l", "u", "d", "p")
    ensures Succeeded(FoundPage(start, clock))
  {
  }

  lemma StoredCandidate(c: Candidate, clock: Time)
    requires InRange(SecondOf(clock)) && c.verifiedAt == Some(clock) && c.reviewedAt == None
    ensures var row := EncodeCandidate(c, clock);
            Readable(row) && row.url == c.url && EvidenceOf(row) == EvidenceFrom(c)
  {
    ParseFormat(SecondOf(clock));
  }

  /** The row after the verification. */
  lemma VerifiedRow(start: Time, clock: Time)
    requires ClockBefore(clock, start)
    ensures var after := Next(EMPTY, SyncCandidate(FoundLead(clock), FoundPage(start, clock), clock));
            && "u" in after.db.candidates && after.reviews == map[]
            && var row := after.db.candidates["u"];
               && row.url == "u" && Readable(row) && row.status == Pending && row.verification == Verified
               && row.startTime == FormatOptional(start)
               && EvidenceOf(row) == Evidence("t", FormatOptional(start), "l", "u", "d", "p")
  {
    FoundCandidate(start, clock);
    StoredCandidate(Verify(FoundLead(clock), FoundPage(start, clock)), clock);
  }

  lemma RejectedDb(db: Db, r: InFlight, at: Time)
    requires r.action == Reject && r.snapshot.url in db.candidates
    ensures var after, url := OrSame(Finish(db, r, at), db).candidates, r.snapshot.url;
            url in after && after[url] == Overwrite(db.candidates[url], Reviewed(r))
  {
  }

  lemma OverwrittenEvidence(row: CandidateRow, r: InFlight)
    ensures EvidenceOf(Overwrite(row, Reviewed(r))) == EvidenceFrom(r.snapshot)
  {
  }

  /** Load and rejection rewrite the row from what was read. */
  lemma RejectedRow(s: Sys, clock: Time)
    requires "u" in s.db.candidates && s.db.candidates["u"].url == "u" && Readable(s.db.candidates["u"])
             && s.reviews == map[]
    ensures var after := Next(Next(s, Load(0, Reject, clock, "u")), WriteBack(0, clock)).db.candidates;
            && "u" in after
            && EvidenceOf(after["u"]) == EvidenceFrom(DecodeCandidate(s.db.candidates["u"]))
  {
    var load := Load(0, Reject, clock, "u");
    var r := InFlight(Reject, clock, DecodeCandidate(s.db.candidates["u"]));
    LoadNext(s, load);
    WriteBackNext(Next(s, load), WriteBack(0, clock));
    RejectedDb(s.db, r, clock);
    OverwrittenEvidence(s.db.candidates["u"], r);
  }

  lemma RejectAfterLoadOk(start: Time, clock: Time)
    requires ClockBefore(clock, start)
    ensures AllOk(RejectAfterLoad(start, clock)) && StartsIn(RejectAfterLoad(start, clock), t => t == start)
  {
    FoundCandidate(start, clock);
  }

  lemma RejectAfterLoadRun(start: Time, clock: Time)
    requires ClockBefore(clock, start)
    ensures var s := Run(RejectAfterLoad(start, clock));
            && "u" in s.db.candidates
            && EvidenceOf(s.db.candidates["u"])
               == Evidence("t", FormatOptional(ParseOrZero(FormatOptional(start))), "l", "u", "d", "p")
    ensures Findings(RejectAfterLoad(start, clock)) == {Evidence("t", FormatOptional(start), "l", "u", "d", "p")}
  {
    var first := SyncCandidate(FoundLead(clock), FoundPage(start, clock), clock);
    var load, back := Load(0, Reject, clock, "u"), WriteBack(0, clock);
    RunSnoc([], first);
    RunSnoc([] + [first], load);
    RunSnoc([] + [first] + [load], back);
    FoundCandidate(start, clock);
    VerifiedRow(start, clock);
    RejectedRow(Next(EMPTY, first), clock);
  }

  lemma UnstorableStartBreaks(start: Time, clock: Time)
    requires ClockBefore(clock, start) && !Storable(start)
    ensures var steps := RejectAfterLoad(start, clock);
            AllOk(steps) && StartsIn(steps, t => t == start) && !AllIntact(Run(steps).db.candidates, Findings(steps))
  {
    RejectAfterLoadOk(start, clock);
    RejectAfterLoadRun(start, clock);
    StoredStart(start);
    var steps := RejectAfterLoad(start, clock);
    assert !Intact(Run(steps).db.candidates["u"], Findings(steps));
  }

  /**
   Verified starts from a set of times keep every row's evidence in one piece in every run if
   and only if the UTC year of each is at most 9999. A later start is stored with a
   five-digit year, reads back as the zero time, and is blanked by the next write-back.
   */
  lemma EvidenceHoldsExactly(admissible: Time -> bool)
    ensures AllAdmissibleStorable(admissible)
            <==> forall steps :: AllOk(steps) && StartsIn(steps, admissible)
                                 ==> AllIntact(Run(steps).db.candidates, Findings(steps))
  {
    if AllAdmissibleStorable(admissible) {
      forall steps | AllOk(steps) && StartsIn(steps, admissible)
        ensures AllIntact(Run(steps).db.candidates, Findings(steps))
      {
        AdmissibleIsStorable(steps, admissible);
        RunKeepsEvidence(steps);
      }
    } else {
      var start: Time :| admissible(start) && start > EPOCH * NANOS && !Storable(start);
      assert ClockBefore(EPOCH * NANOS, start);
      var clock :| ClockBefore(clock, start);
      UnstorableStartBreaks(start, clock);
      assert StartsIn(RejectAfterLoad(start, clock), admissible);
    }
  }

  // ---------- pruning and the gate ----------

  /** For an intact row the emptiness refusals are out of reach and pruning is the past refusal. */
  lemma PruneIsPastGate(row: CandidateRow, found: set<Evidence>, now: Time)
    requires Intact(row, found) && AllComplete(found) && AllStable(found) && InRange(SecondOf(now))
    ensures Prunable(row, now) <==> row.status != Approved && Gate(DecodeCandidate(row), now) == Some(InPast)
    ensures row.verification == Verified ==> Gate(DecodeCandidate(row), now) in {None, Some(InPast)}
  {
    if row.verification == Verified {
      assert EvidenceOf(row) in found;
      assert EvidenceOf(row).Complete() && StableStart(EvidenceOf(row).start);
      StableReload(row.startTime);
      StampAfter(row.startTime, now);
    }
  }

  /**
   What pruning owes the gate, for one row: it deletes exactly the unapproved rows that the
   gate at the same `now` refuses as past; what is left is unchanged, and if it is verified
   and unapproved it passes the gate.
   */
  predicate PruneRight(table: Table, url: string, now: Time)
    requires url in table
  {
    var row, pruned := table[url], Prune(table, now);
    && (url !in pruned <==> row.status != Approved && Gate(DecodeCandidate(row), now) == Some(InPast))
    && (url in pruned ==> pruned[url] == row)
    && (url in pruned && row.status != Approved && row.verification == Verified
        ==> Gate(DecodeCandidate(row), now) == None)
  }

  /** In every reachable state of a run with storable starts, pruning and the gate agree. */
  lemma PruneMatchesGate(steps: seq<Step>, now: Time, url: string)
    requires AllOk(steps) && AllStorable(steps) && InRange(SecondOf(now)) && url in Run(steps).db.candidates
    ensures PruneRight(Run(steps).db.candidates, url, now)
  {
    RunKeepsEvidence(steps);
    PruneIsPastGate(Run(steps).db.candidates[url], Findings(steps), now);
  }

  /** One verification with the given start, and nothing else. */
  function JustFound(start: Time, clock: Time): seq<Step> {
    [] + [SyncCandidate(FoundLead(clock), FoundPage(start, clock), clock)]
  }

  lemma GateWithoutStart(row: CandidateRow, now: Time)
    requires row.verification == Verified && row.eventTitle != "" && IsZero(ParseOrZero(row.startTime))
    ensures Gate(DecodeCandidate(row), now) == Some(MissingStartTime)
  {
  }

  lemma JustFoundRun(start: Time, clock: Time)
    requires ClockBefore(clock, start)
    ensures AllOk(JustFound(start, clock)) && StartsIn(JustFound(start, clock), t => t == start)
    ensures Run(JustFound(start, clock)) == Next(EMPTY, SyncCandidate(FoundLead(clock), FoundPage(start, clock), clock))
  {
    var step := SyncCandidate(FoundLead(clock), FoundPage(start, clock), clock);
    RunSnoc([], step);
    FoundCandidate(start, clock);
    assert JustFound(start, clock) == [step];
  }

  /** A start that does not read back makes a verified row that the gate refuses as having no start. */
  lemma UnstorableRow(start: Time, clock: Time, now: Time)
    requires ClockBefore(clock, start) && !Storable(start)
    ensures AllOk(JustFound(start, clock)) && StartsIn(JustFound(start, clock), t => t == start)
    ensures var table := Run(JustFound(start, clock)).db.candidates;
            && "u" in table && table["u"].verification == Verified && table["u"].status == Pending
            && table["u"].startTime == FormatOptional(start)
            && Gate(DecodeCandidate(table["u"]), now) == Some(MissingStartTime)
  {
    JustFoundRun(start, clock);
    VerifiedRow(start, clock);
    StoredStart(start);
    var row := Run(JustFound(start, clock)).db.candidates["u"];
    assert row.eventTitle == EvidenceOf(row).title == "t";
    GateWithoutStart(row, now);
  }

  lemma UnstorablePrunesWrong(start: Time, clock: Time, now: Time)
    requires ClockBefore(clock, start) && !Storable(start)
    ensures var steps := JustFound(start, clock);
            && AllOk(steps) && StartsIn(steps, t => t == start) && "u" in Run(steps).db.candidates
            && !PruneRight(Run(steps).db.candidates, "u", now)
  {
    UnstorableRow(start, clock, now);
  }

  /**
   Verified starts from a set of times keep pruning and the gate in agreement in every
   reachable state if and only if the UTC year of each is at most 9999.
   */
  lemma PruneHoldsExactly(admissible: Time -> bool, now: Time)
    requires InRange(SecondOf(now))
    ensures AllAdmissibleStorable(admissible)
            <==> forall steps, url :: AllOk(steps) && StartsIn(steps, admissible) && url in Run(steps).db.candidates
                                      ==> PruneRight(Run(steps).db.candidates, url, now)
  {
    if AllAdmissibleStorable(admissible) {
      forall steps, url | AllOk(steps) && StartsIn(steps, admissible) && url in Run(steps).db.candidates
        ensures PruneRight(Run(steps).db.candidates, url, now)
      {
        AdmissibleIsStorable(steps, admissible);
        PruneMatchesGate(steps, now, url);
      }
    } else {
      var start: Time :| admissible(start) && start > EPOCH * NANOS && !Storable(start);
      assert ClockBefore(EPOCH * NANOS, start);
      var clock :| ClockBefore(clock, start);
      UnstorablePrunesWrong(start, clock, now);
      assert StartsIn(JustFound(start, clock), admissible);
    }
  }

  /**
   One way it goes wrong: a candidate verified for year 10000 is pruned years before, though
   the gate never calls it past, because the row reads as having no start at all.
   */
  lemma FarFutureIsPruned(start: Time, clock: Time, now: Time)
    requires ClockBefore(clock, start)
    requires ToCivil(SecondOf(start)).year == 10000 && 2000 <= ToCivil(SecondOf(now)).year <= 9999
    ensures var table := Run(JustFound(start, clock)).db.candidates;
            && start > now && "u" in table && "u" !in Prune(table, now)
            && Gate(DecodeCandidate(table["u"]), now) == Some(MissingStartTime)
  {
    TextOrderFailsBeyondRange(SecondOf(now), SecondOf(start));
    YearInRange(SecondOf(start));
    UnstorableRow(start, clock, now);
  }

  // ---------- rows under their own URLs ----------

  /** Each row is stored under its URL. */
  predicate KeysAreUrls(db: Db) {
    forall url :: url in db.candidates ==> db.candidates[url].url == url
  }

  lemma NextKeepsKeys(s: Sys, step: Step)
    requires KeysAreUrls(s.db)
    ensures KeysAreUrls(Next(s, step).db)
  {
    if step.WriteBack? && step.reviewer in s.reviews { FinishKeepsKeys(s.db, s.reviews[step.reviewer], step.at); }
  }

  lemma FinishKeepsKeys(db: Db, r: InFlight, at: Time)
    requires KeysAreUrls(db)
    ensures KeysAreUrls(OrSame(Finish(db, r, at), db))
  {
  }

  lemma {:induction false} RunKeepsKeys(steps: seq<Step>)
    ensures KeysAreUrls(Run(steps).db)
  {
    if steps == [] {
    } else {
      RunKeepsKeys(steps[..|steps| - 1]);
      NextKeepsKeys(Run(steps[..|steps| - 1]), steps[|steps| - 1]);
    }
  }

  lemma FinishTouches(db: Db, r: InFlight, at: Time)
    ensures var after := OrSame(Finish(db, r, at), db).candidates;
            && after.Keys == db.candidates.Keys
            && forall other :: other in db.candidates && other != r.snapshot.url ==>
                after[other] == db.candidates[other]
  {
    FinishUpdates(db, r, at);
  }

  lemma LoadedSnapshot(s: Sys, reviewer: nat, action: Action, now: Time, url: string)
    requires url in s.db.candidates && Readable(s.db.candidates[url])
    ensures var loaded := Next(s, Load(reviewer, action, now, url));
            reviewer in loaded.reviews && loaded.reviews[reviewer].snapshot.url == s.db.candidates[url].url
  {
  }

  /**
   In every run, a review that loaded a URL writes back to that URL and to no other row, whatever
   the table is by then.
   */
  lemma ReviewTouchesItsRow(steps: seq<Step>, reviewer: nat, action: Action, now: Time, url: string, db: Db, at: Time)
    requires url in Run(steps).db.candidates && Readable(Run(steps).db.candidates[url])
    ensures var loaded := Next(Run(steps), Load(reviewer, action, now, url));
            && reviewer in loaded.reviews && loaded.reviews[reviewer].snapshot.url == url
            && var after := OrSame(Finish(db, loaded.reviews[reviewer], at), db).candidates;
               && after.Keys == db.candidates.Keys
               && forall other :: other in db.candidates && other != url ==> after[other] == db.candidates[other]
  {
    RunKeepsKeys(steps);
    var s := Run(steps);
    LoadedSnapshot(s, reviewer, action, now, url);
    FinishTouches(db, Next(s, Load(reviewer, action, now, url)).reviews[reviewer], at);
  }

  // ---------- columns that read back ----------

  /** The times of a step can be written and read back. */
  predicate StepTimesOk(step: Step) {
    match step
    case SyncCandidate(lead, outcome, _) =>
      var c := Verify(lead, outcome);
      StableTime(c.startTime) && StableTime(c.endTime) && (c.verifiedAt.Some? ==> InRange(SecondOf(c.verifiedAt.value)))
    case Load(_, _, now, _) => InRange(SecondOf(now))
    case _ => true
  }

  predicate AllTimesOk(steps: seq<Step>) {
    forall i :: 0 <= i < |steps| ==> StepTimesOk(steps[i])
  }

  ghost predicate StableSys(s: Sys) {
    StableTable(s.db.candidates) && StableReviews(s.reviews)
  }

  lemma StampOfTime(t: Time)
    requires InRange(SecondOf(t))
    ensures IsStamp(Format(t))
  {
  }

  lemma VerifiedTimes(step: Step)
    requires step.SyncCandidate? && StepOk(step) && StepTimesOk(step)
    ensures StableTimes(Verify(step.lead, step.outcome))
  {
    var c := Verify(step.lead, step.outcome);
    assert c.reviewedAt == None;
    TimesAreStable(c);
  }

  lemma TimesAreStable(c: Candidate)
    requires StableTime(c.startTime) && StableTime(c.endTime) && c.reviewedAt == None
    requires c.verifiedAt.Some? ==> InRange(SecondOf(c.verifiedAt.value))
    ensures StableTimes(c)
  {
    StableTimeIsStable(c.startTime);
    StableTimeIsStable(c.endTime);
    if c.verifiedAt.Some? { StampOfTime(c.verifiedAt.value); }
  }

  lemma ReviewStaysStable(r: InFlight)
    requires StableTimes(r.snapshot) && InRange(SecondOf(r.now))
    ensures StableTimes(Reviewed(r)) && Reviewed(r).url == r.snapshot.url
  {
    StampOfTime(r.now);
  }

  lemma FinishKeepsStable(db: Db, r: InFlight, at: Time)
    requires StableTable(db.candidates) && StableTimes(r.snapshot) && InRange(SecondOf(r.now))
    ensures StableTable(OrSame(Finish(db, r, at), db).candidates)
  {
    var c := Reviewed(r);
    FinishUpdates(db, r, at);
    ReviewStaysStable(r);
    if c.url in db.candidates { OverwrittenStable(db.candidates[c.url], c); }
  }

  ghost predicate StableTable(table: Table) {
    forall url :: url in table ==> StableRow(table[url])
  }

  lemma UpsertKeepsStable(table: Table, row: CandidateRow)
    requires StableTable(table) && StableRow(row)
    ensures StableTable(Upsert(table, row))
  {
    if row.url in table { MergedStable(table[row.url], row); }
  }

  lemma FoundKeepsStable(table: Table, step: Step)
    requires StableTable(table) && step.SyncCandidate? && StepOk(step) && StepTimesOk(step)
    ensures StableTable(Upsert(table, EncodeCandidate(Verify(step.lead, step.outcome), step.now)))
  {
    var c := Verify(step.lead, step.outcome);
    VerifiedTimes(step);
    EncodedStable(c, step.now);
    UpsertKeepsStable(table, EncodeCandidate(c, step.now));
  }

  ghost predicate StableReviews(reviews: map<nat, InFlight>) {
    forall r :: r in reviews ==> StableTimes(reviews[r].snapshot) && InRange(SecondOf(reviews[r].now))
  }

  lemma ReviewKeepsStable(reviews: map<nat, InFlight>, k: nat, r: InFlight)
    requires StableReviews(reviews) && StableTimes(r.snapshot) && InRange(SecondOf(r.now))
    ensures StableReviews(reviews[k := r])
  {
  }

  lemma LoadNext(s: Sys, step: Step)
    requires step.Load?
    ensures Next(s, step).db == s.db
    ensures Next(s, step).reviews
            == if step.url in s.db.candidates && Readable(s.db.candidates[step.url])
               then s.reviews[step.reviewer :=
                      InFlight(step.action, step.now, DecodeCandidate(s.db.candidates[step.url]))]
               else s.reviews
  {
  }

  lemma LoadKeepsStable(s: Sys, step: Step)
    requires StableSys(s) && step.Load? && InRange(SecondOf(step.now))
    ensures StableSys(Next(s, step))
  {
    LoadNext(s, step);
    if step.url in s.db.candidates && Readable(s.db.candidates[step.url]) {
      var snapshot := DecodeCandidate(s.db.candidates[step.url]);
      LoadedStable(s.db.candidates[step.url]);
      ReviewKeepsStable(s.reviews, step.reviewer, InFlight(step.action, step.now, snapshot));
    }
  }

  lemma FewerStable(reviews: map<nat, InFlight>, k: nat)
    requires StableReviews(reviews)
    ensures StableReviews(reviews - {k})
  {
  }

  lemma WriteBackKeepsStable(s: Sys, step: Step)
    requires StableSys(s) && step.WriteBack?
    ensures StableSys(Next(s, step))
  {
    WriteBackNext(s, step);
    if step.reviewer in s.reviews {
      FinishKeepsStable(s.db, s.reviews[step.reviewer], step.at);
      FewerStable(s.reviews, step.reviewer);
    }
  }

  lemma NextKeepsStable(s: Sys, step: Step)
    requires StableSys(s) && StepOk(step) && StepTimesOk(step)
    ensures StableSys(Next(s, step))
  {
    match step
    case SyncPrune(_) =>
    case SyncEvent(_) =>
    case SyncCandidate(_, _, _) => FoundKeepsStable(s.db.candidates, step);
    case Load(_, _, _, _) => LoadKeepsStable(s, step);
    case WriteBack(_, _) => WriteBackKeepsStable(s, step);
    case Abandon(_) =>
  }

  lemma {:induction false} RunKeepsStable(steps: seq<Step>)
    requires AllOk(steps) && AllTimesOk(steps)
    ensures StableSys(Run(steps))
  {
    if steps == [] {
    } else {
      RunKeepsStable(steps[..|steps| - 1]);
      NextKeepsStable(Run(steps[..|steps| - 1]), steps[|steps| - 1]);
    }
  }

  /** In every run whose times can be written and read back, loading a row loses nothing. */
  lemma LoadLosesNothing(steps: seq<Step>, url: string)
    requires AllOk(steps) && AllTimesOk(steps) && url in Run(steps).db.candidates
    ensures var row := Run(steps).db.candidates[url]; Overwrite(row, DecodeCandidate(row)) == row
  {
    RunKeepsStable(steps);
    WriteBackIsIdentity(Run(steps).db.candidates[url]);
  }
}
