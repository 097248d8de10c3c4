/**
 What the steps of syncs and reviews leave in the tables, column by column: when an approval
 commits and what it writes, what a review makes of the row it loaded, and what a
 re-discovery changes and leaves alone.
 */
module ReviewEffects {
  import opened Text
  import opened Model
  import opened Timestamps
  import opened Keys
  import EventRows
  import opened Events
  import opened CandidateRows
  import opened Candidates
  import opened Review

  // ---------- approvals ----------

  /** The uid under which the store keeps an approved candidate. */
  function ApprovalUid(c: Candidate): string {
    EventUid("reviewed-" + c.source, c.url, c.eventTitle, c.startTime)
  }

  /** The event is known under its title, start and place. */
  predicate Known(db: Db, c: Candidate) {
    EventRows.HasFingerprint(db.events, Fingerprint(c.eventTitle, Format(c.startTime), c.location))
  }

  lemma FinishApproves(db: Db, r: InFlight, at: Time)
    requires r.action == Approve
    ensures Finish(db, r, at).Some?
            <==> && Gate(r.snapshot, r.now).None? && r.snapshot.url in db.candidates
                 && EventRows.Upsert(db.events, Encode(PublishWrite(r, at))).Some?
  {
  }

  lemma ApprovalKeys(r: InFlight, at: Time)
    ensures var c, row := r.snapshot, Encode(PublishWrite(r, at));
            row.uid == ApprovalUid(c) && row.fingerprint == Fingerprint(c.eventTitle, Format(c.startTime), c.location)
  {
  }

  lemma UpsertExactly(rows: seq<EventRows.EventRow>, row: EventRows.EventRow)
    ensures EventRows.Upsert(rows, row).Some?
            <==> EventRows.HasFingerprint(rows, row.fingerprint) || !EventRows.UidTaken(rows, row.uid)
  {
    var i := EventRows.FindFingerprint(rows, row.fingerprint);
    if i >= 0 { assert rows[i].fingerprint == row.fingerprint; }
  }

  /**
   An approval commits exactly when the gate is open, the row is still there, and the event
   is either known or new under a uid that no other event has.
   */
  lemma ApprovalCommitsExactly(db: Db, r: InFlight, at: Time)
    requires r.action == Approve
    ensures var c := r.snapshot;
            Finish(db, r, at).Some?
            <==> && Gate(c, r.now).None? && c.url in db.candidates
                 && (Known(db, c) || !EventRows.UidTaken(db.events, ApprovalUid(c)))
  {
    FinishApproves(db, r, at);
    ApprovalKeys(r, at);
    UpsertExactly(db.events, Encode(PublishWrite(r, at)));
  }

  /** Approvals of one source do not get in each other's way: they have one uid only for one page, title and second. */
  lemma ApprovalsHaveOwnUids(c: Candidate, d: Candidate)
    requires '|' !in c.source && '|' !in d.source && '|' !in c.url && '|' !in d.url
    ensures ApprovalUid(c) == ApprovalUid(d)
            <==> && c.source == d.source && c.url == d.url && Normalise(c.eventTitle) == Normalise(d.eventTitle)
                 && SecondOf(c.startTime) == SecondOf(d.startTime)
  {
    var p := "reviewed-";
    assert (p + c.source)[|p|..] == c.source && (p + d.source)[|p|..] == d.source;
    UidExactly(p + c.source, c.url, c.eventTitle, c.startTime, p + d.source, d.url, d.eventTitle, d.startTime);
  }

  /** Only row i differs; it is new, or keeps its uid and the time it was created. */
  predicate WrittenAt(before: seq<EventRows.EventRow>, after: seq<EventRows.EventRow>, i: nat, uid: string, at: Time)
    requires i < |after|
  {
    && |before| <= |after| && after[i].updatedAt == Format(at)
    && (forall j :: 0 <= j < |before| && j != i ==> after[j] == before[j])
    && if i < |before|
       then |after| == |before| && after[i].uid == before[i].uid && after[i].createdAt == before[i].createdAt
       else i == |before| && |after| == |before| + 1 && after[i].uid == uid && after[i].createdAt == Format(at)
  }

  lemma WrittenOnce(rows: seq<EventRows.EventRow>, w: Write) returns (i: nat)
    requires EventRows.Upsert(rows, Encode(w)).Some? && w.event.uid == "" && IsZero(w.event.createdAt)
    requires forall j :: 0 <= j < |rows| && rows[j].fingerprint == Encode(w).fingerprint ==>
                           rows[j].startsAt == Encode(w).startsAt
    ensures var e, after := w.event, EventRows.Apply(rows, Encode(w));
            && i < |after| && HasColumns(after[i], e)
            && WrittenAt(rows, after, i, EventUid(e.source, e.sourceId, e.title, e.startsAt), w.now)
            && (i < |rows| <==> EventRows.HasFingerprint(rows, Encode(w).fingerprint))
  {
    var at := EventRows.FindFingerprint(rows, Encode(w).fingerprint);
    i := if at >= 0 then at else |rows|;
    if at >= 0 { assert rows[at].fingerprint == Encode(w).fingerprint; }
  }

  /** A committed approval writes one event row, with all the reviewer saw, and no other. */
  lemma ApprovalWritesOneEvent(db: Db, r: InFlight, at: Time) returns (i: nat)
    requires AllCurrent(db.events) && r.action == Approve && Finish(db, r, at).Some?
    ensures var after := Finish(db, r, at).value.events;
            && i < |after| && CarriesReviewed(after[i], r)
            && WrittenAt(db.events, after, i, ApprovalUid(r.snapshot), at)
            && (i < |db.events| <==> Known(db, r.snapshot))
  {
    var w := PublishWrite(r, at);
    FinishedApproval(db, r, at);
    SameStarts(db.events, w);
    i := WrittenOnce(db.events, w);
    ReviewedRow(EventRows.Apply(db.events, Encode(w))[i], r);
  }

  // ---------- what a review writes ----------

  function StatusOf(action: Action): ReviewStatus {
    match action
    case Approve => Approved
    case Reject => Rejected
    case Restore => Pending
  }

  /** How the candidate was found is as in the row that was there. */
  predicate KeepsFind(row: CandidateRow, stored: CandidateRow) {
    && row.source == stored.source && row.url == stored.url && row.snippet == stored.snippet
    && row.score == stored.score && row.discoveredAt == stored.discoveredAt
  }

  predicate FromSnapshot(row: CandidateRow, c: Candidate) {
    && row.title == c.title && row.verification == c.verification && EvidenceOf(row) == EvidenceFrom(c)
    && row.endTime == FormatOptional(c.endTime) && row.description == c.description
    && row.confidence == c.confidence && row.lastError == c.lastError
    && row.verifiedAt == FormatOptionalPtr(c.verifiedAt)
  }

  /** The three columns that only reviews write. */
  datatype Verdict = Verdict(status: ReviewStatus, reviewedAt: Option<string>, note: string)

  function VerdictOf(row: CandidateRow): Verdict {
    Verdict(row.status, row.reviewedAt, row.reviewNote)
  }

  function Given(r: InFlight): Verdict {
    Verdict(StatusOf(r.action), Some(Format(r.now)), r.snapshot.reviewNote)
  }

  /** An update writes what it is given over the find that is there; a candidate without a status becomes pending. */
  lemma OverwrittenColumns(stored: CandidateRow, c: Candidate)
    ensures var row := Overwrite(stored, c);
            && KeepsFind(row, stored) && FromSnapshot(row, c)
            && VerdictOf(row) == Verdict(if c.status == NoStatus then Pending else c.status,
                                         FormatOptionalPtr(c.reviewedAt), c.reviewNote)
  {
  }

  /**
   What a review that commits makes of the candidates: one row differs, which has the verdict,
   what the reviewer had loaded, and the find that was there.
   */
  lemma ReviewIsStored(db: Db, r: InFlight, at: Time) returns (row: CandidateRow)
    requires Finish(db, r, at).Some?
    ensures var url, after := r.snapshot.url, Finish(db, r, at).value;
            && url in db.candidates && after.candidates == db.candidates[url := row]
            && KeepsFind(row, db.candidates[url]) && FromSnapshot(row, r.snapshot) && VerdictOf(row) == Given(r)
            && (r.action != Approve ==> after.events == db.events)
  {
    var url := r.snapshot.url;
    if r.action == Approve { ApprovedDb(db, r, at); } else { UpdatedDb(db, r, at); }
    row := Overwrite(db.candidates[url], Reviewed(r));
    OverwrittenEvidence(db.candidates[url], r);
  }

  /** A rejection or a restore commits exactly when the row is still there. */
  lemma UpdateCommitsExactly(db: Db, r: InFlight, at: Time)
    requires r.action != Approve
    ensures Finish(db, r, at).Some? <==> r.snapshot.url in db.candidates
  {
  }

  /** The step that writes a review back to a URL. */
  predicate WritesTo(s: Sys, step: Step, url: string) {
    && step.WriteBack? && step.reviewer in s.reviews && s.reviews[step.reviewer].snapshot.url == url
    && Finish(s.db, s.reviews[step.reviewer], step.at).Some?
  }

  lemma WriteBackVerdict(s: Sys, step: Step, url: string)
    requires step.WriteBack? && url in s.db.candidates
    ensures url in Next(s, step).db.candidates
    ensures VerdictOf(Next(s, step).db.candidates[url])
            == if WritesTo(s, step, url) then Given(s.reviews[step.reviewer]) else VerdictOf(s.db.candidates[url])
  {
    WriteBackNext(s, step);
    if step.reviewer in s.reviews && Finish(s.db, s.reviews[step.reviewer], step.at).Some? {
      var row := ReviewIsStored(s.db, s.reviews[step.reviewer], step.at);
    }
  }

  /**
   A candidate's status, review time and note change by a review that is written back to it
   and by nothing else while its row is there; neither a sync nor another review touches them.
   */
  lemma VerdictChangesExactly(s: Sys, step: Step, url: string)
    requires url in s.db.candidates && url in Next(s, step).db.candidates
    ensures VerdictOf(Next(s, step).db.candidates[url])
            == if WritesTo(s, step, url) then Given(s.reviews[step.reviewer]) else VerdictOf(s.db.candidates[url])
  {
    match step
    case SyncCandidate(lead, outcome, now) =>
      assert VerdictOf(Merge(s.db.candidates[url], EncodeCandidate(Verify(lead, outcome), now)))
             == VerdictOf(s.db.candidates[url]);
    case WriteBack(_, _) => WriteBackVerdict(s, step, url);
    case Load(_, _, _, _) => LoadNext(s, step);
    case _ =>
  }

  /** Throughout a continuation the row is there and no review is written back to it. */
  predicate Undecided(steps: seq<Step>, more: seq<Step>, url: string) {
    && url in Run(steps + more).db.candidates
    && (more != [] ==>
          var before, last := more[..|more| - 1], more[|more| - 1];
          Undecided(steps, before, url) && !WritesTo(Run(steps + before), last, url))
  }

  lemma VerdictSnoc(steps: seq<Step>, step: Step, all: seq<Step>, url: string)
    requires all == steps + [step] && url in Run(steps).db.candidates && url in Run(all).db.candidates
    requires !WritesTo(Run(steps), step, url)
    ensures VerdictOf(Run(all).db.candidates[url]) == VerdictOf(Run(steps).db.candidates[url])
  {
    RunSnoc(steps, step);
    VerdictChangesExactly(Run(steps), step, url);
  }

  lemma UndecidedLast(steps: seq<Step>, more: seq<Step>, url: string) returns (before: seq<Step>, last: Step)
    requires Undecided(steps, more, url) && more != []
    ensures |before| < |more| && steps + more == (steps + before) + [last]
    ensures Undecided(steps, before, url) && url in Run(steps + before).db.candidates
    ensures url in Run(steps + more).db.candidates && !WritesTo(Run(steps + before), last, url)
  {
    before, last := more[..|more| - 1], more[|more| - 1];
  }

  /** A verdict stays through every continuation that neither writes another one nor deletes the row. */
  lemma {:induction false} VerdictStays(steps: seq<Step>, more: seq<Step>, url: string)
    requires Undecided(steps, more, url)
    ensures url in Run(steps).db.candidates && url in Run(steps + more).db.candidates
    ensures VerdictOf(Run(steps + more).db.candidates[url]) == VerdictOf(Run(steps).db.candidates[url])
    decreases |more|
  {
    if more == [] {
      assert steps + more == steps;
    } else {
      var before, last := UndecidedLast(steps, more, url);
      VerdictStays(steps, before, url);
      VerdictSnoc(steps + before, last, steps + more, url);
    }
  }

  /** A rejected candidate whose event is past may be pruned; when its page is found again it starts over as pending. */
  lemma PruneForgetsRejection(s: Sys, prune: Time, lead: Candidate, outcome: Outcome, now: Time)
    requires lead.url in s.db.candidates && s.db.candidates[lead.url].status == Rejected
    requires Prunable(s.db.candidates[lead.url], prune) && IsLead(lead)
    ensures var again := Next(Next(s, SyncPrune(prune)), SyncCandidate(lead, outcome, now)).db.candidates;
            lead.url in again && VerdictOf(again[lead.url]) == Verdict(Pending, None, "")
  {
    VerifyExactly(lead, outcome);
    var c := Verify(lead, outcome);
    assert c.status == NoStatus && c.reviewedAt == None && c.reviewNote == "" && c.url == lead.url;
  }

  // ---------- what a re-discovery writes ----------

  /** The columns that every find brings, whatever was there. */
  predicate Refreshed(row: CandidateRow, c: Candidate, now: Time) {
    && row.source == c.source && row.url == c.url && row.title == c.title && row.snippet == c.snippet
    && row.score == c.score && row.discoveredAt == Format(if c.discovered == ZERO_TIME then now else c.discovered)
    && row.verification == (if c.verification == NoVerification then Unverified else c.verification)
    && row.lastError == c.lastError && row.verifiedAt == FormatOptionalPtr(c.verifiedAt)
  }

  /** A column that only an empty one is filled from. */
  predicate Filled(value: string, stored: string, found: string) {
    (stored != "" ==> value == stored) && (stored == "" ==> value == found)
  }

  predicate FilledFrom(row: CandidateRow, stored: CandidateRow, c: Candidate) {
    && Filled(row.eventTitle, stored.eventTitle, c.eventTitle)
    && Filled(row.startTime, stored.startTime, FormatOptional(c.startTime))
    && Filled(row.endTime, stored.endTime, FormatOptional(c.endTime))
    && Filled(row.location, stored.location, c.location)
    && Filled(row.description, stored.description, c.description)
    && Filled(row.evidenceUrl, stored.evidenceUrl, c.evidenceUrl)
    && Filled(row.dateEvidence, stored.dateEvidence, c.dateEvidence)
    && Filled(row.locationEvidence, stored.locationEvidence, c.locationEvidence)
    && Filled(row.confidence, stored.confidence, c.confidence)
  }

  lemma MergedColumns(stored: CandidateRow, c: Candidate, now: Time)
    requires stored.url == c.url
    ensures var row := Merge(stored, EncodeCandidate(c, now));
            Refreshed(row, c, now) && FilledFrom(row, stored, c) && VerdictOf(row) == VerdictOf(stored)
  {
  }

  lemma InsertedColumns(c: Candidate, now: Time)
    requires c.status == NoStatus && c.reviewedAt == None
    ensures var row := EncodeCandidate(c, now);
            && Refreshed(row, c, now) && VerdictOf(row) == Verdict(Pending, None, c.reviewNote)
            && EvidenceOf(row) == EvidenceFrom(c) && row.endTime == FormatOptional(c.endTime)
            && row.description == c.description && row.confidence == c.confidence
  {
  }

  /**
   A find that is stored changes its own row only: it brings its own title, snippet, score and
   verification, fills what is empty, and leaves the verdict; a new one is pending.
   */
  lemma RediscoveryExactly(s: Sys, step: Step)
    requires step.SyncCandidate? && StepOk(step) && KeysAreUrls(s.db)
    ensures var c, before, after := Verify(step.lead, step.outcome), s.db.candidates, Next(s, step).db.candidates;
            && c.url == step.lead.url && c.url in after && after == before[c.url := after[c.url]]
            && Refreshed(after[c.url], c, step.now)
            && (c.url in before ==> FilledFrom(after[c.url], before[c.url], c)
                                    && VerdictOf(after[c.url]) == VerdictOf(before[c.url]))
            && (c.url !in before ==> EvidenceOf(after[c.url]) == EvidenceFrom(c)
                                     && VerdictOf(after[c.url]) == Verdict(Pending, None, ""))
  {
    var c := Verify(step.lead, step.outcome);
    VerifyExactly(step.lead, step.outcome);
    if c.url in s.db.candidates {
      MergedColumns(s.db.candidates[c.url], c, step.now);
    } else {
      InsertedColumns(c, step.now);
    }
  }

  // ---------- from load to write-back ----------

  /** A step that is not one of the given reviewer's. */
  predicate Leaves(step: Step, reviewer: nat) {
    step.Load? || step.WriteBack? || step.Abandon? ==> step.reviewer != reviewer
  }

  predicate AllLeave(more: seq<Step>, reviewer: nat) {
    forall i :: 0 <= i < |more| ==> Leaves(more[i], reviewer)
  }

  lemma NextLeaves(s: Sys, step: Step, reviewer: nat)
    requires Leaves(step, reviewer) && reviewer in s.reviews
    ensures reviewer in Next(s, step).reviews && Next(s, step).reviews[reviewer] == s.reviews[reviewer]
  {
    if step.Load? { LoadNext(s, step); }
    if step.WriteBack? { WriteBackNext(s, step); }
  }

  lemma {:induction false} RunLeaves(steps: seq<Step>, more: seq<Step>, reviewer: nat)
    requires AllLeave(more, reviewer) && reviewer in Run(steps).reviews
    ensures var s := Run(steps + more);
            reviewer in s.reviews && s.reviews[reviewer] == Run(steps).reviews[reviewer]
    decreases |more|
  {
    if more == [] {
      assert steps + more == steps;
    } else {
      var before, last := more[..|more| - 1], more[|more| - 1];
      RunLeaves(steps, before, reviewer);
      assert steps + more == (steps + before) + [last];
      RunSnoc(steps + before, last);
      NextLeaves(Run(steps + before), last, reviewer);
    }
  }

  /**
   A review decides on what it loaded: whatever other steps come in between, the write-back
   stores the verdict of that action, at the time of the load, with the columns as they were
   then, over the find that is there by now; or nothing, when it does not commit.
   */
  lemma ReviewWritesWhatItLoaded(steps: seq<Step>, reviewer: nat, action: Action, now: Time, url: string,
      more: seq<Step>, at: Time)
    returns (r: InFlight)
    requires url in Run(steps).db.candidates && Readable(Run(steps).db.candidates[url]) && AllLeave(more, reviewer)
    ensures r == InFlight(action, now, DecodeCandidate(Run(steps).db.candidates[url])) && r.snapshot.url == url
    ensures var s := Run(steps + [Load(reviewer, action, now, url)] + more);
            var after := Next(s, WriteBack(reviewer, at));
            && reviewer !in after.reviews && after.db == OrSame(Finish(s.db, r, at), s.db)
            && (Finish(s.db, r, at).Some? ==>
                  && url in s.db.candidates && url in after.db.candidates
                  && VerdictOf(after.db.candidates[url])
                     == Verdict(StatusOf(action), Some(Format(now)), r.snapshot.reviewNote)
                  && FromSnapshot(after.db.candidates[url], r.snapshot)
                  && KeepsFind(after.db.candidates[url], s.db.candidates[url]))
  {
    var load := Load(reviewer, action, now, url);
    var loaded := steps + [load];
    RunKeepsKeys(steps);
    r := InFlight(action, now, DecodeCandidate(Run(steps).db.candidates[url]));
    RunSnoc(steps, load);
    LoadNext(Run(steps), load);
    RunLeaves(loaded, more, reviewer);
    var s := Run(loaded + more);
    WriteBackNext(s, WriteBack(reviewer, at));
    if Finish(s.db, r, at).Some? {
      var row := ReviewIsStored(s.db, r, at);
    }
  }
}
