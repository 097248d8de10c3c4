/**
 What a sync leaves behind: the events and candidates its sources handed over, no others, and
 a health row for each outcome.
 */
module SyncEffects {
  import opened Text
  import opened Model
  import opened Timestamps
  import opened Keys
  import EventRows
  import opened Events
  import CandidateRows
  import opened Candidates
  import Review
  import opened Store
  import FanOut
  import opened Sync

  // ---------- events ----------

  function PrintOf(e: Event): string {
    Fingerprint(e.title, Format(e.startsAt), e.location)
  }

  /** The attempt writes an event with the fingerprint. */
  predicate Prints(a: Attempt, fingerprint: string) {
    && a.statement.Change? && a.statement.step.SyncEvent?
    && PrintOf(a.statement.step.write.event) == fingerprint
  }

  /** An enabled source that answered handed over an event with the fingerprint. */
  predicate Hands(t: Turn, fingerprint: string) {
    && t.enabled && t.fetched.Fetched?
    && exists j :: 0 <= j < |t.fetched.events| && PrintOf(t.fetched.events[j]) == fingerprint
  }

  lemma WriteKeepsOld(rows: seq<EventRows.EventRow>, row: EventRows.EventRow, fingerprint: string)
    requires EventRows.Unique(rows) && EventRows.HasFingerprint(rows, fingerprint)
    ensures EventRows.HasFingerprint(EventRows.Apply(rows, row), fingerprint)
  {
    EventRows.UpsertKeepsRows(rows, row);
    var i :| 0 <= i < |rows| && rows[i].fingerprint == fingerprint;
    assert EventRows.Apply(rows, row)[i].fingerprint == fingerprint;
  }

  lemma WriteAddsOne(rows: seq<EventRows.EventRow>, row: EventRows.EventRow, fingerprint: string)
    requires EventRows.Unique(rows) && EventRows.HasFingerprint(EventRows.Apply(rows, row), fingerprint)
    ensures || EventRows.HasFingerprint(rows, fingerprint)
            || (EventRows.Upsert(rows, row).Some? && row.fingerprint == fingerprint)
  {
    var after := EventRows.Apply(rows, row);
    EventRows.UpsertKeepsRows(rows, row);
    var i :| 0 <= i < |after| && after[i].fingerprint == fingerprint;
    assert i < |rows| ==> rows[i].fingerprint == fingerprint;
  }

  lemma WriteKeeps(rows: seq<EventRows.EventRow>, w: Write, fingerprint: string)
    requires EventRows.Unique(rows)
    ensures var after := EventRows.Apply(rows, Encode(w));
            && EventRows.Unique(after)
            && (EventRows.HasFingerprint(after, fingerprint)
                <==> || EventRows.HasFingerprint(rows, fingerprint)
                     || (EventRows.Upsert(rows, Encode(w)).Some? && PrintOf(w.event) == fingerprint))
  {
    var row := Encode(w);
    EventRows.UpsertKeepsRows(rows, row);
    if EventRows.HasFingerprint(rows, fingerprint) { WriteKeepsOld(rows, row, fingerprint); }
    if EventRows.HasFingerprint(EventRows.Apply(rows, row), fingerprint) { WriteAddsOne(rows, row, fingerprint); }
  }

  /** One attempt of a sync: the fingerprints that were there stay, and its own is added if it succeeds. */
  lemma DoKeeps(s: Tables, a: Attempt, fingerprint: string)
    requires EventRows.Unique(s.db.events) && (a.statement.Change? ==> IsSyncStep(a.statement.step))
    ensures var after := Do(s, a).db.events;
            && EventRows.Unique(after)
            && (EventRows.HasFingerprint(after, fingerprint)
                <==> EventRows.HasFingerprint(s.db.events, fingerprint) || (Succeeds(s, a) && Prints(a, fingerprint)))
  {
    if a.io && a.statement.Change? && a.statement.step.SyncEvent? {
      WriteKeeps(s.db.events, a.statement.step.write, fingerprint);
    }
  }

  predicate PrintsAt(s: Tables, attempts: seq<Attempt>, i: nat, fingerprint: string)
    requires i < |attempts|
  {
    SucceedsAt(s, attempts, i) && Prints(attempts[i], fingerprint)
  }

  ghost predicate Printed(s: Tables, attempts: seq<Attempt>, fingerprint: string) {
    exists i :: 0 <= i < |attempts| && PrintsAt(s, attempts, i, fingerprint)
  }

  lemma PrintedSnoc(s: Tables, attempts: seq<Attempt>, a: Attempt, fingerprint: string)
    ensures Printed(s, attempts + [a], fingerprint)
            <==> Printed(s, attempts, fingerprint) || (Succeeds(DoAll(s, attempts), a) && Prints(a, fingerprint))
  {
    var all := attempts + [a];
    assert all[..|attempts|] == attempts;
    forall i | 0 <= i < |attempts| ensures PrintsAt(s, all, i, fingerprint) == PrintsAt(s, attempts, i, fingerprint) {
      SucceedsAtPrefix(s, all, |attempts|, i);
    }
    assert PrintsAt(s, all, |attempts|, fingerprint)
           <==> Succeeds(DoAll(s, attempts), a) && Prints(a, fingerprint);
  }

  /** The events after any attempts of a sync: those before, and one for each write that succeeded. */
  lemma {:induction false} DoAllPrints(s: Tables, attempts: seq<Attempt>, fingerprint: string)
    requires EventRows.Unique(s.db.events) && OnlySyncSteps(attempts)
    ensures var after := DoAll(s, attempts).db.events;
            && EventRows.Unique(after)
            && (EventRows.HasFingerprint(after, fingerprint)
                <==> EventRows.HasFingerprint(s.db.events, fingerprint) || Printed(s, attempts, fingerprint))
  {
    if attempts == [] {
    } else {
      var before, a := attempts[..|attempts| - 1], attempts[|attempts| - 1];
      assert attempts == before + [a];
      DoAllPrints(s, before, fingerprint);
      DoKeeps(DoAll(s, before), a, fingerprint);
      PrintedSnoc(s, before, a, fingerprint);
    }
  }

  // ---------- which attempts a sync makes ----------

  /** Some attempt of the list writes the fingerprint. */
  ghost predicate Attempted(attempts: seq<Attempt>, fingerprint: string) {
    exists i :: 0 <= i < |attempts| && Prints(attempts[i], fingerprint)
  }

  lemma AttemptedConcat(a: seq<Attempt>, b: seq<Attempt>, fingerprint: string)
    ensures Attempted(a + b, fingerprint) <==> Attempted(a, fingerprint) || Attempted(b, fingerprint)
  {
    if i :| 0 <= i < |a| && Prints(a[i], fingerprint) { assert Prints((a + b)[i], fingerprint); }
    if i :| 0 <= i < |b| && Prints(b[i], fingerprint) { assert Prints((a + b)[|a| + i], fingerprint); }
  }

  lemma EventsAttempted(t: Turn, fingerprint: string)
    ensures Attempted(EventAttempts(t), fingerprint) <==> Stores(t) && Hands(t, fingerprint)
  {
    var attempts := EventAttempts(t);
    if Stores(t) {
      assert |attempts| == |t.fetched.events|;
      forall i | 0 <= i < |attempts|
        ensures Prints(attempts[i], fingerprint) <==> PrintOf(t.fetched.events[i]) == fingerprint {}
    }
  }

  lemma NoEventAttempted(attempts: seq<Attempt>, fingerprint: string)
    requires forall i :: 0 <= i < |attempts| ==>
                !(attempts[i].statement.Change? && attempts[i].statement.step.SyncEvent?)
    ensures !Attempted(attempts, fingerprint)
  {
  }

  lemma BatchAttempted(t: Turn, v: Verifier, fingerprint: string)
    ensures Attempted(Batch(t, v), fingerprint) <==> Stores(t) && Hands(t, fingerprint)
  {
    NoEventAttempted([Saving(t)], fingerprint);
    NoEventAttempted(CandidateAttempts(t, v), fingerprint);
    EventsAttempted(t, fingerprint);
    AttemptedConcat([Saving(t)], EventAttempts(t), fingerprint);
    AttemptedConcat([Saving(t)] + EventAttempts(t), CandidateAttempts(t, v), fingerprint);
  }

  /** Some turn of the list has the property. */
  ghost predicate AnyTurn(turns: seq<Turn>, p: Turn -> bool) {
    exists i :: 0 <= i < |turns| && p(turns[i])
  }

  lemma AnySnoc(turns: seq<Turn>, t: Turn, p: Turn -> bool)
    ensures AnyTurn(turns + [t], p) <==> AnyTurn(turns, p) || p(t)
  {
    var all := turns + [t];
    if i :| 0 <= i < |turns| && p(turns[i]) { assert p(all[i]); }
    if p(t) { assert p(all[|turns|]); }
  }

  function Handing(fingerprint: string): Turn -> bool {
    (t: Turn) => Stores(t) && Hands(t, fingerprint)
  }

  lemma NextAttempted(turns: seq<Turn>, t: Turn, v: Verifier, fingerprint: string)
    requires Attempted(Batches(turns, v), fingerprint) <==> AnyTurn(turns, Handing(fingerprint))
    ensures Attempted(Batches(turns + [t], v), fingerprint) <==> AnyTurn(turns + [t], Handing(fingerprint))
  {
    BatchesSnoc(turns, t, v);
    BatchAttempted(t, v, fingerprint);
    AttemptedConcat(Batches(turns, v), Batch(t, v), fingerprint);
    AnySnoc(turns, t, Handing(fingerprint));
  }

  lemma {:induction false} BatchesAttempted(turns: seq<Turn>, v: Verifier, fingerprint: string)
    ensures Attempted(Batches(turns, v), fingerprint) <==> AnyTurn(turns, Handing(fingerprint))
  {
    if turns == [] {
    } else {
      var n := |turns| - 1;
      assert turns == turns[..n] + [turns[n]];
      BatchesAttempted(turns[..n], v, fingerprint);
      NextAttempted(turns[..n], turns[n], v, fingerprint);
    }
  }

  lemma SyncAttempted(prune: Tick, turns: seq<Turn>, v: Verifier, fingerprint: string)
    ensures Attempted(Attempts(prune, turns, v), fingerprint)
            <==> prune.io && AnyTurn(turns, Handing(fingerprint))
  {
    NoEventAttempted([Pruning(prune)], fingerprint);
    BatchesAttempted(turns, v, fingerprint);
    AttemptedConcat([Pruning(prune)], if prune.io then Batches(turns, v) else [], fingerprint);
  }

  lemma SyncOnlySync(prune: Tick, turns: seq<Turn>, v: Verifier)
    ensures OnlySyncSteps(Attempts(prune, turns, v))
  {
    BatchesOnlySync(turns, v);
    AppendOnlySync([Pruning(prune)], if prune.io then Batches(turns, v) else []);
  }

  // ---------- a sync that returns nil ----------

  /** The event is among those that the enabled sources which answered handed over. */
  ghost predicate HandedOver(turns: seq<Turn>, e: Event) {
    exists i, j :: 0 <= i < |turns| && turns[i].enabled && turns[i].fetched.Fetched?
                   && 0 <= j < |turns[i].fetched.events| && SameKey(turns[i].fetched.events[j], e)
  }

  lemma HandedByTurn(t: Turn, e: Event)
    ensures Hands(t, PrintOf(e))
            <==> t.enabled && t.fetched.Fetched?
                 && exists j :: 0 <= j < |t.fetched.events| && SameKey(t.fetched.events[j], e)
  {
    if t.fetched.Fetched? {
      forall j | 0 <= j < |t.fetched.events|
        ensures PrintOf(t.fetched.events[j]) == PrintOf(e) <==> SameKey(t.fetched.events[j], e)
      {
        SameKeySameFingerprint(Write(t.fetched.events[j], 0), Write(e, 0));
      }
    }
  }

  lemma HandedExactly(turns: seq<Turn>, e: Event)
    ensures HandedOver(turns, e) <==> exists i :: 0 <= i < |turns| && Hands(turns[i], PrintOf(e))
  {
    forall i | 0 <= i < |turns|
      ensures Hands(turns[i], PrintOf(e))
              <==> turns[i].enabled && turns[i].fetched.Fetched?
                   && exists j :: 0 <= j < |turns[i].fetched.events| && SameKey(turns[i].fetched.events[j], e)
    {
      HandedByTurn(turns[i], e);
    }
  }

  lemma LastBatch(s: Tables, turns: seq<Turn>, t: Turn, v: Verifier)
    requires Failures(s, Batches(turns + [t], v)) == 0
    ensures Failures(s, Batches(turns, v)) == 0 && Failures(DoAll(s, Batches(turns, v)), Batch(t, v)) == 0
  {
    BatchesSnoc(turns, t, v);
    DoAppend(s, Batches(turns, v), Batch(t, v));
  }

  /** When nothing fails, nothing fails in any source's batch, on the tables it meets. */
  lemma {:induction false} NoBatchFails(s: Tables, before: seq<Turn>, t: Turn, after: seq<Turn>, v: Verifier)
    requires Failures(s, Batches(before + [t] + after, v)) == 0
    ensures Failures(DoAll(s, Batches(before, v)), Batch(t, v)) == 0
    decreases |after|
  {
    if after == [] {
      assert before + [t] + after == before + [t];
      LastBatch(s, before, t, v);
    } else {
      var n := |after| - 1;
      AppendLast(before + [t], after);
      LastBatch(s, before + [t] + after[..n], after[n], v);
      NoBatchFails(s, before, t, after[..n], v);
    }
  }

  lemma NilParts(s: Tables, prune: Tick, turns: seq<Turn>, v: Verifier)
    requires Result(s, prune, turns, v) == Completed(0)
    ensures prune.io && Failures(Do(s, Pruning(prune)), Batches(turns, v)) == 0
  {
    SyncParts(s, prune, turns, v);
  }

  lemma OneBatchOf(s: Tables, turns: seq<Turn>, before: seq<Turn>, t: Turn, after: seq<Turn>, v: Verifier)
    requires Failures(s, Batches(turns, v)) == 0 && turns == before + [t] + after
    ensures Failures(DoAll(s, Batches(before, v)), Batch(t, v)) == 0
  {
    NoBatchFails(s, before, t, after, v);
  }

  lemma SplitAround<T>(all: seq<T>, i: nat) returns (before: seq<T>, after: seq<T>)
    requires i < |all|
    ensures all == before + [all[i]] + after
  {
    before, after := all[..i], all[i + 1..];
  }

  lemma NilBatch(s: Tables, prune: Tick, turns: seq<Turn>, v: Verifier, i: nat) returns (at: Tables)
    requires Result(s, prune, turns, v) == Completed(0) && i < |turns|
    ensures prune.io && Failures(at, Batch(turns[i], v)) == 0
  {
    NilParts(s, prune, turns, v);
    var before, after := SplitAround(turns, i);
    OneBatchOf(Do(s, Pruning(prune)), turns, before, turns[i], after, v);
    at := DoAll(Do(s, Pruning(prune)), Batches(before, v));
  }

  /** A sync that returned nil pruned, and saved the health row of every source. */
  lemma NilSaves(s: Tables, prune: Tick, turns: seq<Turn>, v: Verifier, i: nat)
    requires Result(s, prune, turns, v) == Completed(0) && i < |turns|
    ensures prune.io && turns[i].saving.io
  {
    var at := NilBatch(s, prune, turns, v, i);
    BatchParts(at, turns[i], v);
  }

  lemma NilPrints(s: Tables, prune: Tick, turns: seq<Turn>, v: Verifier, fingerprint: string)
    requires Result(s, prune, turns, v) == Completed(0)
    ensures Printed(s, Attempts(prune, turns, v), fingerprint) <==> Attempted(Attempts(prune, turns, v), fingerprint)
  {
    NilExactly(s, prune, turns, v);
    var attempts := Attempts(prune, turns, v);
    forall i | 0 <= i < |attempts| ensures PrintsAt(s, attempts, i, fingerprint) == Prints(attempts[i], fingerprint) {
      assert SucceedsAt(s, attempts, i);
    }
  }

  lemma NilAttempts(s: Tables, prune: Tick, turns: seq<Turn>, v: Verifier, e: Event)
    requires Result(s, prune, turns, v) == Completed(0)
    ensures Attempted(Attempts(prune, turns, v), PrintOf(e)) <==> HandedOver(turns, e)
  {
    SyncAttempted(prune, turns, v, PrintOf(e));
    HandedExactly(turns, e);
    forall i | 0 <= i < |turns| ensures Handing(PrintOf(e))(turns[i]) == Hands(turns[i], PrintOf(e)) {
      NilSaves(s, prune, turns, v, i);
    }
  }

  /**
   A sync that returns nil has stored every event that the enabled sources handed over, and
   none besides those that were stored before.
   */
  lemma SyncStoresExactly(s: Tables, prune: Tick, turns: seq<Turn>, v: Verifier, e: Event)
    requires EventRows.Unique(s.db.events) && Result(s, prune, turns, v) == Completed(0)
    ensures HasKey(DoAll(s, Attempts(prune, turns, v)).db.events, e)
            <==> HasKey(s.db.events, e) || HandedOver(turns, e)
  {
    SyncOnlySync(prune, turns, v);
    DoAllPrints(s, Attempts(prune, turns, v), PrintOf(e));
    NilPrints(s, prune, turns, v, PrintOf(e));
    NilAttempts(s, prune, turns, v, e);
  }

  /** Whatever a sync returns, it loses no event, and stores none that was not handed over. */
  lemma SyncStoresNothingElse(s: Tables, prune: Tick, turns: seq<Turn>, v: Verifier, e: Event)
    requires EventRows.Unique(s.db.events)
    ensures var after := DoAll(s, Attempts(prune, turns, v)).db.events;
            && (HasKey(s.db.events, e) ==> HasKey(after, e))
            && (HasKey(after, e) ==> HasKey(s.db.events, e) || HandedOver(turns, e))
  {
    SyncOnlySync(prune, turns, v);
    DoAllPrints(s, Attempts(prune, turns, v), PrintOf(e));
    SyncAttempted(prune, turns, v, PrintOf(e));
    HandedExactly(turns, e);
    var attempts := Attempts(prune, turns, v);
    assert Printed(s, attempts, PrintOf(e)) ==> Attempted(attempts, PrintOf(e));
  }

  // ---------- candidates ----------

  /** The attempt stores a candidate under the URL. */
  predicate Files(a: Attempt, url: string) {
    a.statement.Change? && a.statement.step.SyncCandidate? && a.statement.step.lead.url == url
  }

  predicate Prunes(a: Attempt) {
    a.statement.Change? && a.statement.step.SyncPrune?
  }

  ghost predicate Filed(attempts: seq<Attempt>, url: string) {
    exists i :: 0 <= i < |attempts| && attempts[i].io && Files(attempts[i], url)
  }

  lemma FiledConcat(a: seq<Attempt>, b: seq<Attempt>, url: string)
    ensures Filed(a + b, url) <==> Filed(a, url) || Filed(b, url)
  {
    if i :| 0 <= i < |a| && a[i].io && Files(a[i], url) { assert Files((a + b)[i], url); }
    if i :| 0 <= i < |b| && b[i].io && Files(b[i], url) { assert Files((a + b)[|a| + i], url); }
  }

  lemma DoFiles(s: Tables, a: Attempt, url: string)
    requires (a.statement.Change? ==> IsSyncStep(a.statement.step)) && !Prunes(a)
    ensures url in Do(s, a).db.candidates <==> url in s.db.candidates || (a.io && Files(a, url))
  {
    if a.io && a.statement.Change? && a.statement.step.SyncCandidate? {
      var step := a.statement.step;
      VerifyExactly(step.lead, step.outcome);
    }
  }

  /** Past the prune, a sync only adds candidates. */
  lemma {:induction false} DoAllFiles(s: Tables, attempts: seq<Attempt>, url: string)
    requires OnlySyncSteps(attempts) && forall i :: 0 <= i < |attempts| ==> !Prunes(attempts[i])
    ensures url in DoAll(s, attempts).db.candidates <==> url in s.db.candidates || Filed(attempts, url)
  {
    if attempts == [] {
    } else {
      var before, a := attempts[..|attempts| - 1], attempts[|attempts| - 1];
      assert attempts == before + [a];
      DoAllFiles(s, before, url);
      DoFiles(DoAll(s, before), a, url);
      FiledConcat(before, [a], url);
      assert Filed([a], url) <==> a.io && Files(a, url) by { assert [a][0] == a; }
    }
  }

  /** A find that verification looks at: with a page check attached, only the first eight. */
  predicate Looked(t: Turn, v: Verifier, j: nat) {
    && t.enabled && t.fetched.Fetched? && j < |t.fetched.candidates| && (v.Some? ==> j < 8)
  }

  /** What verification makes of a find: nothing if it has a start already or there is no page check. */
  function Looks(v: Verifier, c: Candidate): Candidate {
    if v.Some? && c.startTime == ZERO_TIME then Verify(c, v.value(c)) else c
  }

  /** What verification hands to the store, find by find. */
  lemma VerifiedOneByOne(t: Turn, v: Verifier)
    requires t.enabled && t.fetched.Fetched?
    ensures var cs, verified := t.fetched.candidates, Sync.Verified(v, t.fetched.candidates);
            && (forall j: nat :: j < |verified| <==> Looked(t, v, j))
            && forall j :: 0 <= j < |verified| ==> verified[j] == Looks(v, cs[j])
  {
  }

  predicate FilesAt(t: Turn, v: Verifier, url: string, j: nat) {
    Looked(t, v, j) && t.candidateTicks(j).io && t.fetched.candidates[j].url == url
  }

  lemma CandidatesFiled(t: Turn, v: Verifier, url: string)
    ensures Filed(CandidateAttempts(t, v), url)
            <==> Stores(t) && exists j: nat :: FilesAt(t, v, url, j)
  {
    var attempts := CandidateAttempts(t, v);
    if Stores(t) {
      VerifiedOneByOne(t, v);
      AttemptsStoreVerified(t, v);
      forall j: nat | j < |attempts|
        ensures attempts[j].io && Files(attempts[j], url) <==> FilesAt(t, v, url, j) {}
      assert forall j: nat :: FilesAt(t, v, url, j) ==> j < |attempts|;
    }
  }

  lemma NothingFiled(attempts: seq<Attempt>, url: string)
    requires forall i :: 0 <= i < |attempts| ==>
                !(attempts[i].statement.Change? && attempts[i].statement.step.SyncCandidate?)
    ensures !Filed(attempts, url)
  {
  }

  lemma BatchFiled(t: Turn, v: Verifier, url: string)
    ensures Filed(Batch(t, v), url) <==> Stores(t) && exists j: nat :: FilesAt(t, v, url, j)
  {
    NothingFiled([Saving(t)], url);
    NothingFiled(EventAttempts(t), url);
    CandidatesFiled(t, v, url);
    FiledConcat([Saving(t)], EventAttempts(t), url);
    FiledConcat([Saving(t)] + EventAttempts(t), CandidateAttempts(t, v), url);
  }

  /** The turn stores a candidate under the URL. */
  ghost predicate TurnFiles(t: Turn, v: Verifier, url: string) {
    Stores(t) && exists j: nat :: FilesAt(t, v, url, j)
  }

  ghost function Filing(v: Verifier, url: string): Turn -> bool {
    (t: Turn) => TurnFiles(t, v, url)
  }

  lemma NextFiled(turns: seq<Turn>, t: Turn, v: Verifier, url: string)
    requires Filed(Batches(turns, v), url) <==> AnyTurn(turns, Filing(v, url))
    ensures Filed(Batches(turns + [t], v), url) <==> AnyTurn(turns + [t], Filing(v, url))
  {
    BatchesSnoc(turns, t, v);
    BatchFiled(t, v, url);
    FiledConcat(Batches(turns, v), Batch(t, v), url);
    AnySnoc(turns, t, Filing(v, url));
  }

  lemma {:induction false} BatchesFiled(turns: seq<Turn>, v: Verifier, url: string)
    ensures Filed(Batches(turns, v), url) <==> AnyTurn(turns, Filing(v, url))
  {
    if turns == [] {
    } else {
      var n := |turns| - 1;
      assert turns == turns[..n] + [turns[n]];
      BatchesFiled(turns[..n], v, url);
      NextFiled(turns[..n], turns[n], v, url);
    }
  }

  lemma BatchDoesNotPrune(t: Turn, v: Verifier)
    ensures forall i :: 0 <= i < |Batch(t, v)| ==> !Prunes(Batch(t, v)[i])
  {
    NoPruneConcat([Saving(t)], EventAttempts(t));
    NoPruneConcat([Saving(t)] + EventAttempts(t), CandidateAttempts(t, v));
  }

  lemma NoPruneConcat(a: seq<Attempt>, b: seq<Attempt>)
    requires forall i :: 0 <= i < |a| ==> !Prunes(a[i])
    requires forall i :: 0 <= i < |b| ==> !Prunes(b[i])
    ensures forall i :: 0 <= i < |a + b| ==> !Prunes((a + b)[i])
  {
  }

  lemma {:induction false} BatchesDoNotPrune(turns: seq<Turn>, v: Verifier)
    ensures forall i :: 0 <= i < |Batches(turns, v)| ==> !Prunes(Batches(turns, v)[i])
  {
    if turns == [] {
    } else {
      var n := |turns| - 1;
      BatchesDoNotPrune(turns[..n], v);
      BatchDoesNotPrune(turns[n], v);
      NoPruneConcat(Batches(turns[..n], v), Batch(turns[n], v));
    }
  }

  /**
   The candidates after a sync: those that the prune left, and one under the URL of every find
   that was looked at by a source whose health row was saved, if its statement went through.
   */
  lemma SyncFilesExactly(s: Tables, prune: Tick, turns: seq<Turn>, v: Verifier, url: string)
    requires prune.io
    ensures url in DoAll(s, Attempts(prune, turns, v)).db.candidates
            <==> || url in Prune(s.db.candidates, prune.now)
                 || exists i :: 0 <= i < |turns| && TurnFiles(turns[i], v, url)
  {
    var pruned := Do(s, Pruning(prune));
    SyncParts(s, prune, turns, v);
    BatchesOnlySync(turns, v);
    BatchesDoNotPrune(turns, v);
    DoAllFiles(pruned, Batches(turns, v), url);
    BatchesFiled(turns, v, url);
    assert pruned.db.candidates == Prune(s.db.candidates, prune.now);
    assert AnyTurn(turns, Filing(v, url)) <==> exists i :: 0 <= i < |turns| && TurnFiles(turns[i], v, url);
  }

  /** When a sync returns nil, every candidate that verification handed on is in the table. */
  lemma NilFilesAll(s: Tables, prune: Tick, turns: seq<Turn>, v: Verifier, i: nat, j: nat)
    requires Result(s, prune, turns, v) == Completed(0) && i < |turns| && Looked(turns[i], v, j)
    ensures turns[i].fetched.candidates[j].url in DoAll(s, Attempts(prune, turns, v)).db.candidates
  {
    NilSaves(s, prune, turns, v, i);
    NilTicks(s, prune, turns, v, i, j);
    SyncFilesExactly(s, prune, turns, v, turns[i].fetched.candidates[j].url);
    assert FilesAt(turns[i], v, turns[i].fetched.candidates[j].url, j);
    assert TurnFiles(turns[i], v, turns[i].fetched.candidates[j].url);
  }

  lemma NilTicks(s: Tables, prune: Tick, turns: seq<Turn>, v: Verifier, i: nat, j: nat)
    requires Result(s, prune, turns, v) == Completed(0) && i < |turns| && Looked(turns[i], v, j)
    ensures turns[i].candidateTicks(j).io
  {
    var at := NilBatch(s, prune, turns, v, i);
    BatchTicks(at, turns[i], v, j);
  }

  lemma BatchTicks(s: Tables, t: Turn, v: Verifier, j: nat)
    requires Failures(s, Batch(t, v)) == 0 && Looked(t, v, j)
    ensures t.candidateTicks(j).io
  {
    BatchParts(s, t, v);
    VerifiedOneByOne(t, v);
    AttemptsStoreVerified(t, v);
    var start, attempts := DoAll(Do(s, Saving(t)), EventAttempts(t)), CandidateAttempts(t, v);
    NoFailures(start, attempts);
    assert SucceedsAt(start, attempts, j);
  }

  /** A source that is disabled, failed, or whose health row was not saved stores nothing, not even what it found. */
  lemma UnsavedStoresNothing(s: Tables, t: Turn, v: Verifier)
    requires !t.enabled || t.fetched.FetchFailed? || !t.saving.io
    ensures DoAll(s, Batch(t, v)).db == s.db && |Batch(t, v)| == 1
  {
    BatchTouches(s, t, v);
  }

  // ---------- the count ----------

  /** The numbers below n with a property. */
  function Where(n: nat, p: nat -> bool): set<nat> {
    set i: nat | i < n && p(i)
  }

  lemma WhereNext(n: nat, p: nat -> bool)
    ensures |Where(n + 1, p)| == |Where(n, p)| + if p(n) then 1 else 0
  {
    assert Where(n + 1, p) == Where(n, p) + if p(n) then {n} else {};
  }

  function FailedTurn(turns: seq<Turn>): nat -> bool {
    (i: nat) => i < |turns| && FetchFailure(turns[i])
  }

  function FailedAttempt(s: Tables, attempts: seq<Attempt>): nat -> bool {
    (i: nat) => i < |attempts| && !SucceedsAt(s, attempts, i)
  }

  lemma FetchFailuresNext(turns: seq<Turn>, t: Turn)
    ensures FetchFailures(turns + [t]) == FetchFailures(turns) + if FetchFailure(t) then 1 else 0
  {
    assert (turns + [t])[..|turns|] == turns;
  }

  lemma FailuresNext(s: Tables, attempts: seq<Attempt>, n: nat)
    requires n < |attempts|
    ensures Failures(s, attempts[..n + 1]) == Failures(s, attempts[..n]) + if SucceedsAt(s, attempts, n) then 0 else 1
  {
    DoNext(s, attempts, n);
  }

  lemma FetchFailuresAt(turns: seq<Turn>, n: nat)
    requires n < |turns|
    ensures FetchFailures(turns[..n + 1]) == FetchFailures(turns[..n]) + if FailedTurn(turns)(n) then 1 else 0
  {
    assert turns[..n + 1] == turns[..n] + [turns[n]];
    FetchFailuresNext(turns[..n], turns[n]);
  }

  lemma NoneYet(p: nat -> bool)
    ensures |Where(0, p)| == 0
  {
    assert Where(0, p) == {};
  }

  /** The statements that failed, each counted once. */
  lemma {:induction false} FailuresCounted(s: Tables, attempts: seq<Attempt>, n: nat, failed: nat -> bool)
    requires n <= |attempts|
    requires forall i: nat :: i < |attempts| ==> failed(i) == !SucceedsAt(s, attempts, i)
    ensures Failures(s, attempts[..n]) == |Where(n, failed)|
  {
    if n == 0 {
      NoneYet(failed);
    } else {
      FailuresCounted(s, attempts, n - 1, failed);
      WhereNext(n - 1, failed);
      FailuresNext(s, attempts, n - 1);
    }
  }

  /** The sources that failed, each counted once. */
  lemma {:induction false} FetchFailuresCounted(turns: seq<Turn>, n: nat)
    requires n <= |turns|
    ensures FetchFailures(turns[..n]) == |Where(n, FailedTurn(turns))|
  {
    if n == 0 {
      NoneYet(FailedTurn(turns));
    } else {
      FetchFailuresCounted(turns, n - 1);
      WhereNext(n - 1, FailedTurn(turns));
      FetchFailuresAt(turns, n - 1);
    }
  }

  /** A sync that pruned reports as many failures as statements and sources failed. */
  lemma ResultCounts(s: Tables, prune: Tick, turns: seq<Turn>, v: Verifier)
    ensures var attempts := Attempts(prune, turns, v);
            Result(s, prune, turns, v)
            == if prune.io
               then Completed(|Where(|attempts|, FailedAttempt(s, attempts))| + |Where(|turns|, FailedTurn(turns))|)
               else PruneFailed
  {
    var attempts := Attempts(prune, turns, v);
    FailuresCounted(s, attempts, |attempts|, FailedAttempt(s, attempts));
    FetchFailuresCounted(turns, |turns|);
    assert attempts[..|attempts|] == attempts && turns[..|turns|] == turns;
  }

  // ---------- health ----------

  lemma {:induction false} ContainsExactly(s: string, part: string)
    ensures Contains(s, part) <==> exists i :: 0 <= i <= |s| && part <= s[i..]
  {
    assert s[0..] == s;
    if s != [] && !(part <= s) {
      var t := s[1..];
      ContainsExactly(t, part);
      if i :| 0 <= i <= |t| && part <= t[i..] { assert s[i + 1..] == t[i..]; }
      if i :| 0 < i <= |s| && part <= s[i..] { assert s[i..] == t[i - 1..]; }
    }
  }

  /** The name has the word in it. */
  ghost predicate Named(name: string, word: string) {
    exists i :: 0 <= i <= |name| && word <= name[i..]
  }

  /** The health row of each outcome: a source that failed is degraded if it is one for discovery, else in error. */
  ghost predicate Tells(row: HealthRow, t: Turn) {
    && (!t.enabled ==> row == HealthRow(false, "disabled", None, "source disabled"))
    && (t.enabled && t.fetched.Fetched? ==> row == HealthRow(true, "healthy", Some(Format(t.fetchedAt)), ""))
    && (t.enabled && t.fetched.FetchFailed? && Named(t.name, "discovery") ==>
          row == HealthRow(true, "degraded", None, t.fetched.error))
    && (t.enabled && t.fetched.FetchFailed? && !Named(t.name, "discovery") ==>
          row == HealthRow(true, "error", None, t.fetched.error))
  }

  lemma HealthIsToldFor(t: Turn)
    ensures Tells(HealthOf(t), t)
    ensures FetchFailure(t) <==> t.enabled && t.fetched.FetchFailed? && !Named(t.name, "discovery")
  {
    ContainsExactly(t.name, "discovery");
  }

  /** After a sync the row of a source is the one of its last turn that could be saved. */
  lemma HealthIsTold(s: Tables, prune: Tick, turns: seq<Turn>, v: Verifier, i: nat)
    requires prune.io && LastSave(turns, i)
    ensures var health := DoAll(s, Attempts(prune, turns, v)).health;
            turns[i].name in health && Tells(health[turns[i].name], turns[i])
  {
    HealthTellsEachTurn(s, prune, turns, v, i, turns[i].name);
    HealthIsToldFor(turns[i]);
  }

  /** A sync returns nil exactly when all it attempted succeeded and no source but those for discovery failed. */
  lemma NilMeans(s: Tables, prune: Tick, turns: seq<Turn>, v: Verifier)
    ensures Result(s, prune, turns, v) == Completed(0)
            <==> && AllSucceed(s, Attempts(prune, turns, v))
                 && forall i :: 0 <= i < |turns| && turns[i].enabled && !Named(turns[i].name, "discovery") ==>
                      turns[i].fetched.Fetched?
  {
    NilExactly(s, prune, turns, v);
    forall i | 0 <= i < |turns|
      ensures FetchFailure(turns[i])
              <==> turns[i].enabled && turns[i].fetched.FetchFailed? && !Named(turns[i].name, "discovery")
    {
      HealthIsToldFor(turns[i]);
    }
  }
}
