/**
 One sync: prune, then one batch for each source in order. What a sync asks of the database
 is computed from the sources' answers alone and never from the tables, so its statements
 are steps that the interleaved runs of module Review can be made of.
 */
module Sync {
  import opened Text
  import opened Model
  import opened Timestamps
  import EventRows
  import opened Events
  import CandidateRows
  import opened Candidates
  import Review
  import opened Store
  import FanOut

  datatype Fetched = FetchFailed(error: string) | Fetched(events: seq<Event>, candidates: seq<Candidate>)

  /** The clock reading taken by a store operation, and whether the database lets it through. */
  datatype Tick = Tick(now: Time, io: bool)

  /** One source's turn: what it is, what it answers, and what its store operations meet. */
  datatype Turn = Turn(name: string, enabled: bool, fetched: Fetched, fetchedAt: Time,
                       saving: Tick, eventTicks: nat -> Tick, candidateTicks: nat -> Tick)

  /** The page check as a function of the candidate; None is the nil verifier. */
  type Verifier = Option<Candidate -> Outcome>

  predicate Contains(s: string, part: string) {
    part <= s || (s != [] && Contains(s[1..], part))
  }

  predicate IsDiscovery(name: string) {
    Contains(name, "discovery")
  }

  // ---------- what a sync asks of the database ----------

  datatype Statement = Change(step: Review.Step) | Save(name: string, row: HealthRow)

  datatype Attempt = Attempt(statement: Statement, io: bool)

  function HealthOf(t: Turn): HealthRow {
    if !t.enabled then HealthRow(false, "disabled", None, "source disabled")
    else match t.fetched
      case FetchFailed(error) => HealthRow(true, if IsDiscovery(t.name) then "degraded" else "error", None, error)
      case Fetched(_, _) => HealthRow(true, "healthy", Some(Format(t.fetchedAt)), "")
  }

  /** Only a source that answered, and whose health row was saved, gets to store anything. */
  predicate Stores(t: Turn) {
    t.enabled && t.fetched.Fetched? && t.saving.io
  }

  function OutcomeFor(v: Verifier, c: Candidate): Outcome {
    if v.Some? && IsZero(c.startTime) then v.value(c) else NotAsked
  }

  function Considered(v: Verifier, cs: seq<Candidate>): seq<Candidate> {
    if v.None? then cs else FanOut.Batch(cs)
  }

  function EventAttempts(t: Turn): seq<Attempt> {
    if !Stores(t) then [] else
      var events, ticks := t.fetched.events, t.eventTicks;
      seq(|events|, i requires 0 <= i < |events| =>
        Attempt(Change(Review.SyncEvent(Write(events[i], ticks(i).now))), ticks(i).io))
  }

  function CandidateAttempts(t: Turn, v: Verifier): seq<Attempt> {
    if !Stores(t) then [] else
      var cs, ticks := Considered(v, t.fetched.candidates), t.candidateTicks;
      seq(|cs|, i requires 0 <= i < |cs| =>
        Attempt(Change(Review.SyncCandidate(cs[i], OutcomeFor(v, cs[i]), ticks(i).now)), ticks(i).io))
  }

  /** A source's batch depends on that source alone. */
  function Batch(t: Turn, v: Verifier): seq<Attempt> {
    [Attempt(Save(t.name, HealthOf(t)), t.saving.io)] + EventAttempts(t) + CandidateAttempts(t, v)
  }

  function Batches(turns: seq<Turn>, v: Verifier): seq<Attempt> {
    if turns == [] then [] else Batches(turns[..|turns| - 1], v) + Batch(turns[|turns| - 1], v)
  }

  /** A sync that cannot prune stops there. */
  function Attempts(prune: Tick, turns: seq<Turn>, v: Verifier): seq<Attempt> {
    [Attempt(Change(Review.SyncPrune(prune.now)), prune.io)] + if prune.io then Batches(turns, v) else []
  }

  // ---------- what the attempts do ----------

  datatype Tables = Tables(db: Review.Db, health: HealthTable)

  function DoStep(db: Review.Db, step: Review.Step): Review.Db {
    Review.Next(Review.Sys(db, map[]), step).db
  }

  function Do(s: Tables, a: Attempt): Tables {
    if !a.io then s
    else match a.statement
      case Change(step) => s.(db := DoStep(s.db, step))
      case Save(name, row) => s.(health := s.health[name := row])
  }

  function DoAll(s: Tables, attempts: seq<Attempt>): Tables {
    if attempts == [] then s else Do(DoAll(s, attempts[..|attempts| - 1]), attempts[|attempts| - 1])
  }

  /** An attempt succeeds when the database lets it through and does not refuse the row. */
  predicate Succeeds(s: Tables, a: Attempt) {
    a.io && (a.statement.Change? && a.statement.step.SyncEvent?
             ==> EventRows.Upsert(s.db.events, Encode(a.statement.step.write)).Some?)
  }

  function Failures(s: Tables, attempts: seq<Attempt>): nat {
    if attempts == [] then 0
    else Failures(s, attempts[..|attempts| - 1])
         + if Succeeds(DoAll(s, attempts[..|attempts| - 1]), attempts[|attempts| - 1]) then 0 else 1
  }

  predicate FetchFailure(t: Turn) {
    t.enabled && t.fetched.FetchFailed? && !IsDiscovery(t.name)
  }

  function FetchFailures(turns: seq<Turn>): nat {
    if turns == [] then 0
    else FetchFailures(turns[..|turns| - 1]) + if FetchFailure(turns[|turns| - 1]) then 1 else 0
  }

  lemma DoSnoc(s: Tables, attempts: seq<Attempt>, a: Attempt)
    ensures DoAll(s, attempts + [a]) == Do(DoAll(s, attempts), a)
    ensures Failures(s, attempts + [a]) == Failures(s, attempts) + if Succeeds(DoAll(s, attempts), a) then 0 else 1
  {
    assert (attempts + [a])[..|attempts|] == attempts;
  }

  lemma {:induction false} DoAppend(s: Tables, a: seq<Attempt>, b: seq<Attempt>)
    ensures DoAll(s, a + b) == DoAll(DoAll(s, a), b)
    ensures Failures(s, a + b) == Failures(s, a) + Failures(DoAll(s, a), b)
    decreases |b|
  {
    if b == [] {
      assert a + b == a;
    } else {
      var n := |b| - 1;
      DoAppend(s, a, b[..n]);
      assert a + b == a + b[..n] + [b[n]];
      DoSnoc(s, a + b[..n], b[n]);
    }
  }

  predicate SucceedsAt(s: Tables, attempts: seq<Attempt>, i: nat)
    requires i < |attempts|
  {
    Succeeds(DoAll(s, attempts[..i]), attempts[i])
  }

  predicate AllSucceed(s: Tables, attempts: seq<Attempt>) {
    forall i :: 0 <= i < |attempts| ==> SucceedsAt(s, attempts, i)
  }

  lemma SucceedsAtPrefix(s: Tables, attempts: seq<Attempt>, n: nat, i: nat)
    requires i < n <= |attempts|
    ensures SucceedsAt(s, attempts[..n], i) == SucceedsAt(s, attempts, i)
  {
    assert attempts[..n][..i] == attempts[..i];
  }

  lemma {:induction false} NoFailures(s: Tables, attempts: seq<Attempt>)
    ensures Failures(s, attempts) == 0 <==> AllSucceed(s, attempts)
  {
    if attempts == [] {
    } else {
      var n := |attempts| - 1;
      NoFailures(s, attempts[..n]);
      forall i | 0 <= i < n ensures SucceedsAt(s, attempts[..n], i) == SucceedsAt(s, attempts, i) {
        SucceedsAtPrefix(s, attempts, n, i);
      }
      assert Failures(s, attempts) == Failures(s, attempts[..n]) + if SucceedsAt(s, attempts, n) then 0 else 1;
    }
  }

  lemma {:induction false} NoFetchFailures(turns: seq<Turn>)
    ensures FetchFailures(turns) == 0 <==> forall i :: 0 <= i < |turns| ==> !FetchFailure(turns[i])
  {
    if turns == [] {
    } else {
      NoFetchFailures(turns[..|turns| - 1]);
    }
  }

  // ---------- the pipeline as it runs ----------

  function NeedsCheck(): FanOut.NeedsWork<Candidate> {
    (c: Candidate) => IsZero(c.startTime)
  }

  function Checked(check: Candidate -> Outcome): Candidate -> Candidate {
    (c: Candidate) => Verify(c, check(c))
  }

  /** What verification hands to the store. */
  function Verified(v: Verifier, cs: seq<Candidate>): seq<Candidate> {
    if v.None? then cs else FanOut.Sequential(cs, NeedsCheck(), Checked(v.value))
  }

  lemma CheckedAlike(v: Verifier, c: Candidate)
    ensures Verify(c, OutcomeFor(v, c)) == if v.Some? && NeedsCheck()(c) then Checked(v.value)(c) else c
  {
  }

  /** The candidate that an attempt hands to the store. */
  function Stored(a: Attempt): Candidate
    requires a.statement.Change? && a.statement.step.SyncCandidate?
  {
    Verify(a.statement.step.lead, a.statement.step.outcome)
  }

  /** The attempts store exactly the candidates that the fan-out returns, in its order. */
  lemma AttemptsStoreVerified(t: Turn, v: Verifier)
    requires Stores(t)
    ensures |CandidateAttempts(t, v)| == |Verified(v, t.fetched.candidates)|
    ensures forall i :: 0 <= i < |CandidateAttempts(t, v)| ==>
             Stored(CandidateAttempts(t, v)[i]) == Verified(v, t.fetched.candidates)[i]
  {
    var cs := Considered(v, t.fetched.candidates);
    forall i | 0 <= i < |cs| ensures Stored(CandidateAttempts(t, v)[i]) == Verified(v, t.fetched.candidates)[i] {
      CheckedAlike(v, cs[i]);
    }
  }

  /** The scheduler brings the goroutines of the turn's verification to an end. */
  predicate ScheduleEnds(t: Turn, v: Verifier, schedule: seq<FanOut.Move>) {
    Stores(t) && v.Some? ==> FanOut.Completes(t.fetched.candidates, schedule, NeedsCheck(), Checked(v.value))
  }

  method VerifyCandidates(v: Verifier, cs: seq<Candidate>, schedule: seq<FanOut.Move>) returns (r: seq<Candidate>)
    requires v.Some? ==> FanOut.Completes(cs, schedule, NeedsCheck(), Checked(v.value))
    ensures r == Verified(v, cs)
  {
    if v.None? {
      return cs;
    }
    r := FanOut.Execute(cs, schedule, NeedsCheck(), Checked(v.value));
  }

  ghost function TablesOf(store: SQLiteStore): Tables
    reads store
  {
    Tables(store.Contents(), store.health)
  }

  /** UpsertEvent does what the attempt says, and fails when the attempt fails. */
  method StoreEvent(store: SQLiteStore, w: Write, io: bool) returns (ok: bool)
    modifies store
    ensures var a := Attempt(Change(Review.SyncEvent(w)), io);
            TablesOf(store) == Do(old(TablesOf(store)), a) && ok == Succeeds(old(TablesOf(store)), a)
  {
    ok := store.UpsertEvent(w, io);
  }

  method StoreCandidate(store: SQLiteStore, c: Candidate, tick: Tick, ghost a: Attempt) returns (ok: bool)
    requires a.statement.Change? && a.statement.step.SyncCandidate? && a.statement.step.now == tick.now
    requires c == Stored(a) && a.io == tick.io
    modifies store
    ensures TablesOf(store) == Do(old(TablesOf(store)), a) && ok == Succeeds(old(TablesOf(store)), a)
  {
    ok := store.UpsertCandidate(c, tick.now, tick.io);
  }

  method StoreEvents(store: SQLiteStore, t: Turn) returns (failures: nat)
    requires Stores(t)
    modifies store
    ensures TablesOf(store) == DoAll(old(TablesOf(store)), EventAttempts(t))
    ensures failures == Failures(old(TablesOf(store)), EventAttempts(t))
  {
    failures := 0;
    ghost var start, attempts := TablesOf(store), EventAttempts(t);
    var events := t.fetched.events;
    for i := 0 to |events|
      invariant TablesOf(store) == DoAll(start, attempts[..i])
      invariant failures == Failures(start, attempts[..i])
    {
      DoNext(start, attempts, i);
      var ok := StoreEvent(store, Write(events[i], t.eventTicks(i).now), t.eventTicks(i).io);
      if !ok {
        failures := failures + 1;
      }
    }
    assert attempts[..|events|] == attempts;
  }

  lemma DoNext(s: Tables, attempts: seq<Attempt>, i: nat)
    requires i < |attempts|
    ensures DoAll(s, attempts[..i + 1]) == Do(DoAll(s, attempts[..i]), attempts[i])
    ensures Failures(s, attempts[..i + 1])
            == Failures(s, attempts[..i]) + if Succeeds(DoAll(s, attempts[..i]), attempts[i]) then 0 else 1
  {
    assert attempts[..i + 1] == attempts[..i] + [attempts[i]];
    DoSnoc(s, attempts[..i], attempts[i]);
  }

  method StoreCandidates(store: SQLiteStore, t: Turn, v: Verifier, candidates: seq<Candidate>) returns (failures: nat)
    requires Stores(t) && candidates == Verified(v, t.fetched.candidates)
    modifies store
    ensures TablesOf(store) == DoAll(old(TablesOf(store)), CandidateAttempts(t, v))
    ensures failures == Failures(old(TablesOf(store)), CandidateAttempts(t, v))
  {
    failures := 0;
    ghost var start, attempts := TablesOf(store), CandidateAttempts(t, v);
    AttemptsStoreVerified(t, v);
    for i := 0 to |candidates|
      invariant TablesOf(store) == DoAll(start, attempts[..i])
      invariant failures == Failures(start, attempts[..i])
    {
      DoNext(start, attempts, i);
      var ok := StoreCandidate(store, candidates[i], t.candidateTicks(i), attempts[i]);
      if !ok {
        failures := failures + 1;
      }
    }
    assert attempts[..|candidates|] == attempts;
  }

  /** One turn of the loop over the sources. */
  method SyncSource(store: SQLiteStore, t: Turn, v: Verifier, schedule: seq<FanOut.Move>) returns (failures: nat)
    requires ScheduleEnds(t, v, schedule)
    modifies store
    ensures TablesOf(store) == DoAll(old(TablesOf(store)), Batch(t, v))
    ensures failures == Failures(old(TablesOf(store)), Batch(t, v)) + if FetchFailure(t) then 1 else 0
  {
    ghost var start := TablesOf(store);
    BatchParts(start, t, v);
    failures := 0;
    if !t.enabled {
      var ok := store.SaveSourceHealth(t.name, HealthRow(false, "disabled", None, "source disabled"), t.saving.io);
      return if ok then 0 else 1;
    }
    if t.fetched.FetchFailed? {
      var state := if IsDiscovery(t.name) then "degraded" else "error";
      var ok := store.SaveSourceHealth(t.name, HealthRow(true, state, None, t.fetched.error), t.saving.io);
      if !ok {
        failures := failures + 1;
      }
      if state == "error" {
        failures := failures + 1;
      }
      return;
    }
    var ok := store.SaveSourceHealth(t.name, HealthRow(true, "healthy", Some(Format(t.fetchedAt)), ""), t.saving.io);
    if !ok {
      return 1;
    }
    var events := StoreEvents(store, t);
    var candidates := VerifyCandidates(v, t.fetched.candidates, schedule);
    var more := StoreCandidates(store, t, v, candidates);
    failures := events + more;
  }

  function Saving(t: Turn): Attempt {
    Attempt(Save(t.name, HealthOf(t)), t.saving.io)
  }

  lemma DoOne(s: Tables, a: Attempt)
    ensures DoAll(s, [a]) == Do(s, a) && Failures(s, [a]) == if Succeeds(s, a) then 0 else 1
  {
    DoSnoc(s, [], a);
    assert [] + [a] == [a];
  }

  lemma BatchParts(s: Tables, t: Turn, v: Verifier)
    ensures var saved := Do(s, Saving(t));
            var stored := DoAll(saved, EventAttempts(t));
            && DoAll(s, Batch(t, v)) == DoAll(stored, CandidateAttempts(t, v))
            && Failures(s, Batch(t, v)) == (if t.saving.io then 0 else 1) + Failures(saved, EventAttempts(t))
                                           + Failures(stored, CandidateAttempts(t, v))
  {
    DoOne(s, Saving(t));
    DoAppend(s, [Saving(t)], EventAttempts(t));
    DoAppend(s, [Saving(t)] + EventAttempts(t), CandidateAttempts(t, v));
  }

  datatype SyncResult = PruneFailed | Completed(failures: nat)

  /** The loop over the sources. */
  method SyncSources(store: SQLiteStore, turns: seq<Turn>, v: Verifier, schedules: seq<seq<FanOut.Move>>)
    returns (failures: nat)
    requires |schedules| == |turns| && forall i :: 0 <= i < |turns| ==> ScheduleEnds(turns[i], v, schedules[i])
    modifies store
    ensures TablesOf(store) == DoAll(old(TablesOf(store)), Batches(turns, v))
    ensures failures == Failures(old(TablesOf(store)), Batches(turns, v)) + FetchFailures(turns)
  {
    failures := 0;
    ghost var start := TablesOf(store);
    for i := 0 to |turns|
      invariant TablesOf(store) == DoAll(start, Batches(turns[..i], v))
      invariant failures == Failures(start, Batches(turns[..i], v)) + FetchFailures(turns[..i])
    {
      assert turns[..i + 1][..i] == turns[..i];
      DoAppend(start, Batches(turns[..i], v), Batch(turns[i], v));
      var more := SyncSource(store, turns[i], v, schedules[i]);
      failures := failures + more;
    }
    assert turns[..|turns|] == turns;
  }

  method StorePrune(store: SQLiteStore, prune: Tick) returns (ok: bool)
    modifies store
    ensures TablesOf(store) == Do(old(TablesOf(store)), Pruning(prune)) && ok == prune.io
  {
    ok := store.PruneCandidates(prune.now, prune.io);
  }

  /** runSync: the statements of the sync, in order, on the store, and the count of what went wrong. */
  method RunSync(store: SQLiteStore, prune: Tick, turns: seq<Turn>, v: Verifier, schedules: seq<seq<FanOut.Move>>)
    returns (result: SyncResult)
    requires |schedules| == |turns| && forall i :: 0 <= i < |turns| ==> ScheduleEnds(turns[i], v, schedules[i])
    modifies store
    ensures TablesOf(store) == DoAll(old(TablesOf(store)), Attempts(prune, turns, v))
    ensures result == Result(old(TablesOf(store)), prune, turns, v)
  {
    SyncParts(TablesOf(store), prune, turns, v);
    var pruned := StorePrune(store, prune);
    if !pruned {
      return PruneFailed;
    }
    var failures := SyncSources(store, turns, v, schedules);
    result := Completed(failures);
  }

  function Pruning(prune: Tick): Attempt {
    Attempt(Change(Review.SyncPrune(prune.now)), prune.io)
  }

  function Result(s: Tables, prune: Tick, turns: seq<Turn>, v: Verifier): SyncResult {
    if prune.io then Completed(Failures(s, Attempts(prune, turns, v)) + FetchFailures(turns)) else PruneFailed
  }

  lemma SyncParts(s: Tables, prune: Tick, turns: seq<Turn>, v: Verifier)
    ensures DoAll(s, Attempts(prune, turns, v))
            == if prune.io then DoAll(Do(s, Pruning(prune)), Batches(turns, v)) else s
    ensures Failures(s, Attempts(prune, turns, v))
            == if prune.io then Failures(Do(s, Pruning(prune)), Batches(turns, v)) else 1
  {
    DoOne(s, Pruning(prune));
    DoAppend(s, [Pruning(prune)], if prune.io then Batches(turns, v) else []);
  }

  /**
   A sync returns nil exactly when every operation it attempted succeeded and every enabled
   source that is not a discovery source answered.
   */
  lemma NilExactly(s: Tables, prune: Tick, turns: seq<Turn>, v: Verifier)
    ensures Result(s, prune, turns, v) == Completed(0)
            <==> && AllSucceed(s, Attempts(prune, turns, v))
                 && forall i :: 0 <= i < |turns| ==> !FetchFailure(turns[i])
  {
    NoFailures(s, Attempts(prune, turns, v));
    NoFetchFailures(turns);
    SyncParts(s, prune, turns, v);
  }

  // ---------- what a source can change ----------

  /** Saving aside, a batch leaves the health table alone. */
  lemma {:induction false} ChangesKeepHealth(s: Tables, attempts: seq<Attempt>)
    requires forall i :: 0 <= i < |attempts| ==> attempts[i].statement.Change?
    ensures DoAll(s, attempts).health == s.health
  {
    if attempts == [] {
    } else {
      ChangesKeepHealth(s, attempts[..|attempts| - 1]);
    }
  }

  function SavedHealth(h: HealthTable, t: Turn): HealthTable {
    if t.saving.io then h[t.name := HealthOf(t)] else h
  }

  /**
   A batch touches no health row but its source's own; and unless the source is enabled,
   answered and had its health row saved, it touches nothing else.
   */
  lemma BatchTouches(s: Tables, t: Turn, v: Verifier)
    ensures DoAll(s, Batch(t, v)).health == SavedHealth(s.health, t)
    ensures !Stores(t) ==> DoAll(s, Batch(t, v)).db == s.db
  {
    BatchParts(s, t, v);
    var saved := Do(s, Saving(t));
    ChangesKeepHealth(saved, EventAttempts(t));
    ChangesKeepHealth(DoAll(saved, EventAttempts(t)), CandidateAttempts(t, v));
  }

  function AllSaved(h: HealthTable, turns: seq<Turn>): HealthTable {
    if turns == [] then h else SavedHealth(AllSaved(h, turns[..|turns| - 1]), turns[|turns| - 1])
  }

  lemma {:induction false} HealthIsSaved(s: Tables, turns: seq<Turn>, v: Verifier)
    ensures DoAll(s, Batches(turns, v)).health == AllSaved(s.health, turns)
  {
    if turns == [] {
    } else {
      var n := |turns| - 1;
      HealthIsSaved(s, turns[..n], v);
      DoAppend(s, Batches(turns[..n], v), Batch(turns[n], v));
      BatchTouches(DoAll(s, Batches(turns[..n], v)), turns[n], v);
    }
  }

  predicate Saves(turns: seq<Turn>, i: nat, name: string)
    requires i < |turns|
  {
    turns[i].saving.io && turns[i].name == name
  }

  ghost predicate LastSave(turns: seq<Turn>, i: nat) {
    && i < |turns| && turns[i].saving.io
    && forall j :: i < j < |turns| ==> !Saves(turns, j, turns[i].name)
  }

  ghost predicate NeverSaved(turns: seq<Turn>, name: string) {
    forall i :: 0 <= i < |turns| ==> !Saves(turns, i, name)
  }

  lemma {:induction false} AllSavedTells(h: HealthTable, turns: seq<Turn>, i: nat, name: string)
    ensures LastSave(turns, i) ==> turns[i].name in AllSaved(h, turns)
                                   && AllSaved(h, turns)[turns[i].name] == HealthOf(turns[i])
    ensures NeverSaved(turns, name)
            ==> (name in AllSaved(h, turns) <==> name in h) && (name in h ==> AllSaved(h, turns)[name] == h[name])
  {
    if turns == [] {
    } else {
      var n := |turns| - 1;
      assert forall j, m :: 0 <= j < n ==> Saves(turns[..n], j, m) == Saves(turns, j, m);
      AllSavedTells(h, turns[..n], i, name);
      if LastSave(turns, i) && i < n {
        assert !Saves(turns, n, turns[i].name);
      }
      if NeverSaved(turns, name) {
        assert !Saves(turns, n, name);
      }
    }
  }

  /** After a sync a source's health row tells its own last turn, whatever befell the others; no other row changes. */
  lemma HealthTellsEachTurn(s: Tables, prune: Tick, turns: seq<Turn>, v: Verifier, i: nat, name: string)
    requires prune.io
    ensures var health := DoAll(s, Attempts(prune, turns, v)).health;
            && (LastSave(turns, i) ==> turns[i].name in health && health[turns[i].name] == HealthOf(turns[i]))
            && (NeverSaved(turns, name) ==> (name in health <==> name in s.health)
                                            && (name in health ==> health[name] == s.health[name]))
  {
    SyncParts(s, prune, turns, v);
    HealthIsSaved(Do(s, Pruning(prune)), turns, v);
    AllSavedTells(s.health, turns, i, name);
  }

  /** What attempts do to candidates and events does not depend on the health table. */
  lemma {:induction false} HealthIsApart(s: Tables, s': Tables, attempts: seq<Attempt>)
    requires s.db == s'.db
    ensures DoAll(s, attempts).db == DoAll(s', attempts).db && Failures(s, attempts) == Failures(s', attempts)
  {
    if attempts == [] {
    } else {
      HealthIsApart(s, s', attempts[..|attempts| - 1]);
    }
  }

  lemma BatchesSnoc(turns: seq<Turn>, t: Turn, v: Verifier)
    ensures Batches(turns + [t], v) == Batches(turns, v) + Batch(t, v)
  {
    assert (turns + [t])[..|turns|] == turns;
  }

  lemma AppendLast<T>(a: seq<T>, b: seq<T>)
    requires b != []
    ensures a + b == a + b[..|b| - 1] + [b[|b| - 1]]
  {
  }

  /** Two runs of batches with the same effect stay together under one more batch. */
  lemma OneMoreBatch(s: Tables, a: seq<Turn>, b: seq<Turn>, t: Turn, v: Verifier)
    requires DoAll(s, Batches(a, v)).db == DoAll(s, Batches(b, v)).db
    ensures DoAll(s, Batches(a + [t], v)).db == DoAll(s, Batches(b + [t], v)).db
    ensures Failures(s, Batches(a + [t], v)) - Failures(s, Batches(a, v))
            == Failures(s, Batches(b + [t], v)) - Failures(s, Batches(b, v))
  {
    BatchesSnoc(a, t, v);
    BatchesSnoc(b, t, v);
    DoAppend(s, Batches(a, v), Batch(t, v));
    DoAppend(s, Batches(b, v), Batch(t, v));
    HealthIsApart(DoAll(s, Batches(a, v)), DoAll(s, Batches(b, v)), Batch(t, v));
  }

  /**
   Batches are independent: a source that is disabled, fails, or cannot save its health row
   leaves what all the other sources do, before it and after it, as if it were not there.
   */
  lemma {:induction false} IdleSourceIsInvisible(s: Tables, before: seq<Turn>, t: Turn, after: seq<Turn>, v: Verifier)
    requires !Stores(t)
    ensures DoAll(s, Batches(before + [t] + after, v)).db == DoAll(s, Batches(before + after, v)).db
    ensures Failures(s, Batches(before + [t] + after, v))
            == Failures(s, Batches(before + after, v)) + if t.saving.io then 0 else 1
    decreases |after|
  {
    if after == [] {
      assert before + [t] + after == before + [t] && before + after == before;
      IdleBatch(s, before, t, v);
    } else {
      var n := |after| - 1;
      IdleSourceIsInvisible(s, before, t, after[..n], v);
      OneMoreBatch(s, before + [t] + after[..n], before + after[..n], after[n], v);
      AppendLast(before + [t], after);
      AppendLast(before, after);
    }
  }

  lemma IdleBatch(s: Tables, before: seq<Turn>, t: Turn, v: Verifier)
    requires !Stores(t)
    ensures DoAll(s, Batches(before + [t], v)).db == DoAll(s, Batches(before, v)).db
    ensures Failures(s, Batches(before + [t], v)) == Failures(s, Batches(before, v)) + if t.saving.io then 0 else 1
  {
    BatchesSnoc(before, t, v);
    DoAppend(s, Batches(before, v), Batch(t, v));
    BatchTouches(DoAll(s, Batches(before, v)), t, v);
    BatchParts(DoAll(s, Batches(before, v)), t, v);
  }

  // ---------- syncs among reviews ----------

  /** The steps by which the attempts that got through change the candidates and the events. */
  function Steps(attempts: seq<Attempt>): seq<Review.Step> {
    if attempts == [] then []
    else
      var a := attempts[|attempts| - 1];
      Steps(attempts[..|attempts| - 1]) + if a.io && a.statement.Change? then [a.statement.step] else []
  }

  predicate IsSyncStep(step: Review.Step) {
    step.SyncPrune? || step.SyncEvent? || step.SyncCandidate?
  }

  /** Reviews in flight do not matter to a step of a sync. */
  lemma SyncStepLocal(s: Review.Sys, step: Review.Step)
    requires IsSyncStep(step)
    ensures Review.Next(s, step) == s.(db := DoStep(s.db, step))
  {
  }

  predicate OnlySyncSteps(attempts: seq<Attempt>) {
    forall i :: 0 <= i < |attempts| && attempts[i].statement.Change? ==> IsSyncStep(attempts[i].statement.step)
  }

  lemma BatchOnlySync(t: Turn, v: Verifier)
    ensures OnlySyncSteps(Batch(t, v))
  {
    var saved, events, found := [Saving(t)], EventAttempts(t), CandidateAttempts(t, v);
    assert OnlySyncSteps(saved) && OnlySyncSteps(events) && OnlySyncSteps(found);
    AppendOnlySync(saved, events);
    AppendOnlySync(saved + events, found);
  }

  lemma AppendOnlySync(a: seq<Attempt>, b: seq<Attempt>)
    requires OnlySyncSteps(a) && OnlySyncSteps(b)
    ensures OnlySyncSteps(a + b)
  {
  }

  lemma {:induction false} BatchesOnlySync(turns: seq<Turn>, v: Verifier)
    ensures OnlySyncSteps(Batches(turns, v))
  {
    if turns == [] {
    } else {
      var n := |turns| - 1;
      BatchesOnlySync(turns[..n], v);
      BatchOnlySync(turns[n], v);
      AppendOnlySync(Batches(turns[..n], v), Batch(turns[n], v));
    }
  }

  /** A sync after any run is that run with the steps of the sync. */
  lemma {:induction false} SyncExtendsRun(before: seq<Review.Step>, s: Tables, attempts: seq<Attempt>)
    requires s.db == Review.Run(before).db && OnlySyncSteps(attempts)
    ensures DoAll(s, attempts).db == Review.Run(before + Steps(attempts)).db
  {
    if attempts == [] {
      assert before + [] == before;
    } else {
      var n := |attempts| - 1;
      var a := attempts[n];
      SyncExtendsRun(before, s, attempts[..n]);
      var soFar := before + Steps(attempts[..n]);
      if a.io && a.statement.Change? {
        assert before + Steps(attempts) == soFar + [a.statement.step];
        Review.RunSnoc(soFar, a.statement.step);
        SyncStepLocal(Review.Run(soFar), a.statement.step);
      } else {
        assert before + Steps(attempts) == soFar;
      }
    }
  }

  datatype Job = Job(prune: Tick, turns: seq<Turn>, verifier: Verifier)

  /** The steps of several syncs; the mutex keeps them one after another. */
  function Program(jobs: seq<Job>): seq<Review.Step> {
    if jobs == [] then []
    else
      var job := jobs[|jobs| - 1];
      Program(jobs[..|jobs| - 1]) + Steps(Attempts(job.prune, job.turns, job.verifier))
  }

  /** The sync steps among the steps of a run, in order. */
  function SyncStepsOf(steps: seq<Review.Step>): seq<Review.Step> {
    if steps == [] then []
    else
      var step := steps[|steps| - 1];
      SyncStepsOf(steps[..|steps| - 1]) + if IsSyncStep(step) then [step] else []
  }

  predicate HandsOverLeads(t: Turn) {
    t.fetched.Fetched? ==> AllLeads(t.fetched.candidates)
  }

  /** The page check runs on a clock past 1970. */
  ghost predicate VerifierOk(v: Verifier) {
    v.Some? ==> forall c :: ClockOk(v.value(c))
  }

  /** Every start that the page check finds is an admissible one. */
  ghost predicate FindsOnly(v: Verifier, admissible: Time -> bool) {
    v.Some? ==> forall c :: Succeeded(v.value(c)) ==> admissible(Verify(c, v.value(c)).startTime)
  }

  ghost predicate JobOk(job: Job) {
    VerifierOk(job.verifier) && forall i :: 0 <= i < |job.turns| ==> HandsOverLeads(job.turns[i])
  }

  predicate GoodStep(step: Review.Step, admissible: Time -> bool) {
    && IsSyncStep(step) && Review.StepOk(step)
    && (step.SyncCandidate? && Succeeded(step.outcome) ==> admissible(Verify(step.lead, step.outcome).startTime))
  }

  predicate AllGood(attempts: seq<Attempt>, admissible: Time -> bool) {
    forall i :: 0 <= i < |attempts| && attempts[i].statement.Change?
        ==> GoodStep(attempts[i].statement.step, admissible)
  }

  lemma OutcomeOk(v: Verifier, c: Candidate, admissible: Time -> bool)
    requires VerifierOk(v) && FindsOnly(v, admissible)
    ensures ClockOk(OutcomeFor(v, c))
    ensures Succeeded(OutcomeFor(v, c)) ==> admissible(Verify(c, OutcomeFor(v, c)).startTime)
  {
  }

  lemma CandidatesGood(t: Turn, v: Verifier, admissible: Time -> bool)
    requires HandsOverLeads(t) && VerifierOk(v) && FindsOnly(v, admissible)
    ensures AllGood(CandidateAttempts(t, v), admissible)
  {
    var attempts := CandidateAttempts(t, v);
    forall i | 0 <= i < |attempts|
      ensures attempts[i].statement.Change? && GoodStep(attempts[i].statement.step, admissible)
    {
      var c := Considered(v, t.fetched.candidates)[i];
      assert c == t.fetched.candidates[i] && IsLead(c);
      OutcomeOk(v, c, admissible);
    }
  }

  lemma AppendGood(a: seq<Attempt>, b: seq<Attempt>, admissible: Time -> bool)
    requires AllGood(a, admissible) && AllGood(b, admissible)
    ensures AllGood(a + b, admissible)
  {
  }

  lemma BatchGood(t: Turn, v: Verifier, admissible: Time -> bool)
    requires HandsOverLeads(t) && VerifierOk(v) && FindsOnly(v, admissible)
    ensures AllGood(Batch(t, v), admissible)
  {
    CandidatesGood(t, v, admissible);
    assert AllGood(EventAttempts(t), admissible);
    AppendGood([Saving(t)], EventAttempts(t), admissible);
    AppendGood([Saving(t)] + EventAttempts(t), CandidateAttempts(t, v), admissible);
  }

  lemma {:induction false} BatchesGood(turns: seq<Turn>, v: Verifier, admissible: Time -> bool)
    requires VerifierOk(v) && FindsOnly(v, admissible) && forall i :: 0 <= i < |turns| ==> HandsOverLeads(turns[i])
    ensures AllGood(Batches(turns, v), admissible)
  {
    if turns == [] {
    } else {
      var n := |turns| - 1;
      BatchesGood(turns[..n], v, admissible);
      BatchGood(turns[n], v, admissible);
      AppendGood(Batches(turns[..n], v), Batch(turns[n], v), admissible);
    }
  }

  lemma {:induction false} StepsGood(attempts: seq<Attempt>, admissible: Time -> bool)
    requires AllGood(attempts, admissible)
    ensures AllGoodSteps(Steps(attempts), admissible)
  {
    if attempts == [] {
    } else {
      StepsGood(attempts[..|attempts| - 1], admissible);
    }
  }

  predicate AllGoodSteps(steps: seq<Review.Step>, admissible: Time -> bool) {
    forall i :: 0 <= i < |steps| ==> GoodStep(steps[i], admissible)
  }

  ghost predicate JobsFindOnly(jobs: seq<Job>, admissible: Time -> bool) {
    forall i :: 0 <= i < |jobs| ==> FindsOnly(jobs[i].verifier, admissible)
  }

  lemma {:induction false} ProgramGood(jobs: seq<Job>, admissible: Time -> bool)
    requires JobsFindOnly(jobs, admissible) && forall i :: 0 <= i < |jobs| ==> JobOk(jobs[i])
    ensures AllGoodSteps(Program(jobs), admissible)
  {
    if jobs == [] {
    } else {
      var n := |jobs| - 1;
      var job := jobs[n];
      ProgramGood(jobs[..n], admissible);
      assert JobOk(job) && FindsOnly(job.verifier, admissible);
      BatchesGood(job.turns, job.verifier, admissible);
      AppendGood([Pruning(job.prune)], if job.prune.io then Batches(job.turns, job.verifier) else [], admissible);
      StepsGood(Attempts(job.prune, job.turns, job.verifier), admissible);
    }
  }

  /** What RunSync leaves, after any run, is that run with the steps of the sync. */
  lemma SyncIsARun(before: seq<Review.Step>, s: Tables, job: Job)
    requires s.db == Review.Run(before).db
    ensures DoAll(s, Attempts(job.prune, job.turns, job.verifier)).db
            == Review.Run(before + Steps(Attempts(job.prune, job.turns, job.verifier))).db
  {
    BatchesOnlySync(job.turns, job.verifier);
    AppendOnlySync([Pruning(job.prune)], if job.prune.io then Batches(job.turns, job.verifier) else []);
    SyncExtendsRun(before, s, Attempts(job.prune, job.turns, job.verifier));
  }

  /** A sync that tries to store a refused event does not return nil. */
  lemma RefusedEventFailsSync(s: Tables, job: Job, i: nat, w: Write)
    requires var attempts := Attempts(job.prune, job.turns, job.verifier);
             && i < |attempts| && attempts[i].statement == Change(Review.SyncEvent(w))
             && EventRows.Upsert(DoAll(s, attempts[..i]).db.events, Encode(w)).None?
    ensures Result(s, job.prune, job.turns, job.verifier) != Completed(0)
  {
    var attempts := Attempts(job.prune, job.turns, job.verifier);
    NilExactly(s, job.prune, job.turns, job.verifier);
    assert !SucceedsAt(s, attempts, i);
  }

  /** What the first attempts of a sync leave, after any run, is a run too. */
  lemma PartOfSyncIsARun(before: seq<Review.Step>, s: Tables, job: Job, i: nat)
    requires s.db == Review.Run(before).db && i <= |Attempts(job.prune, job.turns, job.verifier)|
    ensures var attempts := Attempts(job.prune, job.turns, job.verifier);
            DoAll(s, attempts[..i]).db == Review.Run(before + Steps(attempts[..i])).db
  {
    var attempts := Attempts(job.prune, job.turns, job.verifier);
    BatchesOnlySync(job.turns, job.verifier);
    AppendOnlySync([Pruning(job.prune)], if job.prune.io then Batches(job.turns, job.verifier) else []);
    SyncExtendsRun(before, s, attempts[..i]);
  }

  /**
   So every later sync that comes to an event which its feed has moved fails at it, unless
   something else has stored the moved event's key by then.
   */
  lemma MovedEventFailsSync(before: seq<Review.Step>, s: Tables, job: Job, i: nat, w: Write, moved: Write)
    requires s.db == Review.Run(before).db && EventRows.UidTaken(s.db.events, Encode(w).uid)
    requires UidIsComputed(w.event) && UidIsComputed(moved.event) && Moved(w.event, moved.event)
    requires var attempts := Attempts(job.prune, job.turns, job.verifier);
             && i < |attempts| && attempts[i].statement == Change(Review.SyncEvent(moved))
             && !HasKey(DoAll(s, attempts[..i]).db.events, moved.event)
    ensures Result(s, job.prune, job.turns, job.verifier) != Completed(0)
  {
    var attempts := Attempts(job.prune, job.turns, job.verifier);
    PartOfSyncIsARun(before, s, job, i);
    Review.MovedEventIsRefused(before, Steps(attempts[..i]), w, moved);
    RefusedEventFailsSync(s, job, i, moved);
  }

  lemma {:induction false} ReviewStepsGood(steps: seq<Review.Step>, admissible: Time -> bool)
    requires AllGoodSteps(SyncStepsOf(steps), admissible)
    ensures Review.AllOk(steps) && Review.StartsIn(steps, admissible)
  {
    if steps == [] {
    } else {
      var n := |steps| - 1;
      var before := SyncStepsOf(steps[..n]);
      assert before <= SyncStepsOf(steps);
      assert forall i :: 0 <= i < |before| ==> before[i] == SyncStepsOf(steps)[i];
      ReviewStepsGood(steps[..n], admissible);
      if IsSyncStep(steps[n]) { assert steps[n] == SyncStepsOf(steps)[|before|]; }
    }
  }

  /** A run of the syncs so far, with any reviews among their steps. */
  ghost predicate RunOf(jobs: seq<Job>, steps: seq<Review.Step>) {
    (forall i :: 0 <= i < |jobs| ==> JobOk(jobs[i])) && SyncStepsOf(steps) <= Program(jobs)
  }

  lemma RunOfIsOk(jobs: seq<Job>, steps: seq<Review.Step>, admissible: Time -> bool)
    requires RunOf(jobs, steps) && JobsFindOnly(jobs, admissible)
    ensures Review.AllOk(steps) && Review.StartsIn(steps, admissible)
  {
    ProgramGood(jobs, admissible);
    ReviewStepsGood(steps, admissible);
  }

  /**
   However reviewers' loads and write-backs fall between the statements of the syncs, at
   every moment each approved candidate has its event.
   */
  lemma SyncsKeepPublished(jobs: seq<Job>, steps: seq<Review.Step>, url: string) returns (i: nat)
    requires RunOf(jobs, steps) && url in Review.Run(steps).db.candidates
    requires Review.Run(steps).db.candidates[url].status == Approved
    ensures var db := Review.Run(steps).db; i < |db.events| && Review.Carries(db.events[i], db.candidates[url])
  {
    RunOfIsOk(jobs, steps, t => true);
    i := Review.ApprovedIsPublished(steps, url);
  }

  /** And if the page checks find no start beyond year 9999, each candidate's evidence is in one piece. */
  lemma SyncsKeepEvidence(jobs: seq<Job>, steps: seq<Review.Step>, url: string, admissible: Time -> bool)
    requires RunOf(jobs, steps) && url in Review.Run(steps).db.candidates
    requires JobsFindOnly(jobs, admissible) && Review.AllAdmissibleStorable(admissible)
    ensures var row := Review.Run(steps).db.candidates[url];
            var evidence, found := CandidateRows.EvidenceOf(row), Review.Findings(steps);
            && (evidence.Empty() || evidence in found)
            && (row.verification == Model.Verified ==> evidence in found && evidence.Complete())
  {
    RunOfIsOk(jobs, steps, admissible);
    Review.AdmissibleIsStorable(steps, admissible);
    Review.RunKeepsEvidence(steps);
    Review.EvidenceIsOneFinding(steps, url);
  }
}
