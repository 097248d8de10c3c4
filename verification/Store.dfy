/**
 The SQLite store as the program uses it: an object whose tables change in place, one
 statement or transaction at a time, and the three review actions on it. Each method is
 proved against the transitions of module Review. Whether the database lets a statement
 through, and the clock readings taken inside a call, are inputs.
 */
module Store {
  import opened Text
  import opened Model
  import opened Timestamps
  import EventRows
  import opened Events
  import opened CandidateRows
  import opened Candidates
  import opened Review

  datatype HealthRow = HealthRow(enabled: bool, state: string, lastSuccess: Option<string>, lastError: string)

  type HealthTable = map<string, HealthRow>

  datatype LoadResult = Loaded(candidate: Candidate) | NotFound | Unreadable | LoadError

  /** The parts of a publish transaction that the database lets through. */
  datatype Tx = Tx(begins: bool, event: bool, update: bool, commits: bool) {
    predicate Works() {
      begins && event && update && commits
    }
  }

  datatype PublishResult = Stored | CandidateNotFound | DatabaseError

  class SQLiteStore {
    var candidates: Table
    var events: seq<EventRows.EventRow>
    var health: HealthTable

    constructor ()
      ensures Contents() == EMPTY.db && health == map[]
    {
      candidates, events, health := map[], [], map[];
    }

    ghost function Contents(): (db: Db)
      reads this
    {
      Db(candidates, events)
    }

    /** upsertEvent: fails when the statement does, or when SQLite refuses the row. */
    method UpsertEvent(w: Write, io: bool) returns (ok: bool)
      modifies this`events
      ensures ok <==> io && EventRows.Upsert(old(events), Encode(w)).Some?
      ensures events == if io then EventRows.Apply(old(events), Encode(w)) else old(events)
    {
      var row := Encode(w);
      if !io {
        return false;
      }
      var at := EventRows.FindFingerprint(events, row.fingerprint);
      if at >= 0 {
        events := events[at := EventRows.Merge(events[at], row)];
      } else if EventRows.UidTaken(events, row.uid) {
        return false;
      } else {
        events := events + [row];
      }
      ok := true;
    }

    method UpsertCandidate(c: Candidate, now: Time, io: bool) returns (ok: bool)
      modifies this`candidates
      ensures ok == io
      ensures candidates == if io then Upsert(old(candidates), EncodeCandidate(c, now)) else old(candidates)
    {
      var row := EncodeCandidate(c, now);
      if io {
        if row.url in candidates {
          candidates := candidates[row.url := CandidateRows.Merge(candidates[row.url], row)];
        } else {
          candidates := candidates[row.url := row];
        }
      }
      ok := io;
    }

    /** updateCandidate; a row that is not there counts as zero rows affected, not as an error. */
    method UpdateCandidate(c: Candidate, io: bool) returns (ok: bool, affected: nat)
      modifies this`candidates
      ensures ok == io && (affected > 0 <==> io && c.url in old(candidates))
      ensures candidates == if affected > 0 then Update(old(candidates), c).value else old(candidates)
    {
      ok, affected := io, 0;
      if io && c.url in candidates {
        candidates := candidates[c.url := Overwrite(candidates[c.url], c)];
        affected := 1;
      }
    }

    /** Both writes are kept or neither is; the error tells a vanished candidate from the rest. */
    method Publish(w: Write, c: Candidate, tx: Tx) returns (result: PublishResult)
      modifies this`candidates, this`events
      ensures result == Stored <==> tx.Works() && Review.Publish(old(Contents()), w, c).Some?
      ensures Contents() == if result == Stored then Review.Publish(old(Contents()), w, c).value else old(Contents())
      ensures result == CandidateNotFound
              <==> && tx.begins && tx.event && tx.update
                   && EventRows.Upsert(old(events), Encode(w)).Some? && c.url !in old(candidates)
    {
      if !tx.begins {
        return DatabaseError;
      }
      var saved := (candidates, events);
      result := WriteBoth(w, c, tx);
      if result != Stored {
        candidates, events := saved.0, saved.1;
      }
    }

    /** The body of the transaction; on an error the tables are left as they are, for the rollback. */
    method WriteBoth(w: Write, c: Candidate, tx: Tx) returns (result: PublishResult)
      modifies this`candidates, this`events
      ensures result == Stored
              <==> tx.event && tx.update && tx.commits && Review.Publish(old(Contents()), w, c).Some?
      ensures result == Stored ==> Contents() == Review.Publish(old(Contents()), w, c).value
      ensures result == CandidateNotFound
              <==> tx.event && tx.update && EventRows.Upsert(old(events), Encode(w)).Some? && c.url !in old(candidates)
    {
      var written := UpsertEvent(w, tx.event);
      if !written {
        return DatabaseError;
      }
      var updated, affected := UpdateCandidate(c, tx.update);
      if !updated {
        return DatabaseError;
      }
      if affected == 0 {
        return CandidateNotFound;
      }
      result := if tx.commits then Stored else DatabaseError;
    }

    method PruneCandidates(now: Time, io: bool) returns (ok: bool)
      modifies this`candidates
      ensures ok == io && candidates == if io then Prune(old(candidates), now) else old(candidates)
    {
      if io {
        candidates := map url | url in candidates && !Prunable(candidates[url], now) :: candidates[url];
      }
      ok := io;
    }

    method SaveSourceHealth(name: string, row: HealthRow, io: bool) returns (ok: bool)
      modifies this`health
      ensures ok == io && health == if io then old(health)[name := row] else old(health)
    {
      if io {
        health := health[name := row];
      }
      ok := io;
    }

    method Candidate(url: string, io: bool) returns (result: LoadResult)
      ensures result.Loaded? <==> io && url in candidates && Readable(candidates[url])
      ensures result.Loaded? ==> result.candidate == DecodeCandidate(candidates[url])
      ensures result.NotFound? <==> io && url !in candidates
      ensures result.LoadError? <==> !io
    {
      if !io {
        return LoadError;
      }
      if url !in candidates {
        return NotFound;
      }
      var row := candidates[url];
      if row.verifiedAt.Some? && ParseSecond(row.verifiedAt.value).None? {
        return Unreadable;
      }
      if row.reviewedAt.Some? && ParseSecond(row.reviewedAt.value).None? {
        return Unreadable;
      }
      result := Loaded(DecodeCandidate(row));
    }

    /** The answer to the query, row by row; SQLite's order of equal starts is open. */
    method UpcomingEvents(from: Time, answer: seq<EventRows.EventRow>) returns (result: seq<Event>)
      requires OrderedSelection(answer, events, StartsFrom(from))
      ensures result == DecodeAll(answer)
      ensures StartsInRange(events) && InRange(SecondOf(from)) ==> InOrder(result) && NoneBefore(result, from)
    {
      result := QueryEvents(answer);
      if StartsInRange(events) && InRange(SecondOf(from)) {
        SelectionIsChronological(answer, events, StartsFrom(from));
        DecodedInOrder(answer);
        UpcomingNotBefore(answer, events, from);
      }
    }

    method AllEvents(answer: seq<EventRows.EventRow>) returns (result: seq<Event>)
      requires OrderedSelection(answer, events, AnyRow())
      ensures result == DecodeAll(answer) && |result| == |events|
      ensures StartsInRange(events) ==> InOrder(result)
    {
      result := QueryEvents(answer);
      AllRowsSelected(events, answer);
      assert |multiset(answer)| == |multiset(events)|;
      if StartsInRange(events) {
        SelectionIsChronological(answer, events, AnyRow());
        DecodedInOrder(answer);
      }
    }
  }

  /** The loop over the rows of an answer, each scanned and appended. */
  method ScanRows<R, E>(answer: seq<R>, scan: R -> E) returns (result: seq<E>)
    ensures |result| == |answer| && forall i :: 0 <= i < |answer| ==> result[i] == scan(answer[i])
  {
    result := [];
    for i := 0 to |answer|
      invariant |result| == i && forall k :: 0 <= k < i ==> result[k] == scan(answer[k])
    {
      result := result + [scan(answer[i])];
    }
  }

  method QueryEvents(answer: seq<EventRows.EventRow>) returns (result: seq<Event>)
    ensures result == DecodeAll(answer)
  {
    result := ScanRows(answer, (row: EventRows.EventRow) => Decode(row));
    assert |result| == |DecodeAll(answer)|;
    assert forall i :: 0 <= i < |answer| ==> result[i] == DecodeAll(answer)[i];
  }

  ghost predicate InOrder(events: seq<Event>) {
    forall i, j :: 0 <= i < j < |events| ==> events[i].startsAt <= events[j].startsAt
  }

  ghost predicate NoneBefore(events: seq<Event>, from: Time) {
    forall i :: 0 <= i < |events| ==> SecondOf(events[i].startsAt) >= SecondOf(from)
  }

  lemma DecodedInOrder(rows: seq<EventRows.EventRow>)
    requires Chronological(rows)
    ensures InOrder(DecodeAll(rows))
  {
    var events := DecodeAll(rows);
    forall i, j | 0 <= i < j < |events| ensures events[i].startsAt <= events[j].startsAt {
      assert StartOf(rows[i]) <= StartOf(rows[j]);
    }
  }

  lemma UpcomingNotBefore(answer: seq<EventRows.EventRow>, rows: seq<EventRows.EventRow>, from: Time)
    requires OrderedSelection(answer, rows, StartsFrom(from)) && StartsInRange(rows) && InRange(SecondOf(from))
    ensures NoneBefore(DecodeAll(answer), from)
  {
    forall i | 0 <= i < |answer| ensures SecondOf(StartOf(answer[i])) >= SecondOf(from) {
      SelectedRow(answer, rows, StartsFrom(from), i);
      UpcomingCount(rows, from, answer, answer[i]);
      assert answer[i] in multiset(answer);
    }
  }

  // ---------- the review actions ----------

  datatype ReviewResult =
    | Accepted(candidate: Candidate)
    | LoadFailed(reason: LoadResult)
    | GateRefused(error: GateError)
    | WriteFailed(cause: PublishResult)

  /** A review that nothing comes in between. */
  function Undisturbed(db: Db, action: Action, now: Time, url: string, at: Time): Db {
    Next(Next(Sys(db, map[]), Load(0, action, now, url)), WriteBack(0, at)).db
  }

  lemma UndisturbedIsFinish(db: Db, action: Action, now: Time, url: string, at: Time)
    ensures Undisturbed(db, action, now, url, at)
            == if url in db.candidates && Readable(db.candidates[url])
               then OrSame(Finish(db, InFlight(action, now, DecodeCandidate(db.candidates[url])), at), db) else db
  {
    var s, load := Sys(db, map[]), Load(0, action, now, url);
    LoadNext(s, load);
    WriteBackNext(Next(s, load), WriteBack(0, at));
  }

  /** The second half of an approval, whatever has happened to the store since the load. */
  method ApproveLoaded(store: SQLiteStore, candidate: Candidate, now: Time, at: Time, tx: Tx)
    returns (result: ReviewResult)
    modifies store`candidates, store`events
    ensures var r := InFlight(Approve, now, candidate);
            && (result.Accepted? <==> tx.Works() && Finish(old(store.Contents()), r, at).Some?)
            && (result.Accepted? ==> result.candidate == Reviewed(r))
            && store.Contents()
               == if result.Accepted? then Finish(old(store.Contents()), r, at).value else old(store.Contents())
    ensures result.GateRefused? <==> Gate(candidate, now).Some?
    ensures result.GateRefused? ==> result.error == Gate(candidate, now).value
    ensures !result.LoadFailed?
    ensures result == WriteFailed(CandidateNotFound) ==> candidate.url !in old(store.candidates)
  {
    var refused := Gate(candidate, now);
    if refused.Some? {
      return GateRefused(refused.value);
    }
    var event := PublishedEvent(candidate);
    var approved := candidate.(status := Approved, reviewedAt := Some(now));
    var outcome := store.Publish(Write(event, at), approved, tx);
    if outcome != Stored {
      return WriteFailed(outcome);
    }
    result := Accepted(approved);
  }

  method ApproveCandidate(store: SQLiteStore, now: Time, url: string, at: Time, io: bool, tx: Tx)
    returns (result: ReviewResult)
    modifies store`candidates, store`events
    ensures io && tx.Works() ==> store.Contents() == Undisturbed(old(store.Contents()), Approve, now, url, at)
    ensures !result.Accepted? ==> store.Contents() == old(store.Contents())
    ensures result.Accepted?
            <==> && io && tx.Works() && url in old(store.candidates) && Readable(old(store.candidates)[url])
                 && var r := InFlight(Approve, now, DecodeCandidate(old(store.candidates)[url]));
                    Finish(old(store.Contents()), r, at).Some?
    ensures result == LoadFailed(NotFound) <==> io && url !in old(store.candidates)
  {
    var loaded := store.Candidate(url, io);
    UndisturbedIsFinish(store.Contents(), Approve, now, url, at);
    if !loaded.Loaded? {
      return LoadFailed(loaded);
    }
    result := ApproveLoaded(store, loaded.candidate, now, at, tx);
  }

  /** The second half of a rejection or a restore; a vanished row is not an error. */
  method UpdateLoaded(store: SQLiteStore, candidate: Candidate, action: Action, now: Time, ghost at: Time, io: bool)
    returns (result: ReviewResult)
    requires action != Approve
    modifies store`candidates
    ensures var r, before := InFlight(action, now, candidate), old(store.Contents());
            && store.Contents() == (if io then OrSame(Finish(before, r, at), before) else before)
            && result == if io then Accepted(Reviewed(r)) else WriteFailed(DatabaseError)
  {
    var status := if action == Reject then Rejected else Pending;
    var reviewed := candidate.(status := status, reviewedAt := Some(now));
    var ok, _ := store.UpdateCandidate(reviewed, io);
    if !ok {
      return WriteFailed(DatabaseError);
    }
    result := Accepted(reviewed);
  }

  method RejectCandidate(store: SQLiteStore, now: Time, url: string, ghost at: Time, io: bool, write: bool)
    returns (result: ReviewResult)
    modifies store`candidates
    ensures io && write ==> store.Contents() == Undisturbed(old(store.Contents()), Reject, now, url, at)
    ensures !result.Accepted? ==> store.Contents() == old(store.Contents())
    ensures result.Accepted? <==> io && write && url in old(store.candidates) && Readable(old(store.candidates)[url])
    ensures result.Accepted? ==> result.candidate.status == Rejected && result.candidate.reviewedAt == Some(now)
  {
    var loaded := store.Candidate(url, io);
    UndisturbedIsFinish(store.Contents(), Reject, now, url, at);
    if !loaded.Loaded? {
      return LoadFailed(loaded);
    }
    result := UpdateLoaded(store, loaded.candidate, Reject, now, at, write);
  }

  method RestoreCandidate(store: SQLiteStore, now: Time, url: string, ghost at: Time, io: bool, write: bool)
    returns (result: ReviewResult)
    modifies store`candidates
    ensures io && write ==> store.Contents() == Undisturbed(old(store.Contents()), Restore, now, url, at)
    ensures !result.Accepted? ==> store.Contents() == old(store.Contents())
    ensures result.Accepted? <==> io && write && url in old(store.candidates) && Readable(old(store.candidates)[url])
    ensures result.Accepted? ==> result.candidate.status == Pending && result.candidate.reviewedAt == Some(now)
  {
    var loaded := store.Candidate(url, io);
    UndisturbedIsFinish(store.Contents(), Restore, now, url, at);
    if !loaded.Loaded? {
      return LoadFailed(loaded);
    }
    result := UpdateLoaded(store, loaded.candidate, Restore, now, at, write);
  }
}
