/**
 Callbacks that run at the same time. A callback reads its login row in one statement, deletes
 it in another, has the provider redeem the code, and inserts the session row in a fourth
 step; steps of other requests may fall in between. The delete does not look at how many rows
 it removed, so two callbacks with one cookie may both get past it.
 */
module CallbackSteps {
  import opened Text
  import opened Model
  import opened Allowlists
  import opened Sessions
  import T = Timestamps

  /** A callback between two of its steps; `at` is the step in which the provider redeemed its code. */
  datatype Flight = Read(login: Row) | Deleted(login: Row) | Admitted(login: Row, claims: Claims, raw: string, at: nat)

  /** Where a session row came from. */
  datatype Origin = Origin(login: string, claims: Claims, at: nat)

  type Logins = map<string, Row>

  type Flights = map<nat, Flight>

  type Origins = map<string, Origin>

  datatype Sys = Sys(table: Table, flights: Flights, logins: Logins, sessions: Origins)

  datatype Step =
    | StartLogin(returnTo: string, minted: Minted, now: Time)
    | ReadRow(flight: nat, cookie: string, state: string, now: Time)
    | DeleteRow(flight: nat)
    | Exchange(flight: nat, answer: Answer)
    | InsertRow(flight: nat, minted: Minted, now: Time)
    | RemoveRow(id: string)
    | Drop(flight: nat)

  const EMPTY := Sys(map[], map[], map[], map[])

  /** The checks of a callback before it deletes its row. */
  predicate Passes(table: Table, cookie: string, state: string, now: Time) {
    && cookie in table && !Expired(table[cookie], now) && table[cookie].userSub == ""
    && state != "" && state == table[cookie].state
  }

  /** RemoveRow stands for a logout, a sweep, or a callback that deletes without going on. */
  function Next(cfg: Config, s: Sys, step: Step, at: nat): Sys {
    match step
    case StartLogin(returnTo, minted, now) =>
      var row := LoginRow(returnTo, minted, now);
      s.(table := s.table[row.id := row], logins := s.logins[row.id := row])
    case ReadRow(k, cookie, state, now) =>
      if k in s.flights || !Passes(s.table, cookie, state, now) then s
      else s.(flights := s.flights[k := Read(s.table[cookie])])
    case DeleteRow(k) =>
      if k in s.flights && s.flights[k].Read? then
        var login := s.flights[k].login;
        s.(table := Delete(s.table, login.id), flights := s.flights[k := Deleted(login)])
      else s
    case Exchange(k, answer) =>
      if k in s.flights && s.flights[k].Deleted? then
        match Judge(cfg, s.flights[k].login, answer)
        case Refuse(_) => s.(flights := s.flights - {k})
        case Admit(claims, raw) => s.(flights := s.flights[k := Admitted(s.flights[k].login, claims, raw, at)])
      else s
    case InsertRow(k, minted, now) =>
      if k in s.flights && s.flights[k].Admitted? then
        var f := s.flights[k];
        var row := SessionRow(f.login, f.claims, f.raw, minted, now);
        s.(table := s.table[row.id := row], flights := s.flights - {k},
           sessions := s.sessions[row.id := Origin(f.login.id, f.claims, f.at)])
      else s
    case RemoveRow(id) => s.(table := Delete(s.table, id))
    case Drop(k) => s.(flights := s.flights - {k})
  }

  function Run(cfg: Config, steps: seq<Step>): Sys {
    if steps == [] then EMPTY else Next(cfg, Run(cfg, steps[..|steps| - 1]), steps[|steps| - 1], |steps| - 1)
  }

  predicate NewId(s: Sys, id: string) {
    id !in s.table && id !in s.logins && id !in s.sessions
  }

  /** Random texts are never empty, and an id is never given out twice. */
  predicate StepOk(s: Sys, step: Step) {
    && (step.StartLogin? ==> NewId(s, step.minted.id) && step.minted.state != "" && step.minted.nonce != "")
    && (step.InsertRow? ==> NewId(s, step.minted.id))
  }

  predicate AllOk(cfg: Config, steps: seq<Step>) {
    if steps == [] then true
    else AllOk(cfg, steps[..|steps| - 1]) && StepOk(Run(cfg, steps[..|steps| - 1]), steps[|steps| - 1])
  }

  /** The provider answers step i with a token for a nonce. */
  predicate Redeems(steps: seq<Step>, i: nat, nonce: string) {
    i < |steps| && steps[i].Exchange? && steps[i].answer.Token? && steps[i].answer.nonce == nonce
  }

  /**
   No two answers of the provider carry the same nonce, unless it is a reusable one: of every
   other login it redeems the code once.
   */
  ghost predicate RedeemsOnceBut(steps: seq<Step>, reusable: string -> bool) {
    forall i: nat, j: nat, nonce :: !reusable(nonce) && Redeems(steps, i, nonce) && Redeems(steps, j, nonce) ==> i == j
  }

  ghost predicate SingleUse(s: Sys) {
    forall id, other :: id in s.sessions && other in s.sessions && s.sessions[id].login == s.sessions[other].login
                        ==> id == other
  }

  // ---------- the invariant ----------

  /** A row a callback holds is a login row, and past its own delete the table has it no more. */
  predicate FlightOk(cfg: Config, logins: Logins, table: Table, f: Flight, steps: seq<Step>) {
    && f.login.id in logins && logins[f.login.id] == f.login
    && (!f.Read? ==> f.login.id !in table)
    && (f.Admitted? ==> Redeems(steps, f.at, f.login.nonce)
                        && Permits(cfg.allow, f.claims.sub, f.claims.email, f.claims.emailVerified))
  }

  predicate OriginOk(cfg: Config, logins: Logins, table: Table, o: Origin, steps: seq<Step>) {
    && o.login in logins && o.login !in table && Redeems(steps, o.at, logins[o.login].nonce)
    && Permits(cfg.allow, o.claims.sub, o.claims.email, o.claims.emailVerified)
  }

  /** Rows of the table: login rows as created, session rows with an empty state. */
  ghost predicate RowsOk(table: Table, logins: Logins) {
    && (forall id :: id in table ==> table[id].id == id)
    && (forall id :: id in table ==> if id in logins then table[id] == logins[id] else table[id].state == "")
    && (forall id :: id in logins ==> logins[id].id == id && logins[id].nonce != "")
  }

  ghost predicate FlightsOk(cfg: Config, logins: Logins, table: Table, flights: Flights, steps: seq<Step>) {
    forall k :: k in flights ==> FlightOk(cfg, logins, table, flights[k], steps)
  }

  ghost predicate OriginsOk(cfg: Config, logins: Logins, table: Table, sessions: Origins, steps: seq<Step>) {
    forall id :: id in sessions ==> OriginOk(cfg, logins, table, sessions[id], steps)
  }

  /** Every redeemed code is used for one flight or one session. */
  ghost predicate UsesDiffer(flights: Flights, sessions: Origins) {
    && (forall k, l :: k in flights && l in flights && k != l && flights[k].Admitted? && flights[l].Admitted?
                       ==> flights[k].at != flights[l].at)
    && (forall k, id :: k in flights && flights[k].Admitted? && id in sessions ==> flights[k].at != sessions[id].at)
    && (forall id, other :: id in sessions && other in sessions && id != other ==>
          sessions[id].at != sessions[other].at)
  }

  ghost predicate Ok(cfg: Config, s: Sys, steps: seq<Step>) {
    && RowsOk(s.table, s.logins) && FlightsOk(cfg, s.logins, s.table, s.flights, steps)
    && OriginsOk(cfg, s.logins, s.table, s.sessions, steps) && UsesDiffer(s.flights, s.sessions)
  }

  /** One more login row, or one more session row, leaves what flights and sessions rest on. */
  predicate Grows(logins: Logins, more: Logins, table: Table, row: Row) {
    && row.id !in logins && row.id !in table
    && (forall id :: id in logins ==> id in more && more[id] == logins[id])
  }

  lemma FlightsGrow(cfg: Config, logins: Logins, more: Logins, table: Table, row: Row, flights: Flights,
      steps: seq<Step>)
    requires FlightsOk(cfg, logins, table, flights, steps) && Grows(logins, more, table, row)
    ensures FlightsOk(cfg, more, table[row.id := row], flights, steps)
  {
    forall k | k in flights ensures FlightOk(cfg, more, table[row.id := row], flights[k], steps) {
      assert FlightOk(cfg, logins, table, flights[k], steps);
    }
  }

  lemma OriginsGrow(cfg: Config, logins: Logins, more: Logins, table: Table, row: Row, sessions: Origins,
      steps: seq<Step>)
    requires OriginsOk(cfg, logins, table, sessions, steps) && Grows(logins, more, table, row)
    ensures OriginsOk(cfg, more, table[row.id := row], sessions, steps)
  {
    forall id | id in sessions ensures OriginOk(cfg, more, table[row.id := row], sessions[id], steps) {
      assert OriginOk(cfg, logins, table, sessions[id], steps);
    }
  }

  lemma StartKeepsOk(cfg: Config, s: Sys, steps: seq<Step>, row: Row)
    requires Ok(cfg, s, steps) && NewId(s, row.id) && row.nonce != ""
    ensures Ok(cfg, s.(table := s.table[row.id := row], logins := s.logins[row.id := row]), steps)
  {
    var more := s.logins[row.id := row];
    FlightsGrow(cfg, s.logins, more, s.table, row, s.flights, steps);
    OriginsGrow(cfg, s.logins, more, s.table, row, s.sessions, steps);
  }

  lemma FlightAdded(cfg: Config, s: Sys, steps: seq<Step>, k: nat, f: Flight)
    requires Ok(cfg, s, steps) && FlightOk(cfg, s.logins, s.table, f, steps)
    requires f.Admitted? ==> forall l :: l in s.flights && s.flights[l].Admitted? ==> s.flights[l].at != f.at
    requires f.Admitted? ==> forall id :: id in s.sessions ==> s.sessions[id].at != f.at
    ensures Ok(cfg, s.(flights := s.flights[k := f]), steps)
  {
    var flights := s.flights[k := f];
    forall l | l in flights ensures FlightOk(cfg, s.logins, s.table, flights[l], steps) {
      if l != k { assert FlightOk(cfg, s.logins, s.table, s.flights[l], steps); }
    }
  }

  /** A row that a callback may hold is a login row: session rows have an empty state. */
  lemma ReadKeepsOk(cfg: Config, s: Sys, steps: seq<Step>, step: Step)
    requires Ok(cfg, s, steps) && step.ReadRow?
    ensures Ok(cfg, Next(cfg, s, step, |steps|), steps)
  {
    if step.flight !in s.flights && Passes(s.table, step.cookie, step.state, step.now) {
      FlightAdded(cfg, s, steps, step.flight, Read(s.table[step.cookie]));
    }
  }

  lemma ShrinkKeepsOk(cfg: Config, s: Sys, steps: seq<Step>, id: string)
    requires Ok(cfg, s, steps)
    ensures Ok(cfg, s.(table := Delete(s.table, id)), steps)
  {
    var table := Delete(s.table, id);
    forall k | k in s.flights ensures FlightOk(cfg, s.logins, table, s.flights[k], steps) {
      assert FlightOk(cfg, s.logins, s.table, s.flights[k], steps);
    }
    forall i | i in s.sessions ensures OriginOk(cfg, s.logins, table, s.sessions[i], steps) {
      assert OriginOk(cfg, s.logins, s.table, s.sessions[i], steps);
    }
  }

  lemma DeleteKeepsOk(cfg: Config, s: Sys, steps: seq<Step>, step: Step)
    requires Ok(cfg, s, steps) && step.DeleteRow?
    ensures Ok(cfg, Next(cfg, s, step, |steps|), steps)
  {
    if step.flight in s.flights && s.flights[step.flight].Read? {
      var login := s.flights[step.flight].login;
      assert FlightOk(cfg, s.logins, s.table, s.flights[step.flight], steps);
      ShrinkKeepsOk(cfg, s, steps, login.id);
      FlightAdded(cfg, s.(table := Delete(s.table, login.id)), steps, step.flight, Deleted(login));
    }
  }

  lemma AdmitMeans(cfg: Config, login: Row, answer: Answer)
    requires Judge(cfg, login, answer).Admit?
    ensures answer.Token? && answer.nonce == login.nonce
    ensures var c := Judge(cfg, login, answer).claims; Permits(cfg.allow, c.sub, c.email, c.emailVerified)
  {
  }

  lemma RedeemsSnoc(steps: seq<Step>, step: Step)
    ensures forall i: nat, nonce :: Redeems(steps, i, nonce) ==> Redeems(steps + [step], i, nonce)
  {
  }

  /** With one more step recorded, what holds of the earlier ones still does. */
  lemma LongerKeepsOk(cfg: Config, s: Sys, steps: seq<Step>, step: Step)
    requires Ok(cfg, s, steps)
    ensures Ok(cfg, s, steps + [step])
    ensures forall k :: k in s.flights && s.flights[k].Admitted? ==> s.flights[k].at < |steps|
    ensures forall id :: id in s.sessions ==> s.sessions[id].at < |steps|
  {
    RedeemsSnoc(steps, step);
    forall k | k in s.flights ensures FlightOk(cfg, s.logins, s.table, s.flights[k], steps + [step]) {
      assert FlightOk(cfg, s.logins, s.table, s.flights[k], steps);
    }
    forall id | id in s.sessions ensures OriginOk(cfg, s.logins, s.table, s.sessions[id], steps + [step]) {
      assert OriginOk(cfg, s.logins, s.table, s.sessions[id], steps);
    }
  }

  lemma ExchangeKeepsOk(cfg: Config, s: Sys, steps: seq<Step>, step: Step)
    requires Ok(cfg, s, steps) && step.Exchange?
    ensures Ok(cfg, Next(cfg, s, step, |steps|), steps + [step])
  {
    LongerKeepsOk(cfg, s, steps, step);
    if step.flight in s.flights && s.flights[step.flight].Deleted? {
      var login := s.flights[step.flight].login;
      assert FlightOk(cfg, s.logins, s.table, s.flights[step.flight], steps);
      var verdict := Judge(cfg, login, step.answer);
      if verdict.Admit? {
        AdmitMeans(cfg, login, step.answer);
        assert Redeems(steps + [step], |steps|, login.nonce);
        FlightAdded(cfg, s, steps + [step], step.flight, Admitted(login, verdict.claims, verdict.raw, |steps|));
      } else {
        FewerFlights(cfg, s, steps + [step], step.flight);
      }
    }
  }

  lemma FewerFlights(cfg: Config, s: Sys, steps: seq<Step>, k: nat)
    requires Ok(cfg, s, steps)
    ensures Ok(cfg, s.(flights := s.flights - {k}), steps)
  {
    var flights := s.flights - {k};
    forall l | l in flights ensures FlightOk(cfg, s.logins, s.table, flights[l], steps) {
      assert FlightOk(cfg, s.logins, s.table, s.flights[l], steps);
    }
  }

  /** A new session row of a step that no flight and no other session has. */
  lemma SessionKeepsOk(cfg: Config, s: Sys, steps: seq<Step>, row: Row, o: Origin)
    requires Ok(cfg, s, steps) && NewId(s, row.id) && row.state == "" && OriginOk(cfg, s.logins, s.table, o, steps)
    requires forall k :: k in s.flights && s.flights[k].Admitted? ==> s.flights[k].at != o.at
    requires forall id :: id in s.sessions ==> s.sessions[id].at != o.at
    ensures Ok(cfg, s.(table := s.table[row.id := row], sessions := s.sessions[row.id := o]), steps)
  {
    FlightsGrow(cfg, s.logins, s.logins, s.table, row, s.flights, steps);
    OriginsGrow(cfg, s.logins, s.logins, s.table, row, s.sessions, steps);
    OriginAdded(cfg, s.logins, s.table[row.id := row], s.sessions, row.id, o, steps);
    UseAdded(s.flights, s.sessions, row.id, o);
  }

  lemma OriginAdded(cfg: Config, logins: Logins, table: Table, sessions: Origins, id: string, o: Origin,
      steps: seq<Step>)
    requires OriginsOk(cfg, logins, table, sessions, steps) && OriginOk(cfg, logins, table, o, steps)
    ensures OriginsOk(cfg, logins, table, sessions[id := o], steps)
  {
    var more := sessions[id := o];
    forall other | other in more ensures OriginOk(cfg, logins, table, more[other], steps) {
      if other != id { assert OriginOk(cfg, logins, table, sessions[other], steps); }
    }
  }

  lemma UseAdded(flights: Flights, sessions: Origins, id: string, o: Origin)
    requires UsesDiffer(flights, sessions) && id !in sessions
    requires forall k :: k in flights && flights[k].Admitted? ==> flights[k].at != o.at
    requires forall other :: other in sessions ==> sessions[other].at != o.at
    ensures UsesDiffer(flights, sessions[id := o])
  {
  }

  lemma InsertKeepsOk(cfg: Config, s: Sys, steps: seq<Step>, step: Step)
    requires Ok(cfg, s, steps) && StepOk(s, step) && step.InsertRow?
    ensures Ok(cfg, Next(cfg, s, step, |steps|), steps)
  {
    var k := step.flight;
    if k in s.flights && s.flights[k].Admitted? {
      var f := s.flights[k];
      assert FlightOk(cfg, s.logins, s.table, f, steps);
      FewerFlights(cfg, s, steps, k);
      var row := SessionRow(f.login, f.claims, f.raw, step.minted, step.now);
      SessionKeepsOk(cfg, s.(flights := s.flights - {k}), steps, row, Origin(f.login.id, f.claims, f.at));
    }
  }

  lemma NextKeepsOk(cfg: Config, s: Sys, steps: seq<Step>, step: Step)
    requires Ok(cfg, s, steps) && StepOk(s, step)
    ensures Ok(cfg, Next(cfg, s, step, |steps|), steps + [step])
  {
    if step.Exchange? {
      ExchangeKeepsOk(cfg, s, steps, step);
    } else {
      OtherKeepsOk(cfg, s, steps, step);
      LongerKeepsOk(cfg, Next(cfg, s, step, |steps|), steps, step);
    }
  }

  lemma OtherKeepsOk(cfg: Config, s: Sys, steps: seq<Step>, step: Step)
    requires Ok(cfg, s, steps) && StepOk(s, step) && !step.Exchange?
    ensures Ok(cfg, Next(cfg, s, step, |steps|), steps)
  {
    match step
    case StartLogin(returnTo, minted, now) => StartKeepsOk(cfg, s, steps, LoginRow(returnTo, minted, now));
    case ReadRow(_, _, _, _) => ReadKeepsOk(cfg, s, steps, step);
    case DeleteRow(_) => DeleteKeepsOk(cfg, s, steps, step);
    case InsertRow(_, _, _) => InsertKeepsOk(cfg, s, steps, step);
    case RemoveRow(id) => ShrinkKeepsOk(cfg, s, steps, id);
    case Drop(k) => FewerFlights(cfg, s, steps, k);
  }

  ghost predicate RunOk(cfg: Config, steps: seq<Step>) {
    Ok(cfg, Run(cfg, steps), steps)
  }

  lemma EmptyOk(cfg: Config)
    ensures RunOk(cfg, [])
  {
  }

  lemma RunOkSnoc(cfg: Config, steps: seq<Step>, step: Step)
    requires RunOk(cfg, steps) && StepOk(Run(cfg, steps), step)
    ensures RunOk(cfg, steps + [step])
  {
    NextKeepsOk(cfg, Run(cfg, steps), steps, step);
    RunSnoc(cfg, steps, step);
  }

  lemma {:induction false} RunKeepsOk(cfg: Config, steps: seq<Step>)
    requires AllOk(cfg, steps)
    ensures RunOk(cfg, steps)
  {
    if steps == [] {
      EmptyOk(cfg);
    } else {
      var before, step := steps[..|steps| - 1], steps[|steps| - 1];
      RunKeepsOk(cfg, before);
      RunOkSnoc(cfg, before, step);
      assert steps == before + [step];
    }
  }

  /**
   However callbacks overlap, a session row comes from a login row that was created, is gone,
   and for whose nonce the provider issued a token to somebody permitted.
   */
  lemma SessionIsEarned(cfg: Config, steps: seq<Step>, id: string)
    requires AllOk(cfg, steps) && id in Run(cfg, steps).sessions
    ensures var s := Run(cfg, steps);
            var o := s.sessions[id];
            && o.login in s.logins && o.login !in s.table && Redeems(steps, o.at, s.logins[o.login].nonce)
            && Permits(cfg.allow, o.claims.sub, o.claims.email, o.claims.emailVerified)
  {
    RunKeepsOk(cfg, steps);
    var s := Run(cfg, steps);
    assert OriginOk(cfg, s.logins, s.table, s.sessions[id], steps);
  }

  /** No nonce that a login can have is reusable. */
  ghost predicate NoneReusable(reusable: string -> bool) {
    forall nonce :: nonce != "" ==> !reusable(nonce)
  }

  lemma OnceMeansSingleUse(cfg: Config, steps: seq<Step>, reusable: string -> bool)
    requires AllOk(cfg, steps) && NoneReusable(reusable) && RedeemsOnceBut(steps, reusable)
    ensures SingleUse(Run(cfg, steps))
  {
    var s := Run(cfg, steps);
    RunKeepsOk(cfg, steps);
    forall id, other | id in s.sessions && other in s.sessions && s.sessions[id].login == s.sessions[other].login
      ensures id == other
    {
      assert OriginOk(cfg, s.logins, s.table, s.sessions[id], steps);
      assert OriginOk(cfg, s.logins, s.table, s.sessions[other], steps);
      assert s.logins[s.sessions[id].login].nonce != "";
    }
  }

  // ---------- and exactly then ----------

  function Named(id: string, nonce: string): Minted {
    Minted(id, "state", nonce, "", "")
  }

  /** Two callbacks with one cookie, step by step side by side, and a provider that answers both. */
  function Twice(c: Claims, nonce: string, now: Time): seq<Step> {
    var answer := Token(nonce, Some(c), "raw");
    [StartLogin("", Named("login", nonce), now),
     ReadRow(0, "login", "state", now), ReadRow(1, "login", "state", now), DeleteRow(0), DeleteRow(1),
     Exchange(0, answer), Exchange(1, answer),
     InsertRow(0, Named("first", nonce), now), InsertRow(1, Named("second", nonce), now)]
  }

  lemma RunSnoc(cfg: Config, steps: seq<Step>, step: Step)
    ensures Run(cfg, steps + [step]) == Next(cfg, Run(cfg, steps), step, |steps|)
    ensures AllOk(cfg, steps + [step]) <==> AllOk(cfg, steps) && StepOk(Run(cfg, steps), step)
  {
    assert (steps + [step])[..|steps|] == steps;
  }

  /** The run up to step i is in the given state. */
  ghost predicate Reaches(cfg: Config, steps: seq<Step>, i: nat, s: Sys) {
    i <= |steps| && AllOk(cfg, steps[..i]) && Run(cfg, steps[..i]) == s
  }

  lemma ReachesNext(cfg: Config, steps: seq<Step>, i: nat, s: Sys, next: Sys)
    requires i < |steps| && Reaches(cfg, steps, i, s) && StepOk(s, steps[i]) && Next(cfg, s, steps[i], i) == next
    ensures Reaches(cfg, steps, i + 1, next)
  {
    assert steps[..i + 1] == steps[..i] + [steps[i]];
    RunSnoc(cfg, steps[..i], steps[i]);
  }

  function Began(row: Row): map<string, Row> {
    map["login" := row]
  }

  /** A login row just created: its own state lets a callback pass, and a token with its nonce is admitted. */
  predicate NewLogin(cfg: Config, c: Claims, row: Row, nonce: string, now: Time) {
    && row.id == "login" && row.state == "state" && row.nonce == nonce && row.userSub == "" && !Expired(row, now)
    && Judge(cfg, row, Token(nonce, Some(c), "raw")) == Admit(c, "raw")
  }

  lemma LoginIsNew(cfg: Config, c: Claims, nonce: string, now: Time)
    requires nonce != "" && Permits(cfg.allow, c.sub, c.email, c.emailVerified)
    ensures NewLogin(cfg, c, LoginRow("", Named("login", nonce), now), nonce, now)
  {
  }

  function Pair(first: Flight, second: Flight): Flights {
    map[0 := first, 1 := second]
  }

  /** Both callbacks hold the row. */
  lemma BothRead(cfg: Config, c: Claims, nonce: string, now: Time, row: Row)
    requires nonce != "" && row == LoginRow("", Named("login", nonce), now) && NewLogin(cfg, c, row, nonce, now)
    ensures Reaches(cfg, Twice(c, nonce, now), 3, Sys(Began(row), Pair(Read(row), Read(row)), Began(row), map[]))
  {
    var t, table := Twice(c, nonce, now), Began(row);
    assert t[..0] == [];
    ReachesNext(cfg, t, 0, EMPTY, Sys(table, map[], table, map[]));
    ReachesNext(cfg, t, 1, Sys(table, map[], table, map[]), Sys(table, map[0 := Read(row)], table, map[]));
    ReachesNext(cfg, t, 2, Sys(table, map[0 := Read(row)], table, map[]),
                Sys(table, Pair(Read(row), Read(row)), table, map[]));
  }

  lemma PairUpdates(first: Flight, second: Flight, f: Flight)
    ensures Pair(first, second)[0 := f] == Pair(f, second) && Pair(first, second)[1 := f] == Pair(first, f)
  {
  }

  lemma DeletedNext(cfg: Config, s: Sys, k: nat, row: Row, at: nat)
    requires k in s.flights && s.flights[k] == Read(row)
    ensures Next(cfg, s, DeleteRow(k), at)
            == s.(table := Delete(s.table, row.id), flights := s.flights[k := Deleted(row)])
  {
  }

  lemma FirstDelete(cfg: Config, c: Claims, nonce: string, now: Time, row: Row)
    requires row.id == "login"
    requires Reaches(cfg, Twice(c, nonce, now), 3, Sys(Began(row), Pair(Read(row), Read(row)), Began(row), map[]))
    ensures Reaches(cfg, Twice(c, nonce, now), 4, Sys(map[], Pair(Deleted(row), Read(row)), Began(row), map[]))
  {
    var s := Sys(Began(row), Pair(Read(row), Read(row)), Began(row), map[]);
    PairUpdates(Read(row), Read(row), Deleted(row));
    DeletedNext(cfg, s, 0, row, 3);
    assert Delete(Began(row), "login") == map[];
    ReachesNext(cfg, Twice(c, nonce, now), 3, s, Sys(map[], Pair(Deleted(row), Read(row)), Began(row), map[]));
  }

  /** Both have deleted it. */
  lemma BothDelete(cfg: Config, c: Claims, nonce: string, now: Time, row: Row)
    requires Reaches(cfg, Twice(c, nonce, now), 4, Sys(map[], Pair(Deleted(row), Read(row)), Began(row), map[]))
    ensures Reaches(cfg, Twice(c, nonce, now), 5, Sys(map[], Pair(Deleted(row), Deleted(row)), Began(row), map[]))
  {
    var s := Sys(map[], Pair(Deleted(row), Read(row)), Began(row), map[]);
    PairUpdates(Deleted(row), Read(row), Deleted(row));
    DeletedNext(cfg, s, 1, row, 4);
    assert Delete(s.table, row.id) == map[];
    ReachesNext(cfg, Twice(c, nonce, now), 4, s, Sys(map[], Pair(Deleted(row), Deleted(row)), Began(row), map[]));
  }

  function AdmittedBoth(row: Row, c: Claims): Sys {
    Sys(map[], Pair(Admitted(row, c, "raw", 5), Admitted(row, c, "raw", 6)), Began(row), map[])
  }

  lemma AdmittedNext(cfg: Config, s: Sys, k: nat, row: Row, c: Claims, nonce: string, at: nat)
    requires k in s.flights && s.flights[k] == Deleted(row)
    requires Judge(cfg, row, Token(nonce, Some(c), "raw")) == Admit(c, "raw")
    ensures Next(cfg, s, Exchange(k, Token(nonce, Some(c), "raw")), at)
            == s.(flights := s.flights[k := Admitted(row, c, "raw", at)])
  {
  }

  /** Both have been admitted. */
  lemma BothAdmitted(cfg: Config, c: Claims, nonce: string, now: Time, row: Row)
    requires Judge(cfg, row, Token(nonce, Some(c), "raw")) == Admit(c, "raw")
    requires Reaches(cfg, Twice(c, nonce, now), 5, Sys(map[], Pair(Deleted(row), Deleted(row)), Began(row), map[]))
    ensures Reaches(cfg, Twice(c, nonce, now), 7, AdmittedBoth(row, c))
  {
    var t := Twice(c, nonce, now);
    var none := Sys(map[], Pair(Deleted(row), Deleted(row)), Began(row), map[]);
    var one := Sys(map[], Pair(Admitted(row, c, "raw", 5), Deleted(row)), Began(row), map[]);
    PairUpdates(Deleted(row), Deleted(row), Admitted(row, c, "raw", 5));
    PairUpdates(Admitted(row, c, "raw", 5), Deleted(row), Admitted(row, c, "raw", 6));
    AdmittedNext(cfg, none, 0, row, c, nonce, 5);
    ReachesNext(cfg, t, 5, none, one);
    AdmittedNext(cfg, one, 1, row, c, nonce, 6);
    ReachesNext(cfg, t, 6, one, AdmittedBoth(row, c));
  }

  lemma NamesDiffer()
    ensures "login" != "first" && "login" != "second" && "first" != "second"
  {
    assert "login"[0] == 'l' && "first"[0] == 'f' && "second"[0] == 's';
  }

  lemma InsertedNext(cfg: Config, s: Sys, k: nat, minted: Minted, now: Time, at: nat)
    requires k in s.flights && s.flights[k].Admitted?
    ensures var next, f := Next(cfg, s, InsertRow(k, minted, now), at), s.flights[k];
            && next.flights == s.flights - {k} && next.logins == s.logins
            && next.table.Keys == s.table.Keys + {minted.id}
            && next.sessions == s.sessions[minted.id := Origin(f.login.id, f.claims, f.at)]
  {
  }

  lemma BothInsert(cfg: Config, c: Claims, nonce: string, now: Time, row: Row)
    requires Reaches(cfg, Twice(c, nonce, now), 7, AdmittedBoth(row, c))
    ensures AllOk(cfg, Twice(c, nonce, now)) && !SingleUse(Run(cfg, Twice(c, nonce, now)))
  {
    var t, s := Twice(c, nonce, now), AdmittedBoth(row, c);
    NamesDiffer();
    var one := Next(cfg, s, t[7], 7);
    InsertedNext(cfg, s, 0, Named("first", nonce), now, 7);
    ReachesNext(cfg, t, 7, s, one);
    var both := Next(cfg, one, t[8], 8);
    InsertedNext(cfg, one, 1, Named("second", nonce), now, 8);
    ReachesNext(cfg, t, 8, one, both);
    assert t[..9] == t;
    assert both.sessions["first"].login == both.sessions["second"].login;
  }

  /** A provider that redeems one nonce twice lets two sessions come from one login. */
  lemma ReuseBreaks(cfg: Config, c: Claims, nonce: string, now: Time)
    requires nonce != "" && Permits(cfg.allow, c.sub, c.email, c.emailVerified)
    ensures AllOk(cfg, Twice(c, nonce, now)) && !SingleUse(Run(cfg, Twice(c, nonce, now)))
  {
    var row := LoginRow("", Named("login", nonce), now);
    LoginIsNew(cfg, c, nonce, now);
    BothRead(cfg, c, nonce, now, row);
    FirstDelete(cfg, c, nonce, now, row);
    BothDelete(cfg, c, nonce, now, row);
    BothAdmitted(cfg, c, nonce, now, row);
    BothInsert(cfg, c, nonce, now, row);
  }

  lemma OnlyOneRedeemed(c: Claims, nonce: string, now: Time, reusable: string -> bool)
    requires reusable(nonce)
    ensures RedeemsOnceBut(Twice(c, nonce, now), reusable)
  {
  }

  /**
   A login yields at most one session in every overlapping of callbacks if and only if there
   is no login whose code the provider may redeem twice; section 4.1.2 of RFC 6749 asks that
   of it. The codes it may redeem twice are given by the nonces of their logins.
   */
  lemma SingleUseExactly(cfg: Config, c: Claims, reusable: string -> bool)
    requires Permits(cfg.allow, c.sub, c.email, c.emailVerified)
    ensures NoneReusable(reusable)
            <==> forall steps :: AllOk(cfg, steps) && RedeemsOnceBut(steps, reusable) ==> SingleUse(Run(cfg, steps))
  {
    if NoneReusable(reusable) {
      forall steps | AllOk(cfg, steps) && RedeemsOnceBut(steps, reusable) ensures SingleUse(Run(cfg, steps)) {
        OnceMeansSingleUse(cfg, steps, reusable);
      }
    } else {
      var nonce :| nonce != "" && reusable(nonce);
      var now := T.EPOCH * T.NANOS;
      OnlyOneRedeemed(c, nonce, now, reusable);
      ReuseBreaks(cfg, c, nonce, now);
    }
  }

  // ---------- one callback at a time ----------

  /** The four steps of one callback, with nothing in between. */
  function Alone(cfg: Config, s: Sys, k: nat, a: Arrival, at: nat): Sys
    requires a.request.Callback? && a.request.cookie.Some?
  {
    var r := a.request;
    var read := Next(cfg, s, ReadRow(k, r.cookie.value, r.state, a.clock.check), at);
    var deleted := Next(cfg, read, DeleteRow(k), at + 1);
    var exchanged := Next(cfg, deleted, Exchange(k, r.answer), at + 2);
    Next(cfg, exchanged, InsertRow(k, r.minted, a.clock.create), at + 3)
  }

  /** No statement fails, and neither the provider nor the clock ends the login. */
  predicate Undisturbed(cfg: Config, s: Sys, k: nat, a: Arrival) {
    && cfg.Enabled() && KeyedById(s.table) && k !in s.flights && a.io.get && a.io.delete && a.io.insert
    && a.request.Callback? && a.request.cookie.Some? && a.request.error == "" && a.request.minted.id !in s.table
    && (a.request.cookie.value in s.table ==> !Expired(s.table[a.request.cookie.value], a.clock.check))
  }

  lemma AloneRefused(cfg: Config, s: Sys, k: nat, a: Arrival, at: nat)
    requires Undisturbed(cfg, s, k, a)
    requires !Passes(s.table, a.request.cookie.value, a.request.state, a.clock.check)
    ensures Alone(cfg, s, k, a, at) == s
  {
  }

  lemma FlightUpdates(flights: Flights, k: nat, f: Flight, g: Flight)
    requires k !in flights
    ensures var one: Flights := flights[k := f];
            var two: Flights := one[k := g];
            two == flights[k := g] && one - {k} == flights && two - {k} == flights
  {
  }

  lemma AlonePasses(cfg: Config, s: Sys, k: nat, a: Arrival, at: nat)
    requires Undisturbed(cfg, s, k, a)
    requires Passes(s.table, a.request.cookie.value, a.request.state, a.clock.check)
    ensures var login := s.table[a.request.cookie.value];
            Alone(cfg, s, k, a, at)
            == match Judge(cfg, login, a.request.answer)
               case Refuse(_) => s.(table := Delete(s.table, login.id))
               case Admit(claims, raw) =>
                 var row := SessionRow(login, claims, raw, a.request.minted, a.clock.create);
                 s.(table := Delete(s.table, login.id)[row.id := row],
                    sessions := s.sessions[row.id := Origin(login.id, claims, at + 2)])
  {
    var login := s.table[a.request.cookie.value];
    var f, r := s.flights, a.request;
    FlightUpdates(f, k, Read(login), Deleted(login));
    var verdict := Judge(cfg, login, r.answer);
    if verdict.Admit? {
      var last := Admitted(login, verdict.claims, verdict.raw, at + 2);
      FlightUpdates(f, k, Deleted(login), last);
    }
  }

  /** With nothing in between, the steps do what the handler does, and grant a session exactly when it redirects. */
  lemma AloneIsTheHandler(cfg: Config, s: Sys, k: nat, a: Arrival, at: nat)
    requires Undisturbed(cfg, s, k, a)
    ensures var (table, response) := HandleCallback(cfg, s.table, a, false);
            var after := Alone(cfg, s, k, a, at);
            && after.table == table && after.flights == s.flights && after.logins == s.logins
            && (response.status == 302 ==> after.sessions.Keys == s.sessions.Keys + {a.request.minted.id})
            && (response.status != 302 ==> after.sessions == s.sessions)
  {
    if Passes(s.table, a.request.cookie.value, a.request.state, a.clock.check) {
      AlonePasses(cfg, s, k, a, at);
    } else {
      AloneRefused(cfg, s, k, a, at);
    }
  }

  /** An expired login row is not read; the handler deletes it, which is a step of its own. */
  lemma ExpiredStops(cfg: Config, s: Sys, k: nat, a: Arrival, at: nat)
    requires cfg.Enabled() && KeyedById(s.table) && k !in s.flights && a.io.get && a.io.delete
    requires a.request.Callback? && a.request.cookie.Some? && a.request.cookie.value in s.table
    requires Expired(s.table[a.request.cookie.value], a.clock.check)
    ensures Alone(cfg, s, k, a, at) == s
    ensures Next(cfg, s, RemoveRow(a.request.cookie.value), at).table == HandleCallback(cfg, s.table, a, false).0
  {
  }

  /** It is the step's turn: a read begins a callback, and delete, exchange and insert follow in this order. */
  predicate Due(flights: Flights, step: Step) {
    && (step.ReadRow? ==> step.flight !in flights)
    && (step.DeleteRow? ==> step.flight in flights && flights[step.flight].Read?)
    && (step.Exchange? ==> step.flight in flights && flights[step.flight].Deleted?)
    && (step.InsertRow? ==> step.flight in flights && flights[step.flight].Admitted?)
  }

  /** A step that is not due does nothing. */
  lemma OutOfOrder(cfg: Config, s: Sys, step: Step, at: nat)
    requires !Due(s.flights, step)
    ensures Next(cfg, s, step, at) == s
  {
  }

  /** The flight that a step belongs to. */
  function FlightOf(step: Step): Option<nat> {
    match step
    case ReadRow(k, _, _, _) => Some(k)
    case DeleteRow(k) => Some(k)
    case Exchange(k, _) => Some(k)
    case InsertRow(k, _, _) => Some(k)
    case Drop(k) => Some(k)
    case _ => None
  }

  /** A step leaves the other callbacks where they are; a removed row is gone, with all other rows in place. */
  lemma OthersStay(cfg: Config, s: Sys, step: Step, at: nat, other: nat)
    requires other in s.flights && FlightOf(step) != Some(other)
    ensures var after := Next(cfg, s, step, at);
            && other in after.flights && after.flights[other] == s.flights[other]
            && (step.RemoveRow? ==> after == s.(table := s.table - {step.id}))
            && (step.Drop? ==> after == s.(flights := after.flights) && step.flight !in after.flights)
  {
  }

  /** And the step that starts a login does what the login handler does. */
  lemma StartIsTheHandler(cfg: Config, s: Sys, a: Arrival, at: nat)
    requires cfg.Enabled() && a.request.Login? && a.io.insert && a.request.minted.id !in s.table
    ensures var after := Next(cfg, s, StartLogin(a.request.returnTo, a.request.minted, a.clock.create), at);
            && after.table == HandleLogin(cfg, s.table, a, false).0
            && after.logins == s.logins[a.request.minted.id := after.table[a.request.minted.id]]
  {
  }
}
