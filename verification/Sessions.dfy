/**
 The OIDC session table and the four handlers that use it. A row is in one of two phases:
 a login row has state, nonce and code verifier and no user; a session row has a user and an
 empty trio. Each handler is one step; random texts, the provider's answer and the faults
 of the database are its inputs.
 */
module Sessions {
  import opened Text
  import opened Model
  import opened Allowlists
  import T = Timestamps

  const PRE_AUTH_TTL: Time := 600 * T.NANOS
  const SESSION_TTL: Time := 8 * 3600 * T.NANOS
  const DEFAULT_RETURN := "/admin"

  /** Times in a row are whole seconds, as the table stores them. */
  datatype Row = Row(
    id: string, state: string, nonce: string, verifier: string, returnTo: string, csrf: string,
    userSub: string, email: string, name: string, idToken: string, createdAt: int, expiresAt: int)

  type Table = map<string, Row>

  datatype Minted = Minted(id: string, state: string, nonce: string, verifier: string, csrf: string)

  datatype Claims = Claims(sub: string, email: string, emailVerified: bool, name: string)

  /** The token exchange and the ID token check, as far as they got. */
  datatype Answer =
    | ExchangeFailed | NoIdToken | TokenRejected
    | Token(nonce: string, claims: Option<Claims>, raw: string)

  datatype Request =
    | Login(returnTo: string, minted: Minted)
    | Callback(cookie: Option<string>, state: string, error: string, answer: Answer, minted: Minted)
    | Logout(post: bool, cookie: Option<string>)
    | Whoami(cookie: Option<string>)

  /** The clock readings of one handler: the expiry check, the new row, the sweep before its insert. */
  datatype Clock = Clock(check: Time, create: Time, sweep: Time) {
    predicate Ordered() {
      check <= create <= sweep
    }
  }

  /** The statements of one handler that the database lets through. */
  datatype Io = Io(get: bool, sweep: bool, insert: bool, delete: bool)

  datatype Arrival = Arrival(request: Request, clock: Clock, io: Io)

  datatype Session = Session(userSub: string, email: string, name: string, csrf: string, expiresAt: int)

  datatype Cookie = Keep | Clear | Set(id: string, expires: Time)

  datatype Body =
    | Disabled | Stale | CouldNotStart | AuthorizationFailed | Forbidden | CouldNotComplete | MethodNotAllowed
    | ToProvider(state: string, nonce: string, verifier: string)
    | Redirect(path: string)
    | Identity(session: Option<Session>)

  datatype Response = Response(status: nat, cookie: Cookie, body: Body)

  /** `attached` is false for a nil authenticator; `provider` says that discovery found one. */
  datatype Config = Config(attached: bool, provider: bool, allow: Allowlist) {
    predicate Enabled() {
      attached && provider
    }
  }

  // ---------- the table ----------

  predicate Expired(row: Row, now: Time) {
    row.expiresAt * T.NANOS < now
  }

  function Lookup(table: Table, id: string): Option<Row> {
    if id in table then Some(table[id]) else None
  }

  /** DELETE WHERE expires_at < ?, with the clock cut to seconds. */
  function Sweep(table: Table, now: Time): Table {
    map id | id in table && !(table[id].expiresAt < T.SecondOf(now)) :: table[id]
  }

  function Delete(table: Table, id: string): Table {
    table - {id}
  }

  /** Create: a sweep whose failure is ignored, then an insert that a used id refuses. */
  function Create(table: Table, row: Row, now: Time, io: Io, sweeping: bool): (Table, bool) {
    var swept := if sweeping && io.sweep then Sweep(table, now) else table;
    if !io.insert || row.id in swept then (swept, false) else (swept[row.id := row], true)
  }

  /** A created row is found, a deleted one is not, no id is used twice, and other rows only go once expired. */
  lemma LookupLaws(table: Table, row: Row, now: Time, io: Io, sweeping: bool, other: string)
    ensures var (after, ok) := Create(table, row, now, io, sweeping);
            && (ok ==> Lookup(after, row.id) == Some(row) && Lookup(Delete(after, row.id), row.id) == None)
            && (ok && row.id in table ==> Expired(table[row.id], now))
            && (other != row.id || !ok ==>
                  || Lookup(after, other) == Lookup(table, other)
                  || (Lookup(after, other) == None && Expired(table[other], now)))
            && (other != row.id ==> Lookup(Delete(after, row.id), other) == Lookup(after, other))
  {
    if other in table && table[other].expiresAt < T.SecondOf(now) { SweptIsExpired(table[other], now); }
    if row.id in table && table[row.id].expiresAt < T.SecondOf(now) { SweptIsExpired(table[row.id], now); }
  }

  lemma SweptIsExpired(row: Row, now: Time)
    requires row.expiresAt < T.SecondOf(now)
    ensures Expired(row, now)
  {
  }

  // ---------- the handlers ----------

  function SanitizeReturnTo(value: string): string {
    if '\\' in value then DEFAULT_RETURN
    else if "/" <= value && !("//" <= value) then value
    else DEFAULT_RETURN
  }

  function LoginRow(returnTo: string, minted: Minted, now: Time): Row {
    Row(minted.id, minted.state, minted.nonce, minted.verifier, SanitizeReturnTo(returnTo), minted.csrf, "", "", "", "",
        T.SecondOf(now), T.SecondOf(now + PRE_AUTH_TTL))
  }

  function SessionRow(login: Row, c: Claims, raw: string, minted: Minted, now: Time): Row {
    Row(minted.id, "", "", "", login.returnTo, minted.csrf, c.sub, c.email, c.name, raw,
        T.SecondOf(now), T.SecondOf(now + SESSION_TTL))
  }

  function HandleLogin(cfg: Config, table: Table, a: Arrival, sweeping: bool): (Table, Response)
    requires a.request.Login?
  {
    if !cfg.Enabled() then (table, Response(503, Keep, Disabled))
    else
      var minted := a.request.minted;
      var row := LoginRow(a.request.returnTo, minted, a.clock.create);
      var (after, ok) := Create(table, row, a.clock.sweep, a.io, sweeping);
      if !ok then (after, Response(500, Keep, CouldNotStart))
      else
        (after, Response(302, Set(row.id, a.clock.create + PRE_AUTH_TTL),
                         ToProvider(minted.state, minted.nonce, minted.verifier)))
  }

  /** What the provider's answer amounts to for a login row: claims to admit, or a refusal. */
  datatype Verdict = Admit(claims: Claims, raw: string) | Refuse(response: Response)

  function Judge(cfg: Config, login: Row, answer: Answer): Verdict {
    var failed := Refuse(Response(401, Keep, AuthorizationFailed));
    match answer
    case Token(nonce, claims, raw) =>
      if raw == "" then failed
      else if nonce == "" || nonce != login.nonce then failed
      else if claims.None? then failed
      else if !Permits(cfg.allow, claims.value.sub, claims.value.email, claims.value.emailVerified) then
        Refuse(Response(403, Keep, Forbidden))
      else Admit(claims.value, raw)
    case _ => failed
  }

  /** The callback after the login row is gone. */
  function Complete(cfg: Config, without: Table, login: Row, a: Arrival, sweeping: bool): (Table, Response)
    requires a.request.Callback?
  {
    match Judge(cfg, login, a.request.answer)
    case Refuse(response) => (without, response)
    case Admit(claims, raw) =>
      var row := SessionRow(login, claims, raw, a.request.minted, a.clock.create);
      var (after, ok) := Create(without, row, a.clock.sweep, a.io, sweeping);
      if !ok then (after, Response(500, Keep, CouldNotComplete))
      else (after, Response(302, Set(row.id, a.clock.create + SESSION_TTL), Redirect(row.returnTo)))
  }

  /** A delete whose failure is ignored. */
  function TryDelete(table: Table, id: string, io: Io): Table {
    if io.delete then Delete(table, id) else table
  }

  function HandleCallback(cfg: Config, table: Table, a: Arrival, sweeping: bool): (Table, Response)
    requires a.request.Callback?
  {
    var r, stale := a.request, Response(400, Clear, Stale);
    if !cfg.Enabled() then (table, Response(503, Keep, Disabled))
    else if r.cookie.None? || !a.io.get || r.cookie.value !in table then (table, stale)
    else
      var row := table[r.cookie.value];
      if Expired(row, a.clock.check) then (TryDelete(table, row.id, a.io), stale)
      else if row.userSub != "" then (table, Response(400, Keep, Stale))
      else if r.state == "" || r.state != row.state then (table, stale)
      else if r.error != "" then (TryDelete(table, row.id, a.io), Response(401, Clear, AuthorizationFailed))
      else if !a.io.delete then (table, Response(401, Keep, AuthorizationFailed))
      else Complete(cfg, Delete(table, row.id), row, a, sweeping)
  }

  function HandleLogout(cfg: Config, table: Table, post: bool, cookie: Option<string>, io: Io): (Table, Response) {
    if !post then (table, Response(405, Keep, MethodNotAllowed))
    else if !cfg.attached then (table, Response(302, Keep, Redirect("/admin")))
    else
      (if cookie.Some? && io.get && cookie.value in table then TryDelete(table, table[cookie.value].id, io) else table,
       Response(302, Clear, Redirect("/admin")))
  }

  function FindSession(cfg: Config, table: Table, cookie: Option<string>, now: Time, io: Io): Option<Session> {
    if !cfg.attached || cookie.None? || !io.get || cookie.value !in table then None
    else
      var row := table[cookie.value];
      if row.userSub == "" || Expired(row, now) then None
      else Some(Session(row.userSub, row.email, row.name, row.csrf, row.expiresAt))
  }

  function Handle(cfg: Config, table: Table, a: Arrival, sweeping: bool): (Table, Response) {
    match a.request
    case Login(_, _) => HandleLogin(cfg, table, a, sweeping)
    case Callback(_, _, _, _, _) => HandleCallback(cfg, table, a, sweeping)
    case Logout(post, cookie) => HandleLogout(cfg, table, post, cookie, a.io)
    case Whoami(cookie) => (table, Response(200, Keep, Identity(FindSession(cfg, table, cookie, a.clock.check, a.io))))
  }

  predicate KeyedById(table: Table) {
    forall id :: id in table ==> table[id].id == id
  }

  // ---------- how long a session lasts ----------

  /** The table after a list of arrivals. */
  function After(cfg: Config, table: Table, arrivals: seq<Arrival>): Table
    decreases |arrivals|
  {
    if arrivals == [] then table else After(cfg, Handle(cfg, table, arrivals[0], true).0, arrivals[1..])
  }

  /** Arrivals in the order of the clock up to t, none of which is given the id anew. */
  predicate Later(arrivals: seq<Arrival>, id: string, since: Time, t: Time)
    decreases |arrivals|
  {
    if arrivals == [] then since <= t
    else
      var a := arrivals[0];
      && since <= a.clock.check && a.clock.Ordered()
      && (a.request.Login? || a.request.Callback? ==> a.request.minted.id != id)
      && Later(arrivals[1..], id, a.clock.sweep, t)
  }

  /** The logout of an id, if the database lets it through. */
  predicate LogsOut(a: Arrival, id: string) {
    a.request.Logout? && a.request.post && a.request.cookie == Some(id) && a.io.get && a.io.delete
  }

  predicate LoggedOut(arrivals: seq<Arrival>, id: string) {
    exists i :: 0 <= i < |arrivals| && LogsOut(arrivals[i], id)
  }

  /** The row is in the table unless it was logged out or has expired. */
  predicate Kept(table: Table, row: Row, out: bool, now: Time) {
    && KeyedById(table)
    && (row.id in table ==> table[row.id] == row && !out)
    && (row.id !in table ==> out || Expired(row, now))
  }

  lemma CreateKeeps(table: Table, added: Row, row: Row, out: bool, since: Time, a: Arrival)
    requires Kept(table, row, out, since) && since <= a.clock.sweep && added.id != row.id
    ensures Kept(Create(table, added, a.clock.sweep, a.io, true).0, row, out, a.clock.sweep)
  {
    if row.expiresAt < T.SecondOf(a.clock.sweep) { SweptIsExpired(row, a.clock.sweep); }
  }

  lemma DeleteKeeps(table: Table, other: string, row: Row, out: bool, now: Time)
    requires Kept(table, row, out, now) && other != row.id
    ensures Kept(Delete(table, other), row, out, now)
  {
  }

  /** The callback that a login row is there for; a row with an empty state has none. */
  predicate Uses(a: Arrival, row: Row) {
    a.request.Callback? && a.request.cookie == Some(row.id) && a.request.state == row.state && row.state != ""
  }

  /** A row is consumed by the callback it is there for and by no other. */
  lemma CallbackKeeps(cfg: Config, table: Table, row: Row, out: bool, since: Time, a: Arrival)
    requires Kept(table, row, out, since) && since <= a.clock.check && a.clock.Ordered() && !Uses(a, row)
    requires a.request.Callback? && a.request.minted.id != row.id
    ensures Kept(HandleCallback(cfg, table, a, true).0, row, out, a.clock.sweep)
  {
    var r := a.request;
    if cfg.Enabled() && r.cookie.Some? && a.io.get && r.cookie.value in table {
      var login := table[r.cookie.value];
      if login.id != row.id {
        DeleteKeeps(table, login.id, row, out, since);
        if Judge(cfg, login, r.answer).Admit? {
          var v := Judge(cfg, login, r.answer);
          var added := SessionRow(login, v.claims, v.raw, r.minted, a.clock.create);
          CreateKeeps(Delete(table, login.id), added, row, out, since, a);
        }
      }
    }
  }

  lemma HandleKeeps(cfg: Config, table: Table, row: Row, out: bool, since: Time, a: Arrival)
    requires Kept(table, row, out, since) && since <= a.clock.check && a.clock.Ordered() && !Uses(a, row)
             && cfg.attached
    requires a.request.Login? || a.request.Callback? ==> a.request.minted.id != row.id
    ensures Kept(Handle(cfg, table, a, true).0, row, out || LogsOut(a, row.id), a.clock.sweep)
  {
    match a.request
    case Login(returnTo, minted) =>
      if cfg.Enabled() { CreateKeeps(table, LoginRow(returnTo, minted, a.clock.create), row, out, since, a); }
    case Callback(_, _, _, _, _) => CallbackKeeps(cfg, table, row, out, since, a);
    case Logout(_, _) =>
    case Whoami(_) =>
  }

  predicate NoneUses(arrivals: seq<Arrival>, row: Row) {
    forall i :: 0 <= i < |arrivals| ==> !Uses(arrivals[i], row)
  }

  lemma {:induction false} LaterKeeps(cfg: Config, table: Table, row: Row, out: bool, arrivals: seq<Arrival>,
      since: Time, t: Time)
    requires Kept(table, row, out, since) && Later(arrivals, row.id, since, t) && NoneUses(arrivals, row)
             && cfg.attached
    ensures Kept(After(cfg, table, arrivals), row, out || LoggedOut(arrivals, row.id), t)
    decreases |arrivals|
  {
    if arrivals == [] {
    } else {
      var a, rest := arrivals[0], arrivals[1..];
      HandleKeeps(cfg, table, row, out, since, a);
      LaterKeeps(cfg, Handle(cfg, table, a, true).0, row, out || LogsOut(a, row.id), rest, a.clock.sweep, t);
      LoggedOutFirst(arrivals, row.id);
    }
  }

  lemma LoggedOutFirst(arrivals: seq<Arrival>, id: string)
    requires arrivals != []
    ensures LoggedOut(arrivals, id) <==> LogsOut(arrivals[0], id) || LoggedOut(arrivals[1..], id)
  {
    var rest := arrivals[1..];
    assert forall i :: 0 <= i < |rest| ==> rest[i] == arrivals[i + 1];
    if LoggedOut(arrivals, id) && !LogsOut(arrivals[0], id) {
      var i :| 0 <= i < |arrivals| && LogsOut(arrivals[i], id);
      assert LogsOut(rest[i - 1], id);
    }
  }

  /** What a completed callback leaves: its session row, and no login row. */
  lemma CallbackLeaves(cfg: Config, table: Table, a: Arrival)
    requires a.request.Callback? && KeyedById(table) && a.request.minted.id !in table
    requires HandleCallback(cfg, table, a, true).1.status == 302
    ensures var r, after := a.request, HandleCallback(cfg, table, a, true).0;
            && cfg.attached && r.answer.Token? && r.answer.claims.Some? && r.cookie.Some? && r.cookie.value in table
            && r.cookie.value !in after && KeyedById(after) && r.minted.id in after
            && after[r.minted.id]
               == SessionRow(table[r.cookie.value], r.answer.claims.value, r.answer.raw, r.minted, a.clock.create)
            && HandleCallback(cfg, table, a, true).1.cookie == Set(r.minted.id, a.clock.create + SESSION_TTL)
  {
  }

  /** The session a browser has at a time, through the cookie a completed callback set. */
  function Granted(r: Request, created: Time, t: Time, out: bool): Option<Session>
    requires r.Callback? && r.answer.Token? && r.answer.claims.Some?
  {
    var c, ends := r.answer.claims.value, T.SecondOf(created) + 28_800;
    if c.sub == "" || t > ends * T.NANOS || out then None
    else Some(Session(c.sub, c.email, c.name, r.minted.csrf, ends))
  }

  /**
   Whatever logins, callbacks, logouts and reads come after a completed callback, the new id
   answers with the provider's identity exactly until eight hours have passed, to the second,
   or it is logged out; and never when the provider named no subject.
   */
  lemma SessionLifetime(cfg: Config, table: Table, a: Arrival, later: seq<Arrival>, t: Time, io: Io)
    requires a.request.Callback? && KeyedById(table) && a.request.minted.id !in table
    requires HandleCallback(cfg, table, a, true).1.status == 302
    requires Later(later, a.request.minted.id, a.clock.sweep, t) && io.get
    ensures var r, after := a.request, After(cfg, HandleCallback(cfg, table, a, true).0, later);
            && r.answer.Token? && r.answer.claims.Some?
            && FindSession(cfg, after, Some(r.minted.id), t, io)
               == Granted(r, a.clock.create, t, LoggedOut(later, r.minted.id))
  {
    CallbackLeaves(cfg, table, a);
    var start := HandleCallback(cfg, table, a, true).0;
    LaterKeeps(cfg, start, start[a.request.minted.id], false, later, a.clock.sweep, t);
  }

  // ---------- sweeping is invisible ----------

  /** The swept table lacks only rows that are expired, and stay so. */
  predicate SweptFrom(swept: Table, full: Table, now: Time) {
    && KeyedById(full)
    && (forall id :: id in swept ==> id in full && swept[id] == full[id])
    && (forall id :: id in full && id !in swept ==> Expired(full[id], now))
  }

  /** The id a request may insert was never given out before. */
  predicate FreshId(table: Table, r: Request) {
    (r.Login? || r.Callback?) ==> r.minted.id !in table
  }

  lemma SweepKeepsRelation(swept: Table, full: Table, earlier: Time, now: Time)
    requires SweptFrom(swept, full, earlier) && earlier <= now
    ensures SweptFrom(Sweep(swept, now), full, now)
  {
    forall id | id in full && id !in Sweep(swept, now) ensures Expired(full[id], now) {
      if id in swept { SweptIsExpired(swept[id], now); }
    }
  }

  lemma CreateKeepsRelation(swept: Table, full: Table, row: Row, earlier: Time, now: Time, io: Io)
    requires SweptFrom(swept, full, earlier) && earlier <= now && row.id !in full
    ensures Create(swept, row, now, io, true).1 == Create(full, row, now, io, false).1
    ensures SweptFrom(Create(swept, row, now, io, true).0, Create(full, row, now, io, false).0, now)
  {
    SweepKeepsRelation(swept, full, earlier, now);
    LaterRelation(swept, full, earlier, now);
  }

  lemma DeleteKeepsRelation(swept: Table, full: Table, id: string, now: Time)
    requires SweptFrom(swept, full, now)
    ensures SweptFrom(Delete(swept, id), Delete(full, id), now)
  {
  }

  lemma LaterRelation(swept: Table, full: Table, earlier: Time, now: Time)
    requires SweptFrom(swept, full, earlier) && earlier <= now
    ensures SweptFrom(swept, full, now)
  {
  }

  lemma CompleteAgrees(cfg: Config, swept: Table, full: Table, login: Row, a: Arrival)
    requires SweptFrom(swept, full, a.clock.check) && a.clock.Ordered()
    requires a.request.Callback? && a.request.minted.id !in full
    ensures Complete(cfg, swept, login, a, true).1 == Complete(cfg, full, login, a, false).1
    ensures SweptFrom(Complete(cfg, swept, login, a, true).0, Complete(cfg, full, login, a, false).0, a.clock.sweep)
  {
    match Judge(cfg, login, a.request.answer)
    case Refuse(_) => LaterRelation(swept, full, a.clock.check, a.clock.sweep);
    case Admit(claims, raw) =>
      var row := SessionRow(login, claims, raw, a.request.minted, a.clock.create);
      CreateKeepsRelation(swept, full, row, a.clock.check, a.clock.sweep, a.io);
  }

  lemma CallbackAgrees(cfg: Config, swept: Table, full: Table, a: Arrival)
    requires SweptFrom(swept, full, a.clock.check) && a.clock.Ordered() && a.request.Callback?
             && FreshId(full, a.request)
    ensures HandleCallback(cfg, swept, a, true).1 == HandleCallback(cfg, full, a, false).1
    ensures SweptFrom(HandleCallback(cfg, swept, a, true).0, HandleCallback(cfg, full, a, false).0, a.clock.sweep)
  {
    var r := a.request;
    LaterRelation(swept, full, a.clock.check, a.clock.sweep);
    if cfg.Enabled() && r.cookie.Some? && a.io.get && r.cookie.value in full {
      var row := full[r.cookie.value];
      DeleteKeepsRelation(swept, full, row.id, a.clock.check);
      DeleteKeepsRelation(swept, full, row.id, a.clock.sweep);
      if r.cookie.value in swept {
        CompleteAgrees(cfg, Delete(swept, row.id), Delete(full, row.id), row, a);
      } else {
        assert Expired(row, a.clock.check);
        assert Delete(swept, row.id) == swept;
      }
    }
  }

  lemma LogoutAgrees(cfg: Config, swept: Table, full: Table, post: bool, cookie: Option<string>, io: Io, now: Time)
    requires SweptFrom(swept, full, now)
    ensures HandleLogout(cfg, swept, post, cookie, io).1 == HandleLogout(cfg, full, post, cookie, io).1
    ensures SweptFrom(HandleLogout(cfg, swept, post, cookie, io).0, HandleLogout(cfg, full, post, cookie, io).0, now)
  {
    if cookie.Some? && cookie.value in full {
      DeleteKeepsRelation(swept, full, full[cookie.value].id, now);
      assert cookie.value !in swept ==> Delete(swept, cookie.value) == swept;
    }
  }

  /** One request: the same response, and tables that differ in expired rows only. */
  lemma HandlersAgree(cfg: Config, swept: Table, full: Table, a: Arrival)
    requires SweptFrom(swept, full, a.clock.check) && a.clock.Ordered() && FreshId(full, a.request)
    ensures Handle(cfg, swept, a, true).1 == Handle(cfg, full, a, false).1
    ensures SweptFrom(Handle(cfg, swept, a, true).0, Handle(cfg, full, a, false).0, a.clock.sweep)
  {
    LaterRelation(swept, full, a.clock.check, a.clock.sweep);
    match a.request
    case Login(returnTo, minted) =>
      CreateKeepsRelation(swept, full, LoginRow(returnTo, minted, a.clock.create), a.clock.check, a.clock.sweep, a.io);
    case Callback(_, _, _, _, _) => CallbackAgrees(cfg, swept, full, a);
    case Logout(post, cookie) => LogoutAgrees(cfg, swept, full, post, cookie, a.io, a.clock.sweep);
    case Whoami(_) =>
  }

  function Responses(cfg: Config, table: Table, arrivals: seq<Arrival>, sweeping: bool): seq<Response>
    decreases |arrivals|
  {
    if arrivals == [] then []
    else
      var (after, response) := Handle(cfg, table, arrivals[0], sweeping);
      [response] + Responses(cfg, after, arrivals[1..], sweeping)
  }

  /** Arrivals come in the order of a clock that does not run backwards, and bring new ids. */
  predicate WellFormed(cfg: Config, table: Table, arrivals: seq<Arrival>, since: Time)
    decreases |arrivals|
  {
    arrivals != [] ==>
      var a := arrivals[0];
      && since <= a.clock.check && a.clock.Ordered() && FreshId(table, a.request)
      && WellFormed(cfg, Handle(cfg, table, a, false).0, arrivals[1..], a.clock.sweep)
  }

  lemma {:induction false} ResponsesAgree(cfg: Config, swept: Table, full: Table, arrivals: seq<Arrival>, since: Time)
    requires SweptFrom(swept, full, since) && WellFormed(cfg, full, arrivals, since)
    ensures Responses(cfg, swept, arrivals, true) == Responses(cfg, full, arrivals, false)
    decreases |arrivals|
  {
    if arrivals == [] {
    } else {
      var a := arrivals[0];
      LaterRelation(swept, full, since, a.clock.check);
      HandlersAgree(cfg, swept, full, a);
      ResponsesAgree(cfg, Handle(cfg, swept, a, true).0, Handle(cfg, full, a, false).0, arrivals[1..], a.clock.sweep);
    }
  }

  /**
   Sweeping is invisible: every sequence of requests gets the same responses from the store
   that sweeps, even one swept at start-up, as from one that never does.
   */
  lemma SweepingIsInvisible(cfg: Config, table: Table, arrivals: seq<Arrival>, since: Time)
    requires KeyedById(table) && WellFormed(cfg, table, arrivals, since)
    ensures Responses(cfg, Sweep(table, since), arrivals, true) == Responses(cfg, table, arrivals, false)
  {
    SweepKeepsRelation(table, table, since, since);
    ResponsesAgree(cfg, Sweep(table, since), table, arrivals, since);
  }
}
