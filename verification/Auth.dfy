/**
 The session store and the handlers as the program runs them: an object whose table the
 handlers change in place, proved against the transitions of module Sessions.
 */
module Auth {
  import opened Text
  import opened Model
  import opened Allowlists
  import opened Sessions
  import T = Timestamps

  class SessionStore {
    var rows: Table

    constructor ()
      ensures rows == map[]
    {
      rows := map[];
    }

    /**
     Inserts a row after sweeping, whether the sweep succeeds or not; false when the insert fails
     or the id is in use.
     */
    method Insert(row: Row, now: Time, io: Io) returns (ok: bool)
      modifies this
      ensures (rows, ok) == Create(old(rows), row, now, io, true)
      ensures ok ==> Lookup(rows, row.id) == Some(row)
    {
      var _ := SweepRows(now, io.sweep);
      ok := io.insert && row.id !in rows;
      if ok {
        rows := rows[row.id := row];
      }
    }

    method Get(id: string, io: bool) returns (row: Option<Row>)
      ensures row == if io then Lookup(rows, id) else None
    {
      row := None;
      if io && id in rows {
        row := Some(rows[id]);
      }
    }

    method Remove(id: string, io: bool) returns (ok: bool)
      modifies this
      ensures ok == io && rows == (if io then Delete(old(rows), id) else old(rows))
      ensures io ==> Lookup(rows, id) == None
    {
      if io {
        rows := rows - {id};
      }
      ok := io;
    }

    /** Deletes exactly the rows whose expiry second lies before the current one. */
    method SweepRows(now: Time, io: bool) returns (ok: bool)
      modifies this
      ensures ok == io && rows == (if io then Sweep(old(rows), now) else old(rows))
      ensures io ==> forall id :: id in rows <==> id in old(rows) && old(rows)[id].expiresAt >= T.SecondOf(now)
    {
      if io {
        rows := map id | id in rows && !(rows[id].expiresAt < T.SecondOf(now)) :: rows[id];
      }
      ok := io;
    }
  }

  class Handlers {
    const cfg: Config
    const store: SessionStore

    constructor (cfg: Config, store: SessionStore)
      ensures this.cfg == cfg && this.store == store
    {
      this.cfg := cfg;
      this.store := store;
    }

    method LoginHandler(returnTo: string, minted: Minted, clock: Clock, io: Io) returns (r: Response)
      modifies store
      ensures (store.rows, r) == Handle(cfg, old(store.rows), Arrival(Login(returnTo, minted), clock, io), true)
    {
      if !cfg.Enabled() {
        return Response(503, Keep, Disabled);
      }
      var row := LoginRow(returnTo, minted, clock.create);
      var ok := store.Insert(row, clock.sweep, io);
      if !ok {
        return Response(500, Keep, CouldNotStart);
      }
      var body := ToProvider(minted.state, minted.nonce, minted.verifier);
      r := Response(302, Set(row.id, clock.create + PRE_AUTH_TTL), body);
    }

    method CallbackHandler(cookie: Option<string>, state: string, error: string, answer: Answer, minted: Minted,
        clock: Clock, io: Io)
      returns (r: Response)
      modifies store
      ensures var request := Callback(cookie, state, error, answer, minted);
              (store.rows, r) == Handle(cfg, old(store.rows), Arrival(request, clock, io), true)
    {
      if !cfg.Enabled() {
        return Response(503, Keep, Disabled);
      }
      if cookie.None? {
        return Response(400, Clear, Stale);
      }
      var found := store.Get(cookie.value, io.get);
      if found.None? {
        return Response(400, Clear, Stale);
      }
      var row := found.value;
      if Expired(row, clock.check) {
        var _ := store.Remove(row.id, io.delete);
        return Response(400, Clear, Stale);
      }
      if row.userSub != "" {
        return Response(400, Keep, Stale);
      }
      if state == "" || state != row.state {
        return Response(400, Clear, Stale);
      }
      if error != "" {
        var _ := store.Remove(row.id, io.delete);
        return Response(401, Clear, AuthorizationFailed);
      }
      var removed := store.Remove(row.id, io.delete);
      if !removed {
        return Response(401, Keep, AuthorizationFailed);
      }
      var verdict := Judge(cfg, row, answer);
      if verdict.Refuse? {
        return verdict.response;
      }
      var session := SessionRow(row, verdict.claims, verdict.raw, minted, clock.create);
      var ok := store.Insert(session, clock.sweep, io);
      if !ok {
        return Response(500, Keep, CouldNotComplete);
      }
      r := Response(302, Set(session.id, clock.create + SESSION_TTL), Redirect(session.returnTo));
    }

    method LogoutHandler(post: bool, cookie: Option<string>, clock: Clock, io: Io) returns (r: Response)
      modifies store
      ensures (store.rows, r) == Handle(cfg, old(store.rows), Arrival(Logout(post, cookie), clock, io), true)
    {
      if !post {
        return Response(405, Keep, MethodNotAllowed);
      }
      if !cfg.attached {
        return Response(302, Keep, Redirect("/admin"));
      }
      if cookie.Some? {
        var found := store.Get(cookie.value, io.get);
        if found.Some? {
          var _ := store.Remove(found.value.id, io.delete);
        }
      }
      r := Response(302, Clear, Redirect("/admin"));
    }

    method CurrentSession(cookie: Option<string>, now: Time, io: Io) returns (session: Option<Session>)
      ensures session == FindSession(cfg, store.rows, cookie, now, io)
    {
      if !cfg.attached || cookie.None? {
        return None;
      }
      var found := store.Get(cookie.value, io.get);
      if found.None? {
        return None;
      }
      var row := found.value;
      if row.userSub == "" || Expired(row, now) {
        return None;
      }
      session := Some(Session(row.userSub, row.email, row.name, row.csrf, row.expiresAt));
    }
  }
}
