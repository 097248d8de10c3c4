/**
 A login from its start to the session: what the browser and the provider are given, what
 they have to bring back, and how every other callback is answered.
 */
module LoginFlow {
  import opened Text
  import opened Model
  import opened Allowlists
  import opened Sessions
  import T = Timestamps

  /** What a login stores is what it sends: the cookie names the row, and the provider gets its state and nonce. */
  predicate Sent(r: Response, row: Row) {
    && r.status == 302 && r.cookie.Set? && r.cookie.id == row.id
    && r.body == ToProvider(row.state, row.nonce, row.verifier)
  }

  /** A login row: no user yet, ten minutes to come back, and a way back on this site. */
  predicate Started(row: Row, a: Arrival)
    requires a.request.Login?
  {
    && row.userSub == "" && row.email == "" && row.name == "" && row.idToken == ""
    && row.returnTo == SanitizeReturnTo(a.request.returnTo) && row.csrf == a.request.minted.csrf
    && row.state == a.request.minted.state && row.nonce == a.request.minted.nonce
    && row.verifier == a.request.minted.verifier && row.id == a.request.minted.id
    && row.createdAt == T.SecondOf(a.clock.create) && row.expiresAt == T.SecondOf(a.clock.create) + 600
  }

  lemma LoginSends(cfg: Config, table: Table, a: Arrival) returns (row: Row)
    requires KeyedById(table) && a.request.Login? && HandleLogin(cfg, table, a, true).1.body.ToProvider?
    ensures var (after, r) := HandleLogin(cfg, table, a, true);
            && Lookup(after, row.id) == Some(row) && Sent(r, row) && Started(row, a) && KeyedById(after)
            && r.cookie.expires == a.clock.create + 600 * T.NANOS && cfg.Enabled()
  {
    row := LoginRow(a.request.returnTo, a.request.minted, a.clock.create);
  }

  /** The provider sent the browser back with what it was given, and vouches for somebody permitted. */
  predicate ComesBack(cfg: Config, back: Arrival, r: Response) {
    && back.request.Callback? && r.cookie.Set? && r.body.ToProvider?
    && back.request.cookie == Some(r.cookie.id) && back.request.state == r.body.state != "" && back.request.error == ""
    && back.request.answer.Token? && back.request.answer.nonce == r.body.nonce != "" && back.request.answer.raw != ""
    && back.request.answer.claims.Some?
    && var c := back.request.answer.claims.value; Permits(cfg.allow, c.sub, c.email, c.emailVerified)
  }

  /** The database lets the statements of the callback through. */
  predicate Works(io: Io) {
    io.get && io.insert && io.delete
  }

  lemma CallbackCompletes(cfg: Config, table: Table, row: Row, back: Arrival, r: Response)
    requires cfg.Enabled() && KeyedById(table) && Lookup(table, row.id) == Some(row) && Sent(r, row)
    requires row.userSub == "" && !Expired(row, back.clock.check)
    requires ComesBack(cfg, back, r) && Works(back.io) && back.request.minted.id !in table
    ensures HandleCallback(cfg, table, back, true).1
            == Response(302, Set(back.request.minted.id, back.clock.create + 28_800 * T.NANOS), Redirect(row.returnTo))
  {
  }

  /**
   A login can be completed: when the browser comes back within ten minutes with the cookie
   and the state it was given and the provider's token carries the nonce, then, whatever
   other requests came in between, the callback sets a new cookie for eight hours and returns
   to where the login was asked from; and the old cookie is good for nothing any more.
   */
  lemma LoginCompletes(cfg: Config, table: Table, a: Arrival, between: seq<Arrival>, back: Arrival)
    requires KeyedById(table) && a.request.Login? && HandleLogin(cfg, table, a, true).1.body.ToProvider?
    requires ComesBack(cfg, back, HandleLogin(cfg, table, a, true).1) && Works(back.io)
    requires var (after, r) := HandleLogin(cfg, table, a, true);
             && Later(between, r.cookie.id, a.clock.sweep, back.clock.check)
             && !LoggedOut(between, r.cookie.id) && NoneUses(between, after[r.cookie.id])
             && back.request.minted.id !in After(cfg, after, between)
             && !Expired(after[r.cookie.id], back.clock.check)
    ensures var (after, r) := HandleLogin(cfg, table, a, true);
            var (done, answer) := HandleCallback(cfg, After(cfg, after, between), back, true);
            && answer == Response(302, Set(back.request.minted.id, back.clock.create + 28_800 * T.NANOS),
                                  Redirect(SanitizeReturnTo(a.request.returnTo)))
            && r.cookie.id !in done && back.request.minted.id in done
  {
    var row := LoginSends(cfg, table, a);
    var (after, r) := HandleLogin(cfg, table, a, true);
    LaterKeeps(cfg, after, row, false, between, a.clock.sweep, back.clock.check);
    CallbackCompletes(cfg, After(cfg, after, between), row, back, r);
    CallbackLeaves(cfg, After(cfg, after, between), back);
  }

  // ---------- how other callbacks are answered ----------

  /** Nothing is changed, or the row is gone where the database lets it go. */
  predicate Dropped(before: Table, after: Table, id: string, io: Io) {
    after == if io.delete then before - {id} else before
  }

  /** Without a row to go by, the cookie is taken away and nothing is changed. */
  lemma UnknownCookie(cfg: Config, table: Table, a: Arrival)
    requires cfg.Enabled() && a.request.Callback?
    requires a.request.cookie.None? || !a.io.get || a.request.cookie.value !in table
    ensures HandleCallback(cfg, table, a, true) == (table, Response(400, Clear, Stale))
  {
  }

  /**
   A callback with a cookie that is known: an expired row goes; a signed-in operator keeps row
   and cookie; a missing or wrong state leaves the row to expire; an error from the provider
   ends the login.
   */
  lemma CallbackRefusals(cfg: Config, table: Table, a: Arrival)
    requires cfg.Enabled() && KeyedById(table) && a.request.Callback?
    requires a.request.cookie.Some? && a.io.get && a.request.cookie.value in table
    ensures var id, row := a.request.cookie.value, table[a.request.cookie.value];
            var (after, r) := HandleCallback(cfg, table, a, true);
            var late := row.expiresAt * T.NANOS < a.clock.check;
            && (late ==> r == Response(400, Clear, Stale) && Dropped(table, after, id, a.io))
            && (!late && row.userSub != "" ==> r == Response(400, Keep, Stale) && after == table)
            && (!late && row.userSub == "" && (a.request.state == "" || a.request.state != row.state) ==>
                  r == Response(400, Clear, Stale) && after == table)
            && (!late && row.userSub == "" && a.request.state == row.state != "" && a.request.error != "" ==>
                  r == Response(401, Clear, AuthorizationFailed) && Dropped(table, after, id, a.io))
  {
  }

  /** A login row that was used is gone, whoever the provider vouched for; nobody else gets in. */
  lemma OnlyPermittedGetIn(cfg: Config, table: Table, a: Arrival)
    requires KeyedById(table) && a.request.Callback? && HandleCallback(cfg, table, a, true).1.status == 302
    ensures var r := a.request;
            && cfg.Enabled() && r.cookie.Some? && r.cookie.value in table && r.error == "" && r.state != ""
            && r.state == table[r.cookie.value].state && table[r.cookie.value].userSub == ""
            && a.clock.check <= table[r.cookie.value].expiresAt * T.NANOS
            && r.answer.Token? && r.answer.raw != "" && r.answer.nonce == table[r.cookie.value].nonce != ""
            && r.answer.claims.Some?
            && var c := r.answer.claims.value; Permits(cfg.allow, c.sub, c.email, c.emailVerified)
    ensures a.io.get && a.io.delete && a.io.insert
  {
  }

  /** And with a permitted identity refused or a token that does not fit, the answer says which. */
  lemma RefusedIdentity(cfg: Config, table: Table, a: Arrival)
    requires cfg.Enabled() && KeyedById(table) && a.request.Callback? && a.request.cookie.Some? && Works(a.io)
    requires a.request.cookie.value in table
    requires var row := table[a.request.cookie.value];
             && !Expired(row, a.clock.check) && row.userSub == ""
             && a.request.state == row.state != "" && a.request.error == ""
    ensures var row, answer := table[a.request.cookie.value], a.request.answer;
            var (after, r) := HandleCallback(cfg, table, a, true);
            var fits := answer.Token? && answer.raw != "" && answer.nonce == row.nonce != "" && answer.claims.Some?;
            && (!fits ==> r == Response(401, Keep, AuthorizationFailed) && after == table - {row.id})
            && (fits && !Permits(cfg.allow, answer.claims.value.sub, answer.claims.value.email,
                                 answer.claims.value.emailVerified) ==>
                  r == Response(403, Keep, Forbidden) && after == table - {row.id})
  {
  }

  // ---------- logout ----------

  /** A logout takes the row and the cookie and leads back to the admin page; anything but a POST is refused. */
  lemma LogoutExactly(cfg: Config, table: Table, post: bool, cookie: Option<string>, io: Io)
    requires KeyedById(table)
    ensures var (after, r) := HandleLogout(cfg, table, post, cookie, io);
            && (!post ==> r == Response(405, Keep, MethodNotAllowed) && after == table)
            && (post && cfg.attached ==> r == Response(302, Clear, Redirect("/admin")))
            && (post && !cfg.attached ==> r == Response(302, Keep, Redirect("/admin")) && after == table)
            && (post && cfg.attached && cookie.Some? && Works(io) ==> after == table - {cookie.value})
            && (cookie.None? ==> after == table)
  {
  }

  // ---------- faults ----------

  /** Without an authenticator, or without a provider, nothing is done and both handlers say so. */
  lemma DisabledAnswers(cfg: Config, table: Table, a: Arrival)
    requires !cfg.attached || !cfg.provider
    ensures a.request.Login? || a.request.Callback? ==>
              Handle(cfg, table, a, true) == (table, Response(503, Keep, Disabled))
  {
  }

  /** A login whose row cannot be stored is refused and leaves no row. */
  lemma LoginFault(cfg: Config, table: Table, a: Arrival)
    requires cfg.Enabled() && a.request.Login? && !a.io.insert
    ensures var (after, r) := HandleLogin(cfg, table, a, true);
            && r == Response(500, Keep, CouldNotStart)
            && forall id :: id in after ==> id in table && after[id] == table[id]
  {
  }

  /** A login takes away, with the rest, every row that has expired by the time it stores its own. */
  lemma LoginSweeps(cfg: Config, table: Table, a: Arrival, id: string)
    requires cfg.Enabled() && a.request.Login? && a.io.sweep && id in table && id != a.request.minted.id
    ensures id in HandleLogin(cfg, table, a, true).0 <==> table[id].expiresAt >= T.SecondOf(a.clock.sweep)
  {
  }

  /** When the login row cannot be deleted the callback stops there; when the session cannot be stored there is none. */
  lemma CallbackFaults(cfg: Config, table: Table, a: Arrival)
    requires cfg.Enabled() && KeyedById(table) && a.request.Callback? && a.request.cookie.Some? && a.io.get
    requires a.request.cookie.value in table
    requires var row := table[a.request.cookie.value];
             && !Expired(row, a.clock.check) && row.userSub == ""
             && a.request.state == row.state != "" && a.request.error == ""
    ensures var row := table[a.request.cookie.value];
            var (after, r) := HandleCallback(cfg, table, a, true);
            && (!a.io.delete ==> r == Response(401, Keep, AuthorizationFailed) && after == table)
            && (a.io.delete && !a.io.insert && Judge(cfg, row, a.request.answer).Admit? ==>
                  && r == Response(500, Keep, CouldNotComplete) && row.id !in after
                  && forall id :: id in after ==> id in table && after[id] == table[id])
  {
  }

  /** Reading a session changes nothing; without a cookie or a working lookup there is none. */
  lemma ReadingASession(cfg: Config, table: Table, cookie: Option<string>, clock: Clock, io: Io)
    ensures var (after, r) := Handle(cfg, table, Arrival(Whoami(cookie), clock, io), true);
            && after == table && r == Response(200, Keep, Identity(FindSession(cfg, table, cookie, clock.check, io)))
            && (!cfg.attached || cookie.None? || !io.get ==> r.body == Identity(None))
  {
  }
}
