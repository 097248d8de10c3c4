/**
 Where session rows come from: runs of the handlers with a record of every login row ever
 created and of every callback that completed.
 */
module Provenance {
  import opened Text
  import opened Model
  import opened Allowlists
  import opened Sessions

  /** A completed callback: the login row it consumed and what was presented for it. */
  datatype Grant = Grant(login: string, state: string, nonce: string, claims: Claims)

  datatype History = History(table: Table, logins: map<string, Row>, grants: map<string, Grant>)

  const EMPTY := History(map[], map[], map[])

  function Next(cfg: Config, h: History, a: Arrival): History {
    var (after, response) := Handle(cfg, h.table, a, true);
    match a.request
    case Login(_, minted) =>
      if response.body.ToProvider? && minted.id in after then
        History(after, h.logins[minted.id := after[minted.id]], h.grants)
      else h.(table := after)
    case Callback(cookie, state, _, answer, minted) =>
      if response.body.Redirect? && cookie.Some? && answer.Token? && answer.claims.Some? then
        var grant := Grant(cookie.value, state, answer.nonce, answer.claims.value);
        History(after, h.logins, h.grants[minted.id := grant])
      else h.(table := after)
    case _ => h.(table := after)
  }

  function Run(cfg: Config, arrivals: seq<Arrival>): History {
    if arrivals == [] then EMPTY else Next(cfg, Run(cfg, arrivals[..|arrivals| - 1]), arrivals[|arrivals| - 1])
  }

  /** Random texts are never empty, and an id is never given out twice. */
  predicate MintedOk(h: History, r: Request) {
    && (r.Login? || r.Callback? ==> r.minted.id !in h.logins && r.minted.id !in h.grants && r.minted.id !in h.table)
    && (r.Login? ==> r.minted.state != "" && r.minted.nonce != "")
  }

  predicate AllMinted(cfg: Config, arrivals: seq<Arrival>) {
    forall i :: 0 <= i < |arrivals| ==> MintedOk(Run(cfg, arrivals[..i]), arrivals[i].request)
  }

  /** A path on this site: not empty, not protocol-relative, without a backslash. */
  predicate SameSite(path: string) {
    path != "" && path[0] == '/' && (|path| >= 2 ==> path[1] != '/') && '\\' !in path
  }

  lemma SanitizedIsSameSite(value: string)
    ensures SameSite(SanitizeReturnTo(value))
    ensures SameSite(value) <==> SanitizeReturnTo(value) == value
    ensures !SameSite(value) ==> SanitizeReturnTo(value) == "/admin"
  {
    assert SameSite(DEFAULT_RETURN);
    if SameSite(value) {
      assert "/" <= value && !("//" <= value);
    }
  }

  // ---------- the invariant ----------

  predicate IsLoginRow(row: Row) {
    row.state != "" && row.nonce != "" && row.userSub == ""
  }

  predicate IsSessionRow(row: Row, g: Grant) {
    && row.state == "" && row.nonce == "" && row.verifier == ""
    && row.userSub == g.claims.sub && row.email == g.claims.email
  }

  predicate Traced(h: History, id: string)
    requires id in h.table
  {
    var row := h.table[id];
    && row.id == id && SameSite(row.returnTo)
    && if id in h.logins then row == h.logins[id] && id !in h.grants
       else id in h.grants && IsSessionRow(row, h.grants[id])
  }

  /** A grant used a login row that is gone, with its state and nonce, for somebody permitted. */
  predicate Earned(cfg: Config, h: History, g: Grant) {
    && g.login in h.logins && g.login !in h.table
    && g.state == h.logins[g.login].state && g.nonce == h.logins[g.login].nonce
    && Permits(cfg.allow, g.claims.sub, g.claims.email, g.claims.emailVerified)
  }

  ghost predicate Ok(cfg: Config, h: History) {
    && (forall id :: id in h.table ==> Traced(h, id))
    && (forall id :: id in h.logins ==> IsLoginRow(h.logins[id]))
    && (forall id :: id in h.grants ==> Earned(cfg, h, h.grants[id]))
    && (forall id, other :: id in h.grants && other in h.grants && id != other ==>
         h.grants[id].login != h.grants[other].login)
  }

  /** Rows may go at any time. */
  lemma ShrinkKeepsOk(cfg: Config, h: History, table: Table)
    requires Ok(cfg, h) && forall id :: id in table ==> id in h.table && table[id] == h.table[id]
    ensures Ok(cfg, h.(table := table))
  {
    var h' := h.(table := table);
    forall id | id in table ensures Traced(h', id) { assert Traced(h, id); }
    forall id | id in h.grants ensures Earned(cfg, h', h.grants[id]) { assert Earned(cfg, h, h.grants[id]); }
  }

  lemma LoginKeepsOk(cfg: Config, h: History, row: Row)
    requires Ok(cfg, h) && row.id !in h.table && row.id !in h.logins && row.id !in h.grants
    requires IsLoginRow(row) && SameSite(row.returnTo)
    ensures Ok(cfg, History(h.table[row.id := row], h.logins[row.id := row], h.grants))
  {
    var h' := History(h.table[row.id := row], h.logins[row.id := row], h.grants);
    forall id | id in h'.table ensures Traced(h', id) {
      if id != row.id { assert Traced(h, id); }
    }
    forall id | id in h.grants ensures Earned(cfg, h', h.grants[id]) { assert Earned(cfg, h, h.grants[id]); }
  }

  lemma GrantKeepsOk(cfg: Config, h: History, row: Row, g: Grant)
    requires Ok(cfg, h) && row.id !in h.table && row.id !in h.logins && row.id !in h.grants
    requires IsSessionRow(row, g) && SameSite(row.returnTo) && Earned(cfg, h, g) && g.login != row.id
    requires forall id :: id in h.grants ==> h.grants[id].login != g.login
    ensures Ok(cfg, History(h.table[row.id := row], h.logins, h.grants[row.id := g]))
  {
    var h' := History(h.table[row.id := row], h.logins, h.grants[row.id := g]);
    forall id | id in h'.table ensures Traced(h', id) {
      if id != row.id { assert Traced(h, id); }
    }
    forall id | id in h'.grants ensures Earned(cfg, h', h'.grants[id]) {
      if id != row.id { assert Earned(cfg, h, h.grants[id]); }
    }
  }

  lemma NextLogin(cfg: Config, h: History, a: Arrival)
    requires Ok(cfg, h) && MintedOk(h, a.request) && a.request.Login?
    ensures Ok(cfg, Next(cfg, h, a))
  {
    if cfg.Enabled() {
      var swept := SweptBy(h.table, a);
      var row := LoginRow(a.request.returnTo, a.request.minted, a.clock.create);
      ShrinkKeepsOk(cfg, h, swept);
      SanitizedIsSameSite(a.request.returnTo);
      LoginKeepsOk(cfg, h.(table := swept), row);
    }
  }

  /** The callback consumes the row. */
  predicate Consumes(cfg: Config, table: Table, a: Arrival) {
    && cfg.Enabled() && a.request.Callback? && a.io.get && a.io.delete
    && a.request.cookie.Some? && a.request.cookie.value in table
    && var login := table[a.request.cookie.value];
       && !Expired(login, a.clock.check) && login.userSub == "" && a.request.error == ""
       && a.request.state != "" && a.request.state == login.state
  }

  function SweptBy(table: Table, a: Arrival): Table {
    if a.io.sweep then Sweep(table, a.clock.sweep) else table
  }

  lemma AdmitMeans(cfg: Config, login: Row, answer: Answer)
    requires Judge(cfg, login, answer).Admit?
    ensures answer.Token? && answer.claims == Some(Judge(cfg, login, answer).claims) && answer.nonce == login.nonce
    ensures var c := Judge(cfg, login, answer).claims; Permits(cfg.allow, c.sub, c.email, c.emailVerified)
  {
  }

  /** The record after a callback that consumed its row. */
  lemma ConsumedNext(cfg: Config, h: History, a: Arrival)
    requires Consumes(cfg, h.table, a)
    requires KeyedById(h.table) && a.request.minted.id !in h.table
    ensures var r, login := a.request, h.table[a.request.cookie.value];
            var without := Delete(h.table, login.id);
            var verdict := Judge(cfg, login, r.answer);
            Next(cfg, h, a)
            == if verdict.Refuse? then h.(table := without)
               else if !a.io.insert then h.(table := SweptBy(without, a))
               else
                 var row := SessionRow(login, verdict.claims, verdict.raw, r.minted, a.clock.create);
                 History(SweptBy(without, a)[row.id := row], h.logins,
                         h.grants[row.id := Grant(r.cookie.value, r.state, login.nonce, verdict.claims)])
  {
    var login := h.table[a.request.cookie.value];
    if Judge(cfg, login, a.request.answer).Admit? { AdmitMeans(cfg, login, a.request.answer); }
  }

  /** The callback's last branch: the login row is deleted first, then judged. */
  lemma NextComplete(cfg: Config, h: History, a: Arrival)
    requires Ok(cfg, h) && MintedOk(h, a.request) && Consumes(cfg, h.table, a)
    ensures Ok(cfg, Next(cfg, h, a))
  {
    var r, id := a.request, a.request.cookie.value;
    var login := h.table[id];
    assert Traced(h, id) && login.id == id;
    assert KeyedById(h.table) by { forall i | i in h.table ensures h.table[i].id == i { assert Traced(h, i); } }
    ConsumedNext(cfg, h, a);
    var without := h.(table := Delete(h.table, id));
    ShrinkKeepsOk(cfg, h, without.table);
    var verdict := Judge(cfg, login, r.answer);
    if verdict.Admit? {
      AdmitMeans(cfg, login, r.answer);
      var swept := without.(table := SweptBy(without.table, a));
      ShrinkKeepsOk(cfg, without, swept.table);
      forall g | g in h.grants ensures h.grants[g].login != id { assert Earned(cfg, h, h.grants[g]); }
      var g := Grant(id, r.state, login.nonce, verdict.claims);
      assert Earned(cfg, swept, g);
      if a.io.insert {
        GrantKeepsOk(cfg, swept, SessionRow(login, verdict.claims, verdict.raw, r.minted, a.clock.create), g);
      }
    }
  }

  lemma NextCallback(cfg: Config, h: History, a: Arrival)
    requires Ok(cfg, h) && MintedOk(h, a.request) && a.request.Callback?
    ensures Ok(cfg, Next(cfg, h, a))
  {
    var r := a.request;
    if cfg.Enabled() && r.cookie.Some? && a.io.get && r.cookie.value in h.table {
      var row := h.table[r.cookie.value];
      assert Traced(h, r.cookie.value);
      ShrinkKeepsOk(cfg, h, Delete(h.table, row.id));
      if Consumes(cfg, h.table, a) { NextComplete(cfg, h, a); }
    }
  }

  lemma NextKeepsOk(cfg: Config, h: History, a: Arrival)
    requires Ok(cfg, h) && MintedOk(h, a.request)
    ensures Ok(cfg, Next(cfg, h, a))
  {
    match a.request
    case Login(_, _) => NextLogin(cfg, h, a);
    case Callback(_, _, _, _, _) => NextCallback(cfg, h, a);
    case Logout(_, _) => ShrinkKeepsOk(cfg, h, Next(cfg, h, a).table);
    case Whoami(_) =>
  }

  lemma {:induction false} RunKeepsOk(cfg: Config, arrivals: seq<Arrival>)
    requires AllMinted(cfg, arrivals)
    ensures Ok(cfg, Run(cfg, arrivals))
  {
    if arrivals == [] {
    } else {
      var before := arrivals[..|arrivals| - 1];
      forall i | 0 <= i < |before| ensures MintedOk(Run(cfg, before[..i]), before[i].request) {
        assert before[..i] == arrivals[..i];
      }
      RunKeepsOk(cfg, before);
      NextKeepsOk(cfg, Run(cfg, before), arrivals[|arrivals| - 1]);
    }
  }

  // ---------- what every run guarantees ----------

  /**
   Every authenticated row comes from one login row, which was deleted first and matched on
   a non-empty state and nonce, for an identity the allowlist permits.
   */
  lemma SessionIsEarned(cfg: Config, arrivals: seq<Arrival>, id: string)
    requires AllMinted(cfg, arrivals)
    requires id in Run(cfg, arrivals).table && Run(cfg, arrivals).table[id].userSub != ""
    ensures var h := Run(cfg, arrivals);
            && id in h.grants && h.grants[id].claims.sub == h.table[id].userSub
            && h.grants[id].login in h.logins && h.grants[id].login !in h.table
            && h.grants[id].state == h.logins[h.grants[id].login].state != ""
            && h.grants[id].nonce == h.logins[h.grants[id].login].nonce != ""
            && Permits(cfg.allow, h.grants[id].claims.sub, h.grants[id].claims.email, h.grants[id].claims.emailVerified)
  {
    RunKeepsOk(cfg, arrivals);
    var h := Run(cfg, arrivals);
    assert Traced(h, id);
    assert id in h.logins ==> IsLoginRow(h.logins[id]);
    assert Earned(cfg, h, h.grants[id]);
  }

  /** No login row is consumed by two callbacks. */
  lemma LoginsAreSingleUse(cfg: Config, arrivals: seq<Arrival>, id: string, other: string)
    requires AllMinted(cfg, arrivals)
    requires id in Run(cfg, arrivals).grants && other in Run(cfg, arrivals).grants
    ensures Run(cfg, arrivals).grants[id].login == Run(cfg, arrivals).grants[other].login ==> id == other
  {
    RunKeepsOk(cfg, arrivals);
  }

  /** No row is in both phases, and every stored return path is on this site. */
  lemma PhasesAreDisjoint(cfg: Config, arrivals: seq<Arrival>, id: string)
    requires AllMinted(cfg, arrivals) && id in Run(cfg, arrivals).table
    ensures var row := Run(cfg, arrivals).table[id]; (row.state == "" || row.userSub == "") && SameSite(row.returnTo)
  {
    RunKeepsOk(cfg, arrivals);
    assert Traced(Run(cfg, arrivals), id);
  }

  /** The callback redirects only to the return path of the row it consumed. */
  lemma CallbackRedirect(cfg: Config, table: Table, a: Arrival)
    requires a.request.Callback? && HandleCallback(cfg, table, a, true).1.body.Redirect?
    ensures a.request.cookie.Some? && a.request.cookie.value in table
    ensures HandleCallback(cfg, table, a, true).1.body.path == table[a.request.cookie.value].returnTo
  {
  }

  lemma RedirectSameSite(cfg: Config, table: Table, a: Arrival)
    requires forall id :: id in table ==> SameSite(table[id].returnTo)
    ensures var response := Handle(cfg, table, a, true).1;
            response.body.Redirect? ==> SameSite(response.body.path)
  {
    match a.request
    case Callback(_, _, _, _, _) =>
      if HandleCallback(cfg, table, a, true).1.body.Redirect? { CallbackRedirect(cfg, table, a); }
    case Logout(_, _) => assert SameSite("/admin");
    case _ =>
  }

  /** Every redirect a handler answers with, after any run, stays on this site. */
  lemma RedirectsStayOnSite(cfg: Config, arrivals: seq<Arrival>, a: Arrival)
    requires AllMinted(cfg, arrivals)
    ensures var response := Handle(cfg, Run(cfg, arrivals).table, a, true).1;
            response.body.Redirect? ==> SameSite(response.body.path)
  {
    var table := Run(cfg, arrivals).table;
    forall id | id in table ensures SameSite(table[id].returnTo) {
      PhasesAreDisjoint(cfg, arrivals, id);
    }
    RedirectSameSite(cfg, table, a);
  }
}
