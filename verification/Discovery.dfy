/**
 What the SearXNG source keeps of its finds. Canonical URLs and relevance scores are
 functions of the find; an empty canonical URL means the URL is not valid.
 */
module Discovery {
  import opened Text
  import opened Model
  import opened Timestamps
  import opened Candidates
  import opened Dedupe

  type Canon = string -> string

  /** Candidates are the same find when their canonical URLs are the same. */
  function ByUrl(canon: Canon): Rule<Candidate> {
    Rule((c: Candidate) => c.(url := canon(c.url)), (c: Candidate) => c.url)
  }

  // ---------- SearXNG ----------

  datatype Hit = Hit(title: string, url: string, content: string)

  /** One query's reply; engines that did not respond are listed with their reasons. */
  datatype Reply =
    | NoReply
    | Reply(statusOk: bool, jsonType: bool, decoded: bool, unresponsive: seq<seq<string>>, hits: seq<Hit>)

  const MAX_RESULTS := 40

  predicate Usable(r: Reply) {
    r.Reply? && r.statusOk && r.jsonType && r.decoded
  }

  predicate NamesAnEngine(unresponsive: seq<seq<string>>) {
    exists i :: 0 <= i < |unresponsive| && unresponsive[i] != []
  }

  /** Something to complain about was recorded for the reply. */
  predicate Flawed(r: Reply) {
    !Usable(r) || NamesAnEngine(r.unresponsive)
  }

  predicate AnyFlawed(replies: seq<Reply>) {
    exists i :: 0 <= i < |replies| && Flawed(replies[i])
  }

  lemma NextFlawed(replies: seq<Reply>, i: nat)
    requires i < |replies|
    ensures AnyFlawed(replies[..i + 1]) <==> AnyFlawed(replies[..i]) || Flawed(replies[i])
  {
    var before, after := replies[..i], replies[..i + 1];
    assert forall k :: 0 <= k < i ==> before[k] == after[k];
    assert after[i] == replies[i];
  }

  datatype Query = Query(score: Hit -> int, canon: Canon, now: Time)

  function HitLead(h: Hit, q: Query): Candidate {
    Lead("searxng-discovery", h.title, h.url, h.content, q.score(h), q.now)
  }

  /** The relevant hits as leads. */
  function Relevant(hits: seq<Hit>, q: Query): seq<Candidate> {
    if hits == [] then []
    else
      var before := Relevant(hits[..|hits| - 1], q);
      if q.score(hits[|hits| - 1]) < 2 then before else before + [HitLead(hits[|hits| - 1], q)]
  }

  /** All hits of the usable replies, in order. */
  function UsableHits(replies: seq<Reply>): seq<Hit> {
    if replies == [] then []
    else
      var r := replies[|replies| - 1];
      UsableHits(replies[..|replies| - 1]) + if Usable(r) then r.hits else []
  }

  /** All relevant finds, one for each URL. */
  function Found(hits: seq<Hit>, q: Query): seq<Candidate> {
    FirstOfEach(Relevant(hits, q), ByUrl(q.canon))
  }

  lemma {:induction false} RelevantAreLeads(hits: seq<Hit>, q: Query)
    ensures AllLeads(Relevant(hits, q))
  {
    if hits == [] {
    } else {
      RelevantAreLeads(hits[..|hits| - 1], q);
    }
  }

  /** A canonical URL is put into a lead without touching anything else. */
  lemma LeadsStayLeads(cs: seq<Candidate>, canon: Canon)
    requires AllLeads(cs)
    ensures AllLeads(FirstOfEach(cs, ByUrl(canon)))
  {
    FirstOfEachKeeps(cs, ByUrl(canon), c => IsLead(c));
  }

  function Shorten(cs: seq<Candidate>): seq<Candidate> {
    if |cs| <= MAX_RESULTS then cs else cs[..MAX_RESULTS]
  }

  lemma FoundSnoc(hits: seq<Hit>, h: Hit, q: Query)
    ensures Found(hits + [h], q)
            == if q.score(h) < 2 then Found(hits, q) else Add(Found(hits, q), HitLead(h, q), ByUrl(q.canon))
  {
    assert (hits + [h])[..|hits|] == hits;
    FirstOfEachSnoc(Relevant(hits, q), HitLead(h, q), ByUrl(q.canon));
  }

  lemma {:induction false} RelevantConcat(hits: seq<Hit>, more: seq<Hit>, q: Query)
    ensures Relevant(hits + more, q) == Relevant(hits, q) + Relevant(more, q)
  {
    if more == [] {
      assert hits + more == hits;
    } else {
      var n := |more| - 1;
      RelevantConcat(hits, more[..n], q);
      assert (hits + more)[..|hits + more| - 1] == hits + more[..n];
    }
  }

  lemma FoundGrows(hits: seq<Hit>, more: seq<Hit>, q: Query)
    ensures Found(hits, q) <= Found(hits + more, q)
  {
    RelevantConcat(hits, more, q);
    FirstOfEachGrows(Relevant(hits, q), Relevant(more, q), ByUrl(q.canon));
  }

  lemma {:induction false} UsableHitsGrow(replies: seq<Reply>, i: nat)
    requires i <= |replies|
    ensures UsableHits(replies[..i]) <= UsableHits(replies)
  {
    if i == |replies| {
      assert replies[..i] == replies;
    } else {
      var before := replies[..|replies| - 1];
      UsableHitsGrow(before, i);
      assert before[..i] == replies[..i];
    }
  }

  lemma NextHits(replies: seq<Reply>, i: nat)
    requires i < |replies|
    ensures var before := UsableHits(replies[..i]);
            UsableHits(replies[..i + 1]) == if Usable(replies[i]) then before + replies[i].hits else before
  {
    assert replies[..i + 1][..i] == replies[..i];
  }

  /** Once the limit is reached, later hits change nothing. */
  lemma LimitReached(hits: seq<Hit>, all: seq<Hit>, q: Query)
    requires hits <= all && |Shorten(Found(hits, q))| == MAX_RESULTS
    ensures Shorten(Found(all, q)) == Shorten(Found(hits, q))
  {
    FoundGrows(hits, all[|hits|..], q);
    assert hits + all[|hits|..] == all;
  }

  lemma StopsAtLimit(replies: seq<Reply>, i: nat, q: Query)
    requires i < |replies| && Usable(replies[i])
    requires |Shorten(Found(UsableHits(replies[..i]) + replies[i].hits, q))| == MAX_RESULTS
    ensures Shorten(Found(UsableHits(replies), q)) == Shorten(Found(UsableHits(replies[..i]) + replies[i].hits, q))
  {
    NextHits(replies, i);
    UsableHitsGrow(replies, i + 1);
    LimitReached(UsableHits(replies[..i]) + replies[i].hits, UsableHits(replies), q);
  }

  lemma FoundAreLeads(hits: seq<Hit>, q: Query)
    ensures AllLeads(Shorten(Found(hits, q)))
  {
    RelevantAreLeads(hits, q);
    LeadsStayLeads(Relevant(hits, q), q.canon);
  }

  // ---------- what is kept, hit by hit ----------

  /** A hit that counts: relevant, and with a valid URL. */
  predicate Counts(h: Hit, q: Query) {
    q.score(h) >= 2 && q.canon(h.url) != ""
  }

  /** Nothing of what a page check or a review would fill in. */
  predicate IsBare(c: Candidate) {
    && c.status == NoStatus && c.verification == NoVerification && c.eventTitle == "" && c.startTime == ZERO_TIME
    && c.endTime == ZERO_TIME && c.location == "" && c.description == "" && c.evidenceUrl == ""
    && c.dateEvidence == "" && c.locationEvidence == "" && c.confidence == "" && c.lastError == ""
    && c.verifiedAt == None && c.reviewedAt == None && c.reviewNote == ""
  }

  /** The candidate that a hit makes. */
  predicate MadeOf(c: Candidate, h: Hit, q: Query) {
    && c.source == "searxng-discovery" && c.title == h.title && c.snippet == h.content
    && c.url == q.canon(h.url) && c.score == q.score(h) && c.discovered == q.now && IsBare(c)
  }

  ghost predicate PickedAt(hits: seq<Hit>, q: Query, c: Candidate, at: nat) {
    && at < |hits| && Counts(hits[at], q) && MadeOf(c, hits[at], q)
    && forall i :: 0 <= i < at && Counts(hits[i], q) ==> q.canon(hits[i].url) != c.url
  }

  /** The candidates are those of the hits at some ascending positions, each the first that counts with its URL. */
  ghost predicate Picks(hits: seq<Hit>, q: Query, cs: seq<Candidate>, at: seq<nat>) {
    |at| == |cs| && Ascending(at) && forall j :: 0 <= j < |cs| ==> PickedAt(hits, q, cs[j], at[j])
  }

  /** Each hit that counts is represented under its URL. */
  ghost predicate Represented(hits: seq<Hit>, q: Query, cs: seq<Candidate>) {
    forall i :: 0 <= i < |hits| && Counts(hits[i], q) ==> exists j :: 0 <= j < |cs| && cs[j].url == q.canon(hits[i].url)
  }

  lemma PickedGrows(hits: seq<Hit>, h: Hit, q: Query, c: Candidate, at: nat)
    requires PickedAt(hits, q, c, at)
    ensures PickedAt(hits + [h], q, c, at)
  {
    var all := hits + [h];
    assert all[at] == hits[at] && forall i :: 0 <= i < at ==> all[i] == hits[i];
  }

  lemma PicksGrow(hits: seq<Hit>, h: Hit, q: Query, cs: seq<Candidate>, at: seq<nat>)
    requires Picks(hits, q, cs, at)
    ensures Picks(hits + [h], q, cs, at)
  {
    forall j | 0 <= j < |cs| ensures PickedAt(hits + [h], q, cs[j], at[j]) {
      PickedGrows(hits, h, q, cs[j], at[j]);
    }
  }

  /** A hit whose URL is not represented yet is picked. */
  lemma PickedNew(hits: seq<Hit>, h: Hit, q: Query, cs: seq<Candidate>, c: Candidate)
    requires Represented(hits, q, cs) && Counts(h, q) && MadeOf(c, h, q)
    requires forall j :: 0 <= j < |cs| ==> cs[j].url != c.url
    ensures PickedAt(hits + [h], q, c, |hits|)
  {
    var all := hits + [h];
    assert all[|hits|] == h && forall i :: 0 <= i < |hits| ==> all[i] == hits[i];
  }

  lemma RepresentedGrows(hits: seq<Hit>, h: Hit, q: Query, cs: seq<Candidate>, more: seq<Candidate>)
    requires Represented(hits, q, cs) && cs <= more
    requires Counts(h, q) ==> exists j :: 0 <= j < |more| && more[j].url == q.canon(h.url)
    ensures Represented(hits + [h], q, more)
  {
    var all := hits + [h];
    forall i | 0 <= i < |all| && Counts(all[i], q)
      ensures exists j :: 0 <= j < |more| && more[j].url == q.canon(all[i].url)
    {
      if i < |hits| {
        assert all[i] == hits[i];
        var j :| 0 <= j < |cs| && cs[j].url == q.canon(hits[i].url);
        assert more[j] == cs[j];
      }
    }
  }

  /** What one more hit adds. */
  lemma AddHit(kept: seq<Candidate>, h: Hit, q: Query)
    ensures var added, c := Add(kept, HitLead(h, q), ByUrl(q.canon)), HitLead(h, q).(url := q.canon(h.url));
            && (added == kept || added == kept + [c]) && (Counts(h, q) ==> MadeOf(c, h, q))
            && (added == kept <==> q.canon(h.url) == "" || exists j :: 0 <= j < |kept| && kept[j].url == q.canon(h.url))
  {
    var added := Add(kept, HitLead(h, q), ByUrl(q.canon));
    assert q.canon(h.url) in Keys(kept, ByUrl(q.canon))
           <==> exists j :: 0 <= j < |kept| && kept[j].url == q.canon(h.url);
    assert kept + [HitLead(h, q).(url := q.canon(h.url))] != kept;
  }

  lemma NextPick(hits: seq<Hit>, h: Hit, q: Query, cs: seq<Candidate>, at: seq<nat>) returns (more: seq<nat>)
    requires Picks(hits, q, cs, at) && Represented(hits, q, cs) && q.score(h) >= 2
    ensures Picks(hits + [h], q, Add(cs, HitLead(h, q), ByUrl(q.canon)), more)
    ensures Represented(hits + [h], q, Add(cs, HitLead(h, q), ByUrl(q.canon)))
  {
    var added, c := Add(cs, HitLead(h, q), ByUrl(q.canon)), HitLead(h, q).(url := q.canon(h.url));
    AddHit(cs, h, q);
    PicksGrow(hits, h, q, cs, at);
    more := at;
    if added != cs {
      PickedNew(hits, h, q, cs, c);
      more := at + [|hits|];
      assert added[|cs|] == c;
    }
    RepresentedGrows(hits, h, q, cs, added);
  }

  lemma {:induction false} FoundPicks(hits: seq<Hit>, q: Query) returns (at: seq<nat>)
    ensures Picks(hits, q, Found(hits, q), at) && Represented(hits, q, Found(hits, q))
  {
    if hits == [] {
      at := [];
    } else {
      var before, h := hits[..|hits| - 1], hits[|hits| - 1];
      assert hits == before + [h];
      at := FoundPicks(before, q);
      FoundSnoc(before, h, q);
      if q.score(h) < 2 {
        PicksGrow(before, h, q, Found(before, q), at);
        RepresentedGrows(before, h, q, Found(before, q), Found(before, q));
      } else {
        at := NextPick(before, h, q, Found(before, q), at);
      }
    }
  }

  /**
   What the search returns, hit by hit: at most forty candidates, each made of the first hit
   of a usable reply that is relevant and has its URL, in the order of the hits; and when there
   are fewer than forty, no URL of such a hit is missing.
   */
  lemma SearxPicks(replies: seq<Reply>, q: Query) returns (at: seq<nat>)
    ensures var hits, found := UsableHits(replies), Shorten(Found(UsableHits(replies), q));
            |found| <= 40 && Picks(hits, q, found, at) && (|found| < 40 ==> Represented(hits, q, found))
  {
    at := FoundPicks(UsableHits(replies), q);
    at := at[..|Shorten(Found(UsableHits(replies), q))|];
  }

  /** The hits of a reply count if it came with a good status, as JSON, and could be decoded. */
  lemma HitsOfOne(r: Reply)
    ensures UsableHits([r]) == if r.Reply? && r.statusOk && r.jsonType && r.decoded then r.hits else []
  {
    assert [r][..0] == [];
  }

  lemma HitsOfNext(replies: seq<Reply>, r: Reply)
    ensures UsableHits(replies + [r]) == UsableHits(replies) + UsableHits([r])
  {
    HitsOfOne(r);
    assert (replies + [r])[..|replies|] == replies;
  }

  lemma HitsJoin(a: seq<Hit>, b: seq<Hit>, c: seq<Hit>)
    ensures (a + b) + c == a + (b + c)
  {
  }

  lemma JoinReplies(a: seq<Reply>, b: seq<Reply>, r: Reply)
    ensures a + (b + [r]) == (a + b) + [r]
  {
  }

  lemma HitsConcatNext(a: seq<Reply>, b: seq<Reply>, r: Reply)
    requires UsableHits(a + b) == UsableHits(a) + UsableHits(b)
    ensures UsableHits(a + (b + [r])) == UsableHits(a) + UsableHits(b + [r])
  {
    HitsOfNext(a + b, r);
    HitsOfNext(b, r);
    JoinReplies(a, b, r);
    HitsJoin(UsableHits(a), UsableHits(b), UsableHits([r]));
  }

  /** And they are taken reply by reply. */
  lemma {:induction false} UsableHitsConcat(a: seq<Reply>, b: seq<Reply>)
    ensures UsableHits(a + b) == UsableHits(a) + UsableHits(b)
    decreases |b|
  {
    if b == [] {
      assert a + b == a;
    } else {
      var n := |b| - 1;
      assert b == b[..n] + [b[n]];
      UsableHitsConcat(a, b[..n]);
      HitsConcatNext(a, b[..n], b[n]);
    }
  }

  /** A reply that did not come, came with a bad status, not as JSON or undecodable, or names an engine that failed. */
  predicate WentWrong(r: Reply) {
    || r == NoReply || !r.statusOk || !r.jsonType || !r.decoded
    || exists k :: 0 <= k < |r.unresponsive| && |r.unresponsive[k]| > 0
  }

  lemma SearxFlaws(replies: seq<Reply>)
    ensures AnyFlawed(replies) <==> exists i :: 0 <= i < |replies| && WentWrong(replies[i])
  {
    forall i | 0 <= i < |replies| ensures Flawed(replies[i]) <==> WentWrong(replies[i]) {}
  }

  method RecordsFailure(unresponsive: seq<seq<string>>) returns (any: bool)
    ensures any <==> NamesAnEngine(unresponsive)
  {
    any := false;
    for i := 0 to |unresponsive|
      invariant any <==> exists k :: 0 <= k < i && unresponsive[k] != []
    {
      if unresponsive[i] != [] {
        any := true;
      }
    }
  }

  /** The loop over one reply's hits; it stops at the limit. */
  method TakeHits(hits: seq<Hit>, q: Query, before: seq<Candidate>, ghost earlier: seq<Hit>)
    returns (candidates: seq<Candidate>)
    requires before == Found(earlier, q) && |before| < MAX_RESULTS
    ensures candidates == Shorten(Found(earlier + hits, q))
  {
    candidates := before;
    assert earlier + hits[..0] == earlier;
    for j := 0 to |hits|
      invariant candidates == Found(earlier + hits[..j], q) && |candidates| < MAX_RESULTS
    {
      var hit := hits[j];
      assert earlier + hits[..j + 1] == earlier + hits[..j] + [hit];
      FoundSnoc(earlier + hits[..j], hit, q);
      var url := q.canon(hit.url);
      if q.score(hit) < 2 || url == "" || url in Keys(candidates, ByUrl(q.canon)) {
        continue;
      }
      candidates := candidates + [HitLead(hit, q).(url := url)];
      if |candidates| >= MAX_RESULTS {
        LimitReached(earlier + hits[..j + 1], earlier + hits, q);
        return;
      }
    }
    assert hits[..|hits|] == hits;
  }

  /**
   SearXNGSource.Fetch past the requests: the first forty relevant finds, one for each
   canonical URL; an error (None) exactly when there is none and something went wrong.
   */
  method FetchSearx(replies: seq<Reply>, q: Query) returns (result: Option<seq<Candidate>>)
    ensures var found := Shorten(Found(UsableHits(replies), q));
            && (result.None? <==> found == [] && AnyFlawed(replies))
            && (result.Some? ==> result.value == found)
    ensures result.Some? ==> AllLeads(result.value)
  {
    FoundAreLeads(UsableHits(replies), q);
    var candidates: seq<Candidate>, failed := [], false;
    for i := 0 to |replies|
      invariant candidates == Found(UsableHits(replies[..i]), q) && |candidates| < MAX_RESULTS
      invariant failed <==> AnyFlawed(replies[..i])
    {
      var reply := replies[i];
      NextHits(replies, i);
      NextFlawed(replies, i);
      if reply.NoReply? || !reply.statusOk || !reply.jsonType || !reply.decoded {
        failed := true;
        continue;
      }
      var flawed := RecordsFailure(reply.unresponsive);
      failed := failed || flawed;
      candidates := TakeHits(reply.hits, q, candidates, UsableHits(replies[..i]));
      if |candidates| >= MAX_RESULTS {
        StopsAtLimit(replies, i, q);
        return Some(candidates);
      }
    }
    assert replies[..|replies|] == replies;
    if candidates == [] && failed {
      return None;
    }
    result := Some(candidates);
  }

  // ---------- Gemini ----------

  /** What the discovery queries found, all together; None is a query that failed. */
  function AllFound(answers: seq<Option<seq<Candidate>>>): seq<Candidate> {
    if answers == [] then []
    else
      var last := answers[|answers| - 1];
      AllFound(answers[..|answers| - 1]) + if last.Some? then last.value else []
  }

  lemma FindsOfOne(cs: seq<Candidate>)
    ensures AllFound([Some(cs)]) == cs
  {
    assert [Some(cs)][..0] == [];
  }

  lemma FindsOfNext(answers: seq<Option<seq<Candidate>>>, answer: Option<seq<Candidate>>)
    ensures AllFound(answers + [answer]) == AllFound(answers) + if answer.Some? then answer.value else []
  {
    assert (answers + [answer])[..|answers|] == answers;
  }

  lemma FindsJoin(a: seq<Candidate>, b: seq<Candidate>, c: seq<Candidate>)
    ensures (a + b) + c == a + (b + c)
  {
  }

  lemma FindsConcatNext(a: seq<Option<seq<Candidate>>>, b: seq<Option<seq<Candidate>>>, last: Option<seq<Candidate>>)
    requires AllFound(a + b) == AllFound(a) + AllFound(b)
    ensures AllFound(a + (b + [last])) == AllFound(a) + AllFound(b + [last])
  {
    FindsOfNext(a + b, last);
    FindsOfNext(b, last);
    assert a + (b + [last]) == (a + b) + [last];
    FindsJoin(AllFound(a), AllFound(b), if last.Some? then last.value else []);
  }

  /** The finds of one query after those of another. */
  lemma {:induction false} AllFoundConcat(a: seq<Option<seq<Candidate>>>, b: seq<Option<seq<Candidate>>>)
    ensures AllFound(a + b) == AllFound(a) + AllFound(b)
    decreases |b|
  {
    if b == [] {
      assert a + b == a;
    } else {
      var n := |b| - 1;
      assert b == b[..n] + [b[n]];
      AllFoundConcat(a, b[..n]);
      FindsConcatNext(a, b[..n], b[n]);
    }
  }

  /** Every discovery query that succeeds finds leads. */
  predicate FindLeads(answers: seq<Option<seq<Candidate>>>) {
    forall i :: 0 <= i < |answers| && answers[i].Some? ==> AllLeads(answers[i].value)
  }

  lemma {:induction false} AllFoundAreLeads(answers: seq<Option<seq<Candidate>>>)
    requires FindLeads(answers)
    ensures AllLeads(AllFound(answers))
  {
    if answers == [] {
    } else {
      AllFoundAreLeads(answers[..|answers| - 1]);
    }
  }

  /** GeminiSource.Fetch past the requests: one failed query fails it, else the first find of each canonical URL. */
  method FetchGemini(enabled: bool, answers: seq<Option<seq<Candidate>>>, canon: Canon)
    returns (result: Option<seq<Candidate>>)
    ensures result.None? <==> enabled && None in answers
    ensures result.Some? ==> result.value == if enabled then FirstOfEach(AllFound(answers), ByUrl(canon)) else []
    ensures result.Some? && FindLeads(answers) ==> AllLeads(result.value)
  {
    if FindLeads(answers) {
      AllFoundAreLeads(answers);
      LeadsStayLeads(AllFound(answers), canon);
    }
    if !enabled {
      return Some([]);
    }
    var candidates: seq<Candidate> := [];
    for i := 0 to |answers|
      invariant candidates == AllFound(answers[..i])
      invariant None !in answers[..i]
    {
      assert answers[..i + 1][..i] == answers[..i];
      if answers[i].None? {
        return None;
      }
      candidates := candidates + answers[i].value;
    }
    assert answers[..|answers|] == answers;
    var backing := new Candidate[|candidates|](i requires 0 <= i < |candidates| => candidates[i]);
    assert backing[..] == candidates;
    var kept := Compact(backing, ByUrl(canon));
    result := Some(backing[..kept]);
  }
}
