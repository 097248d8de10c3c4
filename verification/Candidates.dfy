/**
 Candidates in and out of the table, verification by its contract, and the publish gate.
 */
module Candidates {
  import opened Text
  import opened Model
  import opened Timestamps
  import opened CandidateRows

  /** A candidate as a discovery source hands it over: nothing verified, nothing reviewed. */
  function Lead(source: string, title: string, url: string, snippet: string, score: int, discovered: Time): Candidate {
    Candidate(source, title, url, snippet, score, discovered, NoStatus, NoVerification,
              "", ZERO_TIME, ZERO_TIME, "", "", "", "", "", "", "", None, None, "")
  }

  predicate IsLead(c: Candidate) {
    c == Lead(c.source, c.title, c.url, c.snippet, c.score, c.discovered)
  }

  predicate AllLeads(cs: seq<Candidate>) {
    forall i :: 0 <= i < |cs| ==> IsLead(cs[i])
  }

  // ---------- columns ----------

  function FormatOptional(t: Time): string {
    if IsZero(t) then "" else Format(t)
  }

  function FormatOptionalPtr(t: Option<Time>): Option<string> {
    match t
    case None => None
    case Some(value) => Some(Format(value))
  }

  /** The row UpsertCandidate inserts, with the defaults it fills in. */
  function EncodeCandidate(c: Candidate, now: Time): CandidateRow {
    CandidateRow(c.source, c.url, c.title, c.snippet, c.score,
                 Format(if IsZero(c.discovered) then now else c.discovered),
                 if c.status == NoStatus then Pending else c.status,
                 if c.verification == NoVerification then Unverified else c.verification,
                 c.eventTitle, FormatOptional(c.startTime), FormatOptional(c.endTime), c.location, c.description,
                 c.evidenceUrl, c.dateEvidence, c.locationEvidence, c.confidence, c.lastError,
                 FormatOptionalPtr(c.verifiedAt), FormatOptionalPtr(c.reviewedAt), c.reviewNote)
  }

  /** UPDATE candidates SET: every column but source, url, snippet, score and discovered_at. */
  function Overwrite(row: CandidateRow, c: Candidate): CandidateRow {
    row.(title := c.title, status := if c.status == NoStatus then Pending else c.status, verification := c.verification,
         eventTitle := c.eventTitle, startTime := FormatOptional(c.startTime), endTime := FormatOptional(c.endTime),
         location := c.location, description := c.description, evidenceUrl := c.evidenceUrl,
         dateEvidence := c.dateEvidence, locationEvidence := c.locationEvidence, confidence := c.confidence,
         lastError := c.lastError, verifiedAt := FormatOptionalPtr(c.verifiedAt),
         reviewedAt := FormatOptionalPtr(c.reviewedAt), reviewNote := c.reviewNote)
  }

  /** A row whose verified_at or reviewed_at does not parse cannot be loaded. */
  predicate Readable(row: CandidateRow) {
    && (row.verifiedAt.Some? ==> ParseSecond(row.verifiedAt.value).Some?)
    && (row.reviewedAt.Some? ==> ParseSecond(row.reviewedAt.value).Some?)
  }

  function ParsePtr(s: Option<string>): Option<Time> {
    match s
    case None => None
    case Some(text) => Some(ParseOrZero(text))
  }

  /** What scanning a row yields: a start or end that does not parse becomes the zero time. */
  function DecodeCandidate(row: CandidateRow): Candidate {
    Candidate(row.source, row.title, row.url, row.snippet, row.score, ParseOrZero(row.discoveredAt), row.status,
              row.verification, row.eventTitle, ParseOrZero(row.startTime), ParseOrZero(row.endTime), row.location,
              row.description, row.evidenceUrl, row.dateEvidence, row.locationEvidence, row.confidence, row.lastError,
              ParsePtr(row.verifiedAt), ParsePtr(row.reviewedAt), row.reviewNote)
  }

  // ---------- verification ----------

  /** What the page check answers; the URL is already in canonical form, empty when invalid. */
  datatype Answer =
    | RequestFailed(error: string)
    | NotSpecific(reason: string)
    | Page(title: string, start: Option<Time>, end: Option<Time>, location: string, url: string,
           dateEvidence: string, locationEvidence: string, confidence: string)

  datatype Outcome = NotAsked | Asked(answer: Answer, now: Time, finished: Time)

  /** The first check of verify that fails, in its order. */
  datatype Refusal = Request(error: string) | Unspecific(reason: string) | NoStart | Past | Incomplete

  function Check(answer: Answer, now: Time): Option<Refusal> {
    match answer
    case RequestFailed(error) => Some(Request(error))
    case NotSpecific(reason) => Some(Unspecific(reason))
    case Page(title, start, _, location, url, date, place, _) =>
      if start.None? then Some(NoStart)
      else if !(start.value > now) then Some(Past)
      else if title == "" || location == "" || url == "" || date == "" || place == "" then Some(Incomplete)
      else None
  }

  function RefusalText(r: Refusal): string {
    match r
    case Request(error) => error
    case Unspecific(reason) => "not a specific event: " + reason
    case NoStart => "invalid verified start time"
    case Past => "verified event is not in the future"
    case Incomplete => "verified event is missing specific date, location, URL, or evidence"
  }

  /** VerifyCandidate, with the clock readings of its future check and of its success. */
  function Verify(c: Candidate, outcome: Outcome): Candidate {
    if outcome.NotAsked? then c
    else
      var refusal := Check(outcome.answer, outcome.now);
      if refusal.Some? then c.(verification := Failed, lastError := RefusalText(refusal.value))
      else
        var p := outcome.answer;
        c.(eventTitle := p.title, startTime := p.start.value, endTime := if p.end.Some? then p.end.value else ZERO_TIME,
           location := p.location, evidenceUrl := p.url, dateEvidence := p.dateEvidence,
           locationEvidence := p.locationEvidence, confidence := p.confidence, verification := Verified,
           verifiedAt := Some(outcome.finished), lastError := "")
  }

  predicate Succeeded(outcome: Outcome) {
    outcome.Asked? && Check(outcome.answer, outcome.now).None?
  }

  function EvidenceFrom(c: Candidate): Evidence {
    Evidence(c.eventTitle, FormatOptional(c.startTime), c.location, c.evidenceUrl, c.dateEvidence, c.locationEvidence)
  }

  /** The clock runs after 1970. */
  predicate ClockOk(outcome: Outcome) {
    outcome.Asked? ==> outcome.now >= EPOCH * NANOS
  }

  lemma FormatNotEmpty(t: Time)
    ensures Format(t) != ""
    ensures FormatOptional(t) == "" <==> IsZero(t)
  {
  }

  /**
   The contract of verification on a fresh lead: either all six evidence fields, a start in
   the future and the verified mark, or none of them and a mark that is not verified.
   */
  lemma VerifyContract(lead: Candidate, outcome: Outcome)
    requires IsLead(lead) && ClockOk(outcome)
    ensures var c := Verify(lead, outcome);
            if Succeeded(outcome)
            then EvidenceFrom(c).Complete() && c.startTime > outcome.now && c.verification == Verified
            else EvidenceFrom(c).Empty() && c.verification != Verified && c.verifiedAt == None
    ensures Verify(lead, outcome).status == NoStatus && Verify(lead, outcome).url == lead.url
  {
    var c := Verify(lead, outcome);
    FormatNotEmpty(c.startTime);
  }

  /** What the page check must find: one specific, complete page with a start that lies ahead. */
  predicate Acceptable(answer: Answer, now: Time) {
    && answer.Page? && answer.start.Some? && answer.start.value > now
    && answer.title != "" && answer.location != "" && answer.url != ""
    && answer.dateEvidence != "" && answer.locationEvidence != ""
  }

  /** A candidate with what a page says of it, checked at a time. */
  predicate Holds(v: Candidate, page: Answer, finished: Time)
    requires page.Page?
  {
    && v.verification == Verified && v.lastError == "" && v.verifiedAt == Some(finished)
    && v.eventTitle == page.title && Some(v.startTime) == page.start && v.location == page.location
    && v.endTime == (match page.end case Some(end) => end case None => ZERO_TIME)
    && v.evidenceUrl == page.url && v.dateEvidence == page.dateEvidence
    && v.locationEvidence == page.locationEvidence && v.confidence == page.confidence
  }

  /** How a find was come by and how it was reviewed; a page check has no part in that. */
  predicate SameFind(v: Candidate, c: Candidate) {
    && v.source == c.source && v.title == c.title && v.url == c.url && v.snippet == c.snippet && v.score == c.score
    && v.discovered == c.discovered && v.status == c.status && v.description == c.description
    && v.reviewedAt == c.reviewedAt && v.reviewNote == c.reviewNote
  }

  /** Verification succeeds exactly on acceptable pages and takes over what they say; else it only marks the failure. */
  lemma VerifyExactly(c: Candidate, outcome: Outcome)
    ensures var v := Verify(c, outcome);
            && SameFind(v, c)
            && (outcome.NotAsked? ==> v == c)
            && (outcome.Asked? && Acceptable(outcome.answer, outcome.now) ==>
                  Holds(v, outcome.answer, outcome.finished))
            && (outcome.Asked? && !Acceptable(outcome.answer, outcome.now) ==>
                  v == c.(verification := Failed, lastError := v.lastError))
    ensures Succeeded(outcome) <==> outcome.Asked? && Acceptable(outcome.answer, outcome.now)
  {
  }

  /** What the operator is told. */
  lemma FailureIsNamed(c: Candidate, outcome: Outcome)
    requires outcome.Asked?
    ensures var error, answer := Verify(c, outcome).lastError, outcome.answer;
            && (answer.RequestFailed? ==> error == answer.error)
            && (answer.NotSpecific? ==> error == "not a specific event: " + answer.reason)
            && (answer.Page? && answer.start.None? ==> error == "invalid verified start time")
            && (answer.Page? && answer.start.Some? && answer.start.value <= outcome.now ==>
                  error == "verified event is not in the future")
            && (answer.Page? && answer.start.Some? && answer.start.value > outcome.now
                && !Acceptable(answer, outcome.now) ==>
                  error == "verified event is missing specific date, location, URL, or evidence")
  {
  }

  // ---------- the publish gate ----------

  datatype GateError =
    NotVerified | MissingEventTitle | MissingStartTime | InPast | MissingLocation
    | MissingEvidenceUrl | MissingDateEvidence | MissingLocationEvidence

  function Gate(c: Candidate, now: Time): Option<GateError> {
    if c.verification != Verified then Some(NotVerified)
    else if c.eventTitle == "" then Some(MissingEventTitle)
    else if IsZero(c.startTime) then Some(MissingStartTime)
    else if !(c.startTime > now) then Some(InPast)
    else if c.location == "" then Some(MissingLocation)
    else if c.evidenceUrl == "" then Some(MissingEvidenceUrl)
    else if c.dateEvidence == "" then Some(MissingDateEvidence)
    else if c.locationEvidence == "" then Some(MissingLocationEvidence)
    else None
  }

  /** The gate opens exactly for a verified candidate with complete evidence and a later start. */
  lemma GateOpens(c: Candidate, now: Time)
    ensures Gate(c, now).None? <==> c.verification == Verified && EvidenceFrom(c).Complete() && c.startTime > now
  {
    FormatNotEmpty(c.startTime);
  }

  /** The condition that an error of the gate names. */
  predicate Lacks(c: Candidate, now: Time, error: GateError) {
    match error
    case NotVerified => c.verification != Verified
    case MissingEventTitle => c.eventTitle == ""
    case MissingStartTime => c.startTime == ZERO_TIME
    case InPast => c.startTime <= now
    case MissingLocation => c.location == ""
    case MissingEvidenceUrl => c.evidenceUrl == ""
    case MissingDateEvidence => c.dateEvidence == ""
    case MissingLocationEvidence => c.locationEvidence == ""
  }

  /** The order in which the conditions are looked at. */
  function Rank(error: GateError): nat {
    match error
    case NotVerified => 0
    case MissingEventTitle => 1
    case MissingStartTime => 2
    case InPast => 3
    case MissingLocation => 4
    case MissingEvidenceUrl => 5
    case MissingDateEvidence => 6
    case MissingLocationEvidence => 7
  }

  ghost predicate FirstLack(c: Candidate, now: Time, error: GateError) {
    Lacks(c, now, error) && forall other :: Rank(other) < Rank(error) ==> !Lacks(c, now, other)
  }

  lemma AnswerIsFirst(c: Candidate, now: Time)
    requires Gate(c, now).Some?
    ensures FirstLack(c, now, Gate(c, now).value)
  {
  }

  /** The gate names the first condition that fails. */
  lemma GateNamesTheFirst(c: Candidate, now: Time, error: GateError)
    ensures Gate(c, now) == Some(error) <==> FirstLack(c, now, error)
  {
    if Gate(c, now).Some? {
      AnswerIsFirst(c, now);
      assert Rank(error) == Rank(Gate(c, now).value) ==> error == Gate(c, now).value;
    } else {
      assert !Lacks(c, now, error);
    }
  }

  // ---------- pruning ----------

  predicate Prunable(row: CandidateRow, now: Time) {
    && row.status != Approved
    && row.verification == Verified
    && row.startTime != "" && TextLe(row.startTime, Format(now))
  }

  function Prune(table: Table, now: Time): Table {
    map url | url in table && !Prunable(table[url], now) :: table[url]
  }

  /** A row is pruned by the time its start column reads as, if it has one. */
  lemma PruneByTime(row: CandidateRow, now: Time)
    requires (row.startTime == "" || IsStamp(row.startTime)) && InRange(SecondOf(now))
    ensures Prunable(row, now)
            <==> && row.status != Approved && row.verification == Verified
                 && row.startTime != "" && ParseOrZero(row.startTime) <= now
  {
    if row.startTime != "" { StampAfter(row.startTime, now); }
  }

  /** A row can be loaded exactly when the times of its check and its review, if any, are as the store writes them. */
  lemma ReadableExactly(row: CandidateRow)
    ensures Readable(row)
            <==> && (row.verifiedAt.Some? ==> IsStamp(row.verifiedAt.value))
                 && (row.reviewedAt.Some? ==> IsStamp(row.reviewedAt.value))
  {
    if row.verifiedAt.Some? { ParsesStamps(row.verifiedAt.value); }
    if row.reviewedAt.Some? { ParsesStamps(row.reviewedAt.value); }
  }

  // ---------- what survives a load and a write-back ----------

  /**
   A start column that reads back as what was written: empty, or a second of years 0-9999 other
   than the zero time.
   */
  ghost predicate StableStart(s: string) {
    s == "" || (IsStamp(s) && !IsZero(ParseOrZero(s)))
  }

  predicate Storable(start: Time) {
    InRange(SecondOf(start))
  }

  lemma StableReload(s: string)
    requires StableStart(s)
    ensures FormatOptional(ParseOrZero(s)) == s
    ensures s == "" <==> IsZero(ParseOrZero(s))
  {
    if s != "" {
      var second := StampValue(s);
      assert SecondOf(second * NANOS) == second;
    }
  }

  /** A later start is stored so that it reads back, exactly when its UTC year is at most 9999. */
  lemma StoredStart(start: Time)
    requires start > EPOCH * NANOS
    ensures Storable(start) ==> StableStart(FormatOptional(start)) && FormatOptional(start) != ""
    ensures !Storable(start) ==> FormatOptional(start) != "" && IsZero(ParseOrZero(FormatOptional(start)))
  {
    FormatNotEmpty(start);
    ReadBack(SecondOf(start), Format(start));
    if Storable(start) {
      assert SecondOf(start) >= EPOCH;
    }
  }

  // ---------- columns round trip ----------

  lemma OptionalReadBack(t: Time)
    requires InRange(SecondOf(t))
    ensures ParseOrZero(FormatOptional(t)) == WholeSecond(t)
  {
    FormatReadBack(t);
    if IsZero(t) { ZeroReadBack(); }
  }

  lemma ZeroReadBack()
    ensures ParseOrZero("") == WholeSecond(ZERO_TIME) == ZERO_TIME
  {
  }

  lemma PtrReadBack(t: Option<Time>)
    requires t.Some? ==> InRange(SecondOf(t.value))
    ensures ParsePtr(FormatOptionalPtr(t)) == if t.Some? then Some(WholeSecond(t.value)) else None
    ensures t.Some? ==> ParseSecond(FormatOptionalPtr(t).value).Some?
  {
    if t.Some? { FormatReadBack(t.value); }
  }

  predicate TimesInRange(c: Candidate) {
    && InRange(SecondOf(c.startTime)) && InRange(SecondOf(c.endTime)) && InRange(SecondOf(c.discovered))
    && (c.verifiedAt.Some? ==> InRange(SecondOf(c.verifiedAt.value)))
    && (c.reviewedAt.Some? ==> InRange(SecondOf(c.reviewedAt.value)))
  }

  /** What a candidate is after being stored and read back. */
  function Settled(c: Candidate, now: Time): Candidate {
    c.(status := if c.status == NoStatus then Pending else c.status,
       verification := if c.verification == NoVerification then Unverified else c.verification,
       discovered := WholeSecond(if IsZero(c.discovered) then now else c.discovered),
       startTime := WholeSecond(c.startTime), endTime := WholeSecond(c.endTime),
       verifiedAt := if c.verifiedAt.Some? then Some(WholeSecond(c.verifiedAt.value)) else None,
       reviewedAt := if c.reviewedAt.Some? then Some(WholeSecond(c.reviewedAt.value)) else None)
  }

  /** A candidate inserted and loaded again: every field, times to the second, with the defaults filled in. */
  lemma CandidateRoundTrip(c: Candidate, now: Time)
    requires TimesInRange(c) && InRange(SecondOf(now))
    ensures Readable(EncodeCandidate(c, now)) && DecodeCandidate(EncodeCandidate(c, now)) == Settled(c, now)
  {
    OptionalReadBack(c.startTime);
    OptionalReadBack(c.endTime);
    FormatReadBack(if IsZero(c.discovered) then now else c.discovered);
    PtrReadBack(c.verifiedAt);
    PtrReadBack(c.reviewedAt);
  }

  ghost predicate StableColumns(start: string, end: string, verified: Option<string>, reviewed: Option<string>) {
    && StableStart(start) && StableStart(end)
    && (verified.Some? ==> IsStamp(verified.value)) && (reviewed.Some? ==> IsStamp(reviewed.value))
  }

  ghost predicate StableRow(row: CandidateRow) {
    row.status != NoStatus && StableColumns(row.startTime, row.endTime, row.verifiedAt, row.reviewedAt)
  }

  lemma StableStartExactly(s: string)
    ensures StableStart(s) <==> FormatOptional(ParseOrZero(s)) == s
  {
    StampExactly(s);
    ZeroReadBack();
  }

  lemma StablePtrExactly(s: Option<string>)
    ensures (s.Some? ==> IsStamp(s.value)) <==> FormatOptionalPtr(ParsePtr(s)) == s
  {
    if s.Some? { StampExactly(s.value); }
  }

  /** Writing back a candidate as it was loaded changes no column exactly when the row's times read back as they are. */
  lemma WriteBackIsIdentity(row: CandidateRow)
    ensures Overwrite(row, DecodeCandidate(row)) == row <==> StableRow(row)
  {
    StableStartExactly(row.startTime);
    StableStartExactly(row.endTime);
    StablePtrExactly(row.verifiedAt);
    StablePtrExactly(row.reviewedAt);
  }

  /** The zero time, or a second of years 0-9999 that is not the zero time's. */
  predicate StableTime(t: Time) {
    IsZero(t) || (InRange(SecondOf(t)) && SecondOf(t) != ZERO_SECOND)
  }

  ghost predicate StableTimes(c: Candidate) {
    StableColumns(FormatOptional(c.startTime), FormatOptional(c.endTime),
                  FormatOptionalPtr(c.verifiedAt), FormatOptionalPtr(c.reviewedAt))
  }

  lemma StableTimeIsStable(t: Time)
    requires StableTime(t)
    ensures StableStart(FormatOptional(t))
  {
    if !IsZero(t) {
      FormatReadBack(t);
      assert IsStamp(Format(t));
    }
  }

  lemma EncodedStable(c: Candidate, now: Time)
    requires StableTimes(c)
    ensures StableRow(EncodeCandidate(c, now))
  {
  }

  lemma MergedStable(stored: CandidateRow, excluded: CandidateRow)
    requires StableRow(stored) && StableRow(excluded)
    ensures StableRow(Merge(stored, excluded))
  {
  }

  lemma LoadedStable(row: CandidateRow)
    requires StableRow(row)
    ensures StableTimes(DecodeCandidate(row))
  {
    StableStartExactly(row.startTime);
    StableStartExactly(row.endTime);
    StablePtrExactly(row.verifiedAt);
    StablePtrExactly(row.reviewedAt);
  }

  lemma OverwrittenStable(row: CandidateRow, c: Candidate)
    requires StableTimes(c)
    ensures StableRow(Overwrite(row, c))
  {
  }
}
