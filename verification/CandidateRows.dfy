/**
 The candidates table: rows of encoded columns keyed by URL, the per-column merge of a
 re-discovery, and what the six evidence columns of a row look like.
 */
module CandidateRows {
  import opened Text
  import opened Model

  datatype CandidateRow = CandidateRow(
    source: string, url: string, title: string, snippet: string, score: int, discoveredAt: string,
    status: ReviewStatus, verification: Verification,
    eventTitle: string, startTime: string, endTime: string, location: string, description: string,
    evidenceUrl: string, dateEvidence: string, locationEvidence: string, confidence: string, lastError: string,
    verifiedAt: Option<string>, reviewedAt: Option<string>, reviewNote: string)

  type Table = map<string, CandidateRow>

  function FillIfEmpty(stored: string, excluded: string): string {
    if stored == "" then excluded else stored
  }

  /** ON CONFLICT(url) DO UPDATE SET: review columns stay, evidence columns are filled only when empty. */
  function Merge(stored: CandidateRow, excluded: CandidateRow): CandidateRow {
    stored.(source := excluded.source, title := excluded.title, snippet := excluded.snippet, score := excluded.score,
            discoveredAt := excluded.discoveredAt, verification := excluded.verification,
            lastError := excluded.lastError, verifiedAt := excluded.verifiedAt,
            eventTitle := FillIfEmpty(stored.eventTitle, excluded.eventTitle),
            startTime := FillIfEmpty(stored.startTime, excluded.startTime),
            endTime := FillIfEmpty(stored.endTime, excluded.endTime),
            location := FillIfEmpty(stored.location, excluded.location),
            description := FillIfEmpty(stored.description, excluded.description),
            evidenceUrl := FillIfEmpty(stored.evidenceUrl, excluded.evidenceUrl),
            dateEvidence := FillIfEmpty(stored.dateEvidence, excluded.dateEvidence),
            locationEvidence := FillIfEmpty(stored.locationEvidence, excluded.locationEvidence),
            confidence := FillIfEmpty(stored.confidence, excluded.confidence))
  }

  /** Re-discoveries combine: it does not matter how they are grouped, nor whether one is repeated. */
  lemma MergeIsAssociative(a: CandidateRow, b: CandidateRow, c: CandidateRow)
    ensures Merge(Merge(a, b), c) == Merge(a, Merge(b, c))
    ensures Merge(a, a) == a && Merge(Merge(a, b), b) == Merge(a, b)
  {
  }

  function Upsert(table: Table, row: CandidateRow): Table {
    if row.url in table then table[row.url := Merge(table[row.url], row)] else table[row.url := row]
  }

  /** The six columns a successful verification fills together. */
  datatype Evidence = Evidence(
    title: string, start: string, location: string, url: string, date: string, place: string) {
    predicate Empty() {
      title == "" && start == "" && location == "" && url == "" && date == "" && place == ""
    }

    predicate Complete() {
      title != "" && start != "" && location != "" && url != "" && date != "" && place != ""
    }
  }

  function EvidenceOf(row: CandidateRow): Evidence {
    Evidence(row.eventTitle, row.startTime, row.location, row.evidenceUrl, row.dateEvidence, row.locationEvidence)
  }

  /** The six columns are all empty or those of one finding; a verified row has a finding. */
  predicate Intact(row: CandidateRow, found: set<Evidence>) {
    && (EvidenceOf(row).Empty() || EvidenceOf(row) in found)
    && (row.verification == Verified ==> EvidenceOf(row) in found)
  }

  predicate AllIntact(table: Table, found: set<Evidence>) {
    forall url :: url in table ==> Intact(table[url], found)
  }

  predicate AllComplete(found: set<Evidence>) {
    forall e :: e in found ==> e.Complete()
  }

  /** Filling empty columns never mixes two findings. */
  lemma MergeKeepsIntact(stored: CandidateRow, excluded: CandidateRow, found: set<Evidence>)
    requires Intact(stored, found) && Intact(excluded, found) && AllComplete(found)
    ensures Intact(Merge(stored, excluded), found)
    ensures EvidenceOf(stored) in found ==> EvidenceOf(Merge(stored, excluded)) == EvidenceOf(stored)
  {
    if EvidenceOf(stored).Empty() {
      assert EvidenceOf(Merge(stored, excluded)) == EvidenceOf(excluded);
    } else {
      assert EvidenceOf(stored).Complete();
      assert EvidenceOf(Merge(stored, excluded)) == EvidenceOf(stored);
    }
  }

  lemma UpsertKeepsIntact(table: Table, row: CandidateRow, found: set<Evidence>)
    requires AllIntact(table, found) && Intact(row, found) && AllComplete(found)
    ensures AllIntact(Upsert(table, row), found)
  {
    if row.url in table { MergeKeepsIntact(table[row.url], row, found); }
  }
}
