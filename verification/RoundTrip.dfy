/**
 Parsing a rendered feed gives the rendered events back: escaping, line framing, timestamps
 and the component state machine taken together.
 */
module RoundTrip {
  import opened Text
  import opened Model
  import opened Timestamps
  import opened Keys
  import opened IcsText
  import opened IcsLines
  import opened Feed

  // ---------- timestamps ----------

  lemma BasicFields(c: Civil, s: string)
    requires c.Valid() && 0 <= c.year <= 9999 && s == BasicText(c)
    ensures |s| == 16 && s[..4] == Pad4(c.year) && s[4..6] == Pad2(c.month) && s[6..8] == Pad2(c.day) && s[8] == 'T'
    ensures s[9..11] == Pad2(c.hour) && s[11..13] == Pad2(c.minute) && s[13..15] == Pad2(c.second) && s[15] == 'Z'
  {
  }

  lemma ParseBasicText(c: Civil, s: string)
    requires c.Valid() && 0 <= c.year <= 9999 && s == BasicText(c)
    ensures ParseBasic(s) == CivilSecond(c)
  {
    BasicFields(c, s);
    NumberPad4(c.year);
    NumberPad2(c.month);
    NumberPad2(c.day);
    NumberPad2(c.hour);
    NumberPad2(c.minute);
    NumberPad2(c.second);
  }

  lemma TrimNothing(s: string)
    requires s != "" && !IsSpace(s[0]) && !IsSpace(s[|s| - 1])
    ensures TrimSpace(s) == s
  {
  }

  lemma BasicReadBack(t: Time)
    requires InRange(SecondOf(t))
    ensures ParseBasic(Basic(t)) == Some(SecondOf(t)) && TrimSpace(Basic(t)) == Basic(t) && !(TZID <= Basic(t))
  {
    var c := ToCivil(SecondOf(t));
    YearInRange(SecondOf(t));
    BasicRendered(t);
    ParseBasicText(c, Basic(t));
    BasicFields(c, Basic(t));
    assert Basic(t)[0] == Pad4(c.year)[0];
    TrimNothing(Basic(t));
  }

  /** A rendered time is read back to the second, in whatever zones are known. */
  lemma DateReadBack(t: Time, zones: Zones)
    requires InRange(SecondOf(t))
    ensures ParseDate(Basic(t), zones) == Some(SecondOf(t) * NANOS)
  {
    BasicReadBack(t);
  }

  // ---------- one event ----------

  /** The event with the carriage returns gone that a scan takes for part of a line break. */
  function ChompEvent(e: Event): Event {
    e.(uid := DropCr(e.uid), title := DropCr(e.title), location := DropCr(e.location), url := DropCr(e.url))
  }

  /** The event a feed reader gets for a rendered event. */
  function ReadBackEvent(e: Event, source: string, anchor: bool): Event {
    var start, end := SecondOf(e.startsAt) * NANOS, SecondOf(e.endsAt) * NANOS;
    var url := if e.url == "" && "https://" <= e.location then e.location else e.url;
    var sourceId := if e.uid == "" then url else e.uid;
    Event(EventUid(source, sourceId, e.title, start), source, sourceId, e.title, DescriptionText(e), e.location, url,
          start, end, e.status, anchor, 100, ZERO_TIME, ZERO_TIME)
  }

  /** Events without a title or with Go's zero second as start are dropped on reading. */
  predicate Kept(e: Event) {
    e.title != "" && SecondOf(e.startsAt) != ZERO_SECOND
  }

  /** What a reader makes of one rendered event. */
  function Reader(source: string, anchor: bool): Event -> Option<Event> {
    (e: Event) => if Kept(ChompEvent(e)) then Some(ReadBackEvent(ChompEvent(e), source, anchor)) else None
  }

  function Collect<A, B>(xs: seq<A>, f: A -> Option<B>): seq<B> {
    if xs == [] then []
    else
      var before, last := Collect(xs[..|xs| - 1], f), f(xs[|xs| - 1]);
      if last.Some? then before + [last.value] else before
  }

  function ReadBackAll(events: seq<Event>, source: string, anchor: bool): seq<Event> {
    Collect(events, Reader(source, anchor))
  }

  ghost predicate AllSome<A, B>(xs: seq<A>, f: A -> Option<B>) {
    forall i :: 0 <= i < |xs| ==> f(xs[i]).Some?
  }

  /** Nothing is collected that was not there; all is collected exactly when nothing is dropped, and then in order. */
  lemma {:induction false} CollectAll<A, B>(xs: seq<A>, f: A -> Option<B>)
    ensures |Collect(xs, f)| <= |xs| && (|Collect(xs, f)| == |xs| <==> AllSome(xs, f))
    ensures AllSome(xs, f) ==> forall i :: 0 <= i < |xs| ==> Collect(xs, f)[i] == f(xs[i]).value
  {
    if xs == [] {
    } else {
      var n := |xs| - 1;
      CollectAll(xs[..n], f);
      assert AllSome(xs, f) <==> AllSome(xs[..n], f) && f(xs[n]).Some?;
    }
  }

  /** Times in the years RFC 3339 can write. */
  predicate Printable(e: Event) {
    InRange(SecondOf(e.startsAt)) && InRange(SecondOf(e.endsAt))
  }

  /** The value of the last property with a key. */
  function Last(ps: seq<Property>, key: string): Option<string> {
    if ps == [] then None
    else if ps[|ps| - 1].key == key then Some(ps[|ps| - 1].value)
    else Last(ps[..|ps| - 1], key)
  }

  lemma {:induction false} PutSnoc(component: Component, ps: seq<Property>, p: Property)
    ensures Put(component, ps + [p]) == Put(component, ps)[p.key := p.value]
    decreases |ps|
  {
    if ps == [] {
      assert ps + [p] == [p] && [p][1..] == [];
    } else {
      assert (ps + [p])[0] == ps[0] && (ps + [p])[1..] == ps[1..] + [p];
      PutSnoc(component[ps[0].key := ps[0].value], ps[1..], p);
    }
  }

  lemma {:induction false} GetLast(ps: seq<Property>, key: string)
    ensures Get(Put(map[], ps), key) == match Last(ps, key) case Some(value) => value case None => ""
  {
    if ps == [] {
    } else {
      var n := |ps| - 1;
      GetLast(ps[..n], key);
      PutSnoc(map[], ps[..n], ps[n]);
      assert ps == ps[..n] + [ps[n]];
    }
  }

  lemma LastSnoc(ps: seq<Property>, p: Property, key: string)
    ensures Last(ps + [p], key) == if p.key == key then Some(p.value) else Last(ps, key)
  {
    assert (ps + [p])[..|ps|] == ps;
  }

  lemma LastConcat(a: seq<Property>, b: seq<Property>, key: string)
    ensures Last(a + b, key) == if Last(b, key).Some? then Last(b, key) else Last(a, key)
    decreases |b|
  {
    if b == [] {
      assert a + b == a;
    } else {
      var n := |b| - 1;
      assert a + b == (a + b[..n]) + [b[n]];
      LastSnoc(a + b[..n], b[n], key);
      LastConcat(a, b[..n], key);
    }
  }

  lemma LastOfThree(p: Property, q: Property, r: Property, key: string)
    ensures Last([p, q, r], key)
            == if r.key == key then Some(r.value) else if q.key == key then Some(q.value)
               else if p.key == key then Some(p.value) else None
  {
    assert [p, q, r] == [p, q] + [r] && [p, q] == [p] + [q] && [p] == [] + [p];
    LastSnoc([p, q], r, key);
    LastSnoc([p], q, key);
    LastSnoc([], p, key);
  }

  lemma LastWhen(e: Event, key: string)
    ensures Last(WhenProperties(e), key)
            == if key == "DTEND" then Some(Basic(e.endsAt)) else if key == "DTSTART" then Some(Basic(e.startsAt))
               else if key == "DTSTAMP" then Some(Basic(e.updatedAt)) else if key == "UID" then Some(e.uid) else None
  {
    var ps := WhenProperties(e);
    assert ps == [ps[0], ps[1], ps[2]] + [ps[3]];
    LastSnoc([ps[0], ps[1], ps[2]], ps[3], key);
    LastOfThree(ps[0], ps[1], ps[2], key);
  }

  lemma LastTail(e: Event, key: string)
    ensures Last(TailProperties(e), key)
            == if key == "STATUS" then Some(StatusText(e.status))
               else if key == "URL" && e.url != "" then Some(e.url) else None
  {
    var link := if e.url != "" then [Property("URL", e.url)] else [];
    LastSnoc(link, Property("STATUS", StatusText(e.status)), key);
    if e.url != "" {
      assert link == [] + [Property("URL", e.url)];
      LastSnoc([], Property("URL", e.url), key);
    }
  }

  lemma LastProperties(e: Event, key: string)
    ensures Last(Properties(e), key)
            == if key == "STATUS" then Some(StatusText(e.status)) else if key == "URL" && e.url != "" then Some(e.url)
               else if key == "LOCATION" then Some(e.location)
               else if key == "DESCRIPTION" then Some(DescriptionText(e))
               else if key == "SUMMARY" then Some(e.title) else Last(WhenProperties(e), key)
  {
    LastConcat(WhenProperties(e) + WhatProperties(e), TailProperties(e), key);
    LastConcat(WhenProperties(e), WhatProperties(e), key);
    LastOfThree(Property("SUMMARY", e.title), Property("DESCRIPTION", DescriptionText(e)),
        Property("LOCATION", e.location), key);
    LastTail(e, key);
  }

  lemma ComponentOf(e: Event, key: string)
    ensures Get(Put(map[], Properties(e)), key)
            == if key == "STATUS" then StatusText(e.status) else if key == "URL" then e.url
               else if key == "LOCATION" then e.location else if key == "DESCRIPTION" then DescriptionText(e)
               else if key == "SUMMARY" then e.title else if key == "DTEND" then Basic(e.endsAt)
               else if key == "DTSTART" then Basic(e.startsAt) else if key == "DTSTAMP" then Basic(e.updatedAt)
               else if key == "UID" then e.uid else ""
  {
    LastProperties(e, key);
    LastWhen(e, key);
    GetLast(Properties(e), key);
  }

  lemma StatusReadBack(status: EventStatus)
    ensures EqualFold(StatusText(status), "TENTATIVE") <==> status == Tentative
  {
    assert |"CONFIRMED"| == |"TENTATIVE"| && ToUpper("CONFIRMED")[0] == 'C' && ToUpper("TENTATIVE")[0] == 'T';
  }

  // ---------- values as they are scanned ----------

  function Chomp(p: Property): Property {
    p.(value := DropCr(p.value))
  }

  function ChompAll(ps: seq<Property>): (r: seq<Property>)
    ensures |r| == |ps|
  {
    seq(|ps|, i requires 0 <= i < |ps| => Chomp(ps[i]))
  }

  lemma {:induction false} EscapeConcat(a: string, b: string)
    ensures Escape(a + b) == Escape(a) + Escape(b)
  {
    if a == [] {
      assert a + b == b;
    } else {
      assert (a + b)[0] == a[0] && (a + b)[1..] == a[1..] + b;
      EscapeConcat(a[1..], b);
    }
  }

  /** Escaping keeps the end of a text: the carriage return there, or its absence. */
  lemma EscapeEnd(s: string)
    ensures EndsInCr(Escape(s)) <==> EndsInCr(s)
    ensures DropCr(Escape(s)) == Escape(DropCr(s))
  {
    if s == [] {
    } else {
      var t, c := s[..|s| - 1], s[|s| - 1];
      assert s == t + [c];
      EscapeConcat(t, [c]);
      assert [c][1..] == [] && Escape([c]) == EscapeByte(c);
      if c == '\r' { assert DropCr(Escape(t) + "\r") == Escape(t); }
    }
  }

  lemma ChompLine(p: Property)
    ensures DropCr(PropertyLine(p)) == PropertyLine(Chomp(p))
  {
    EscapeEnd(p.value);
    var line, v := PropertyLine(p), Escape(p.value);
    assert line == (p.key + ":") + v;
    if v == [] {
      assert line[|line| - 1] == ':';
    } else {
      assert line[|line| - 1] == v[|v| - 1];
      assert line[..|line| - 1] == (p.key + ":") + v[..|v| - 1];
    }
  }

  lemma {:induction false} ChompLines(ps: seq<Property>)
    ensures Chomped(PropertyLines(ps)) == PropertyLines(ChompAll(ps))
  {
    if ps == [] {
    } else {
      ChompLine(ps[0]);
      ChompLines(ps[1..]);
      assert ChompAll(ps)[1..] == ChompAll(ps[1..]);
    }
  }

  lemma ChompOne(line: string)
    requires !EndsInCr(line)
    ensures Chomped([line]) == [line]
  {
    assert [line][1..] == [];
  }

  lemma ChompComponent(ps: seq<Property>)
    ensures Chomped(ComponentLines(ps)) == ComponentLines(ChompAll(ps))
  {
    ChompedConcat([BEGIN], PropertyLines(ps) + [END]);
    ChompedConcat(PropertyLines(ps), [END]);
    ChompLines(ps);
    ChompOne(BEGIN);
    ChompOne(END);
  }

  lemma {:induction false} LastChomp(ps: seq<Property>, key: string)
    ensures Last(ChompAll(ps), key) == match Last(ps, key) case Some(value) => Some(DropCr(value)) case None => None
  {
    if ps == [] {
    } else {
      var n := |ps| - 1;
      LastChomp(ps[..n], key);
      assert ChompAll(ps)[..n] == ChompAll(ps[..n]);
    }
  }

  lemma {:induction false} TrimRightEnd(s: string)
    ensures TrimRight(s) == [] || !IsSpace(TrimRight(s)[|TrimRight(s)| - 1])
  {
    if s != [] && IsSpace(s[|s| - 1]) {
      TrimRightEnd(s[..|s| - 1]);
    } else {
    }
  }

  /** Descriptions are trimmed, timestamps end in Z and states in a letter: none of them ends in a carriage return. */
  lemma TrimmedEnds(e: Event)
    requires Printable(e)
    ensures !EndsInCr(DescriptionText(e)) && !EndsInCr(StatusText(e.status))
    ensures !EndsInCr(Basic(e.startsAt)) && !EndsInCr(Basic(e.endsAt))
  {
    TrimRightEnd(TrimLeft(e.description + "\n\nSource: " + e.source));
    BasicEnd(e.startsAt);
    BasicEnd(e.endsAt);
  }

  lemma BasicEnd(t: Time)
    requires InRange(SecondOf(t))
    ensures !EndsInCr(Basic(t))
  {
    YearInRange(SecondOf(t));
    BasicRendered(t);
    BasicFields(ToCivil(SecondOf(t)), Basic(t));
  }

  /** The component a reader makes of a rendered event. */
  function ReadComponent(e: Event): Component {
    Put(map[], ChompAll(Properties(e)))
  }

  lemma ReadValue(e: Event, key: string)
    ensures Get(ReadComponent(e), key) == DropCr(Get(Put(map[], Properties(e)), key))
  {
    GetLast(ChompAll(Properties(e)), key);
    GetLast(Properties(e), key);
    LastChomp(Properties(e), key);
  }

  lemma ReadTexts(e: Event)
    ensures var c, r := ReadComponent(e), ChompEvent(e);
            && Get(c, "LOCATION") == r.location && Get(c, "URL") == r.url
            && Get(c, "UID") == r.uid && Get(c, "SUMMARY") == r.title
  {
    ReadValue(e, "LOCATION");
    ReadValue(e, "URL");
    ReadValue(e, "UID");
    ReadValue(e, "SUMMARY");
    ComponentOf(e, "LOCATION");
    ComponentOf(e, "URL");
    ComponentOf(e, "UID");
    ComponentOf(e, "SUMMARY");
  }

  lemma ReadRest(e: Event)
    requires Printable(e)
    ensures var c := ReadComponent(e);
            && Get(c, "DTSTART") == Basic(e.startsAt) && Get(c, "DTEND") == Basic(e.endsAt)
            && Get(c, "DESCRIPTION") == DescriptionText(e) && Get(c, "STATUS") == StatusText(e.status)
  {
    TrimmedEnds(e);
    ReadValue(e, "DTSTART");
    ReadValue(e, "DTEND");
    ReadValue(e, "DESCRIPTION");
    ReadValue(e, "STATUS");
    ComponentOf(e, "DTSTART");
    ComponentOf(e, "DTEND");
    ComponentOf(e, "DESCRIPTION");
    ComponentOf(e, "STATUS");
  }

  /** The component of a rendered event is built into the event that was rendered. */
  lemma EventReadBack(e: Event, source: string, anchor: bool, zones: Zones)
    requires Printable(e)
    ensures BuildEvent(ReadComponent(e), source, anchor, zones)
            == if Kept(ChompEvent(e)) then Accepted(ReadBackEvent(ChompEvent(e), source, anchor)) else Ignored
  {
    ReadTexts(e);
    ReadRest(e);
    BuiltFrom(ReadComponent(e), ChompEvent(e), source, anchor, zones);
  }

  lemma BuiltFrom(c: Component, e: Event, source: string, anchor: bool, zones: Zones)
    requires Printable(e)
    requires Get(c, "DTSTART") == Basic(e.startsAt) && Get(c, "DTEND") == Basic(e.endsAt)
    requires Get(c, "LOCATION") == e.location && Get(c, "URL") == e.url && Get(c, "UID") == e.uid
    requires Get(c, "SUMMARY") == e.title && Get(c, "DESCRIPTION") == DescriptionText(e)
             && Get(c, "STATUS") == StatusText(e.status)
    ensures BuildEvent(c, source, anchor, zones)
            == if Kept(e) then Accepted(ReadBackEvent(e, source, anchor)) else Ignored
  {
    DateReadBack(e.startsAt, zones);
    DateReadBack(e.endsAt, zones);
    StatusReadBack(e.status);
  }

  // ---------- the lines of a feed ----------

  /** A line that is found by a scan and never taken for a continuation. */
  predicate WholeLine(line: string) {
    '\n' !in line && !StartsBlank(line)
  }

  predicate AllWhole(lines: seq<string>) {
    forall i :: 0 <= i < |lines| ==> WholeLine(lines[i])
  }

  predicate AllPlainKeys(ps: seq<Property>) {
    forall i :: 0 <= i < |ps| ==> PlainKey(ps[i].key)
  }

  lemma WholePropertyLine(p: Property)
    requires PlainKey(p.key)
    ensures WholeLine(PropertyLine(p))
  {
    EscapedIsPlain(p.value);
    assert PropertyLine(p)[0] == p.key[0];
    assert forall c :: c in p.key ==> c == '-' || 'A' <= c <= 'Z';
  }

  lemma {:induction false} WholePropertyLines(ps: seq<Property>)
    requires AllPlainKeys(ps)
    ensures AllWhole(PropertyLines(ps))
  {
    if ps == [] {
    } else {
      WholePropertyLine(ps[0]);
      WholePropertyLines(ps[1..]);
    }
  }

  lemma LiteralKeys()
    ensures PlainKey("UID") && PlainKey("DTSTAMP") && PlainKey("DTSTART") && PlainKey("DTEND")
  {
  }

  lemma FourKeys(p: Property, q: Property, r: Property, t: Property)
    requires PlainKey(p.key) && PlainKey(q.key) && PlainKey(r.key) && PlainKey(t.key)
    ensures AllPlainKeys([p, q, r, t])
  {
  }

  lemma WhenKeys(e: Event)
    ensures AllPlainKeys(WhenProperties(e))
  {
    var ps := WhenProperties(e);
    LiteralKeys();
    FourKeys(ps[0], ps[1], ps[2], ps[3]);
    assert ps == [ps[0], ps[1], ps[2], ps[3]];
  }

  lemma WhatKeys(e: Event)
    ensures AllPlainKeys(WhatProperties(e))
  {
  }

  lemma TailKeys(e: Event)
    ensures AllPlainKeys(TailProperties(e))
  {
  }

  lemma ChompKeys(ps: seq<Property>)
    requires AllPlainKeys(ps)
    ensures AllPlainKeys(ChompAll(ps))
  {
  }

  lemma EventKeys(e: Event)
    ensures AllPlainKeys(Properties(e)) && AllPlainKeys(ChompAll(Properties(e)))
  {
    WhenKeys(e);
    WhatKeys(e);
    TailKeys(e);
    ChompKeys(Properties(e));
  }

  lemma ComponentWhole(e: Event)
    ensures AllWhole(ComponentLines(Properties(e)))
  {
    EventKeys(e);
    WholePropertyLines(Properties(e));
    FrameWhole(PropertyLines(Properties(e)));
  }

  lemma FrameWhole(lines: seq<string>)
    requires AllWhole(lines)
    ensures AllWhole([BEGIN] + (lines + [END]))
  {
    assert WholeLine(BEGIN) && WholeLine(END);
  }

  lemma {:induction false} EventLinesWhole(events: seq<Event>)
    ensures AllWhole(EventLines(events))
  {
    if events == [] {
    } else {
      EventLinesWhole(events[..|events| - 1]);
      ComponentWhole(events[|events| - 1]);
    }
  }

  predicate IsPlain(s: string) {
    '\r' !in s && '\n' !in s
  }

  predicate PlainBranding(b: Branding) {
    IsPlain(b.appName) && IsPlain(b.prodId) && IsPlain(b.timezone)
  }

  predicate HeaderLine(line: string) {
    WholeLine(line) && line != BEGIN && !EndsInCr(line)
  }

  lemma BrandedLine(prefix: string, value: string)
    requires WholeLine(prefix) && IsPlain(prefix) && prefix != "" && prefix[0] != 'B' && IsPlain(value)
    ensures HeaderLine(prefix + value)
  {
    assert (prefix + value)[0] == prefix[0] && BEGIN[0] == 'B';
  }

  lemma OpeningLine()
    ensures HeaderLine("BEGIN:VCALENDAR")
  {
    assert "BEGIN:VCALENDAR"[7] == 'C' && BEGIN[7] == 'E';
  }

  lemma FixedLines()
    ensures HeaderLine("VERSION:2.0") && HeaderLine("CALSCALE:GREGORIAN") && HeaderLine("METHOD:PUBLISH")
  {
    assert BEGIN[0] == 'B';
  }

  lemma HeaderWhole(b: Branding)
    requires PlainBranding(b)
    ensures forall i :: 0 <= i < |Header(b)| ==> HeaderLine(Header(b)[i])
  {
    OpeningLine();
    FixedLines();
    BrandedLine("PRODID:", b.prodId);
    BrandedLine("X-WR-CALNAME:", b.appName);
    BrandedLine("X-WR-TIMEZONE:", b.timezone);
  }

  // ---------- the feed ----------

  const CLOSING := "END:VCALENDAR"

  lemma ClosingLine()
    ensures HeaderLine(CLOSING)
  {
    assert CLOSING[0] == 'E' && BEGIN[0] == 'B';
  }

  function BuiltOf(read: Option<Event>): Built {
    match read
    case Some(event) => Accepted(event)
    case None => Ignored
  }

  /** What END:VEVENT builds of each rendered event is what the reader makes of it. */
  predicate BuiltAs(e: Event, build: Component -> Built, read: Event -> Option<Event>) {
    build(ReadComponent(e)) == BuiltOf(read(e))
  }

  predicate BuildsAs(events: seq<Event>, build: Component -> Built, read: Event -> Option<Event>) {
    forall i :: 0 <= i < |events| ==> BuiltAs(events[i], build, read)
  }

  lemma OneMoreEvent(done: seq<Event>, e: Event, build: Component -> Built, read: Option<Event>)
    requires build(ReadComponent(e)) == BuiltOf(read)
    ensures Steps(Parsing(done, None), ComponentLines(ChompAll(Properties(e))), build)
            == Parsing(if read.Some? then done + [read.value] else done, None)
  {
    EventKeys(e);
    ComponentReadBack(done, ChompAll(Properties(e)), build);
    assert done + [] == done;
  }

  // ---------- how far a reader gets ----------

  /** The lines of a text up to the first overlong one, as they are scanned. */
  function Scanned(lines: seq<string>): seq<string> {
    Chomped(lines[..ShortCount(lines)])
  }

  lemma ScannedConcat(a: seq<string>, b: seq<string>)
    ensures Scanned(a + b) == if AllShort(a) then Chomped(a) + Scanned(b) else Scanned(a)
  {
    ReachedConcat(a, b);
    if AllShort(a) { ChompedConcat(a, b[..ShortCount(b)]); }
  }

  lemma ScannedShort(lines: seq<string>)
    requires AllShort(lines)
    ensures Scanned(lines) == Chomped(lines)
  {
    assert lines[..|lines|] == lines;
  }

  predicate ShortEvent(e: Event) {
    AllShort(ComponentLines(Properties(e)))
  }

  /** The events before the first with an overlong line. */
  function EventsReached(events: seq<Event>): (n: nat)
    ensures n <= |events|
  {
    if events == [] then 0
    else
      var before := EventsReached(events[..|events| - 1]);
      if before == |events| - 1 && ShortEvent(events[|events| - 1]) then |events| else before
  }

  lemma {:induction false} AllReached(events: seq<Event>)
    ensures EventsReached(events) == |events| <==> AllShort(EventLines(events))
  {
    if events == [] {
    } else {
      var before, lines := events[..|events| - 1], ComponentLines(Properties(events[|events| - 1]));
      AllReached(before);
      ShortCountConcat(EventLines(before), lines);
    }
  }

  predicate Outside(st: ParseState, done: seq<Event>) {
    st == Parsing(done, None)
  }

  /** Nothing has been added, whether or not a component is open. */
  predicate Holding(st: ParseState, done: seq<Event>) {
    st.Parsing? && st.events == done
  }

  lemma {:induction false} PropertyLinesLength(ps: seq<Property>)
    ensures |PropertyLines(ps)| == |ps|
  {
    if ps == [] {
    } else {
      PropertyLinesLength(ps[1..]);
    }
  }

  lemma {:induction false} PropertyLinesPrefix(ps: seq<Property>, n: nat)
    requires n <= |ps|
    ensures |PropertyLines(ps)| == |ps| && PropertyLines(ps)[..n] == PropertyLines(ps[..n])
  {
    if n == 0 {
      PropertyLinesLength(ps);
    } else {
      PropertyLinesPrefix(ps[1..], n - 1);
      assert ps[..n][1..] == ps[1..][..n - 1];
    }
  }

  lemma PlainKeysPrefix(ps: seq<Property>, n: nat)
    requires AllPlainKeys(ps) && n <= |ps|
    ensures AllPlainKeys(ChompAll(ps[..n]))
  {
  }

  /** A component that is cut off before its end adds nothing. */
  lemma PartOfComponent(done: seq<Event>, ps: seq<Property>, n: nat, build: Component -> Built)
    requires AllPlainKeys(ps) && n <= |ps|
    ensures Holding(Steps(Parsing(done, None), Chomped([BEGIN] + PropertyLines(ps[..n])), build), done)
  {
    var kept := ps[..n];
    ChompedConcat([BEGIN], PropertyLines(kept));
    ChompOne(BEGIN);
    ChompLines(kept);
    OneStep(Parsing(done, None), BEGIN, PropertyLines(ChompAll(kept)), build);
    PlainKeysPrefix(ps, n);
    PropertiesReadBack(done, map[], ChompAll(kept), build);
  }

  /** Where the cut falls in a component that is too long: among its properties. */
  lemma CutOfComponent(ps: seq<Property>) returns (n: nat)
    requires !AllShort(ComponentLines(ps))
    ensures n <= |ps| && ComponentLines(ps)[..ShortCount(ComponentLines(ps))] == [BEGIN] + PropertyLines(ps[..n])
  {
    var lines, k := ComponentLines(ps), ShortCount(ComponentLines(ps));
    PropertyLinesLength(ps);
    assert lines[0] == BEGIN && lines[|lines| - 1] == END && |BEGIN| < LIMIT && |END| < LIMIT;
    n := k - 1;
    PropertyLinesPrefix(ps, n);
    assert lines[..k] == [BEGIN] + PropertyLines(ps)[..n];
  }

  lemma OverlongEvent(done: seq<Event>, e: Event, build: Component -> Built)
    requires !ShortEvent(e)
    ensures Holding(Steps(Parsing(done, None), Scanned(ComponentLines(Properties(e))), build), done)
  {
    EventKeys(e);
    var n := CutOfComponent(Properties(e));
    PartOfComponent(done, Properties(e), n, build);
  }

  lemma LastEventRead(done: seq<Event>, e: Event, build: Component -> Built, read: Option<Event>)
    requires build(ReadComponent(e)) == BuiltOf(read)
    ensures var st := Steps(Parsing(done, None), Scanned(ComponentLines(Properties(e))), build);
            if ShortEvent(e) then Outside(st, if read.Some? then done + [read.value] else done)
            else Holding(st, done)
  {
    if ShortEvent(e) {
      ScannedShort(ComponentLines(Properties(e)));
      ChompComponent(Properties(e));
      OneMoreEvent(done, e, build, read);
    } else {
      OverlongEvent(done, e, build);
    }
  }

  predicate LinesOf(lines: seq<string>, events: seq<Event>) {
    lines == EventLines(events)
  }

  /** What a reader has after a text: the first n events, and after all of them no open component. */
  predicate ReadFrom(lines: seq<string>, events: seq<Event>, n: nat, build: Component -> Built,
      read: Event -> Option<Event>)
    requires n <= |events|
  {
    var st := Steps(Parsing([], None), Scanned(lines), build);
    && Holding(st, Collect(events[..n], read))
    && (n == |events| ==> Outside(st, Collect(events, read)))
  }

  /** All that is read of a list of components: the events before the first overlong line. */
  ghost predicate ReadUpTo(events: seq<Event>, build: Component -> Built, read: Event -> Option<Event>) {
    forall lines :: LinesOf(lines, events) ==> ReadFrom(lines, events, EventsReached(events), build, read)
  }

  /** After whole events the next is read as far as it goes. */
  lemma ReadNextLines(earlier: seq<string>, before: seq<Event>, e: Event, build: Component -> Built,
      read: Event -> Option<Event>)
    requires AllShort(earlier) && ReadFrom(earlier, before, |before|, build, read) && BuiltAs(e, build, read)
    ensures var st := Steps(Parsing([], None), Scanned(earlier + ComponentLines(Properties(e))), build);
            if ShortEvent(e) then Outside(st, Collect(before + [e], read)) else Holding(st, Collect(before, read))
  {
    var lines := ComponentLines(Properties(e));
    ScannedConcat(earlier, lines);
    ScannedShort(earlier);
    StepsConcat(Parsing([], None), Chomped(earlier), Scanned(lines), build);
    LastEventRead(Collect(before, read), e, build, read(e));
    CollectSnoc(before, e, read);
  }

  lemma ReadWhole(earlier: seq<string>, before: seq<Event>, e: Event, build: Component -> Built,
      read: Event -> Option<Event>)
    requires AllShort(earlier) && ReadFrom(earlier, before, |before|, build, read) && BuiltAs(e, build, read)
    ensures var all := before + [e];
            ReadFrom(earlier + ComponentLines(Properties(e)), all, if ShortEvent(e) then |all| else |before|,
                     build, read)
  {
    var all := before + [e];
    assert all[..|before|] == before && all[..|all|] == all;
    ReadNextLines(earlier, before, e, build, read);
  }

  lemma ReadNoMore(earlier: seq<string>, more: seq<string>, before: seq<Event>, e: Event, n: nat,
      build: Component -> Built, read: Event -> Option<Event>)
    requires n < |before| && !AllShort(earlier) && ReadFrom(earlier, before, n, build, read)
    ensures ReadFrom(earlier + more, before + [e], n, build, read)
  {
    assert (before + [e])[..n] == before[..n];
    ScannedConcat(earlier, more);
  }

  lemma MoreLines(before: seq<Event>, e: Event)
    ensures EventLines(before + [e]) == EventLines(before) + ComponentLines(Properties(e))
  {
    FlatSnoc(before, e, EventBlock());
  }

  lemma MoreReached(before: seq<Event>, e: Event)
    ensures var n, all := EventsReached(before), before + [e];
            EventsReached(all) == if n == |before| && ShortEvent(e) then |all| else n
  {
    assert (before + [e])[..|before|] == before;
  }

  lemma ReadOneMore(before: seq<Event>, e: Event, build: Component -> Built, read: Event -> Option<Event>)
    requires ReadUpTo(before, build, read) && BuiltAs(e, build, read)
    ensures ReadUpTo(before + [e], build, read)
  {
    var written := EventLines(before);
    assert LinesOf(written, before);
    AllReached(before);
    MoreLines(before, e);
    MoreReached(before, e);
    if AllShort(written) {
      ReadWhole(written, before, e, build, read);
    } else {
      ReadNoMore(written, ComponentLines(Properties(e)), before, e, EventsReached(before), build, read);
    }
  }

  lemma CollectSnoc<A, B>(xs: seq<A>, x: A, f: A -> Option<B>)
    ensures Collect(xs + [x], f) == if f(x).Some? then Collect(xs, f) + [f(x).value] else Collect(xs, f)
  {
    assert (xs + [x])[..|xs|] == xs;
  }

  lemma NothingRead(build: Component -> Built, read: Event -> Option<Event>)
    ensures ReadUpTo([], build, read)
  {
    var none: seq<Event> := [];
    assert none[..0] == none;
  }

  /** Induction along a sequence, one element at a time. */
  lemma {:induction false} AlongPrefixes<T>(xs: seq<T>, n: nat, p: seq<T> -> bool)
    requires n <= |xs| && p([])
    requires forall k :: 0 <= k < |xs| && p(xs[..k]) ==> p(xs[..k] + [xs[k]])
    ensures p(xs[..n])
  {
    if n == 0 {
      assert xs[..0] == [];
    } else {
      AlongPrefixes(xs, n - 1, p);
      assert xs[..n] == xs[..n - 1] + [xs[n - 1]];
    }
  }

  lemma EventsReadUpTo(events: seq<Event>, build: Component -> Built, read: Event -> Option<Event>)
    requires BuildsAs(events, build, read)
    ensures ReadUpTo(events, build, read)
  {
    var p := (es: seq<Event>) => ReadUpTo(es, build, read);
    NothingRead(build, read);
    forall k | 0 <= k < |events| && p(events[..k]) ensures p(events[..k] + [events[k]]) {
      ReadOneMore(events[..k], events[k], build, read);
    }
    AlongPrefixes(events, |events|, p);
    assert events[..|events|] == events;
  }

  /** The events a reader of the feed gets to. */
  function Reached(b: Branding, events: seq<Event>): (n: nat)
    ensures n <= |events|
  {
    if AllShort(Header(b)) then EventsReached(events) else 0
  }

  lemma HeaderSteps(b: Branding, build: Component -> Built)
    requires PlainBranding(b)
    ensures Steps(Parsing([], None), Scanned(Header(b)), build) == Parsing([], None)
  {
    HeaderWhole(b);
    var lines := Header(b)[..ShortCount(Header(b))];
    ChompedSame(lines);
    OutsideLines([], lines, build);
  }

  lemma ClosingSteps(done: seq<Event>, build: Component -> Built)
    ensures Steps(Parsing(done, None), Scanned([CLOSING]), build) == Parsing(done, None)
  {
    ClosingLine();
    ScannedShort([CLOSING]);
    ChompOne(CLOSING);
    OutsideLines(done, [CLOSING], build);
  }

  lemma ClosedSteps(lines: seq<string>, done: seq<Event>, build: Component -> Built)
    requires AllShort(lines) && Outside(Steps(Parsing([], None), Scanned(lines), build), done)
    ensures Outside(Steps(Parsing([], None), Scanned(lines + [CLOSING]), build), done)
  {
    ScannedConcat(lines, [CLOSING]);
    ScannedShort(lines);
    StepsConcat(Parsing([], None), Chomped(lines), Scanned([CLOSING]), build);
    ClosingSteps(done, build);
  }

  lemma BodySteps(events: seq<Event>, build: Component -> Built, read: Event -> Option<Event>)
    requires BuildsAs(events, build, read)
    ensures Holding(Steps(Parsing([], None), Scanned(EventLines(events) + [CLOSING]), build),
                    Collect(events[..EventsReached(events)], read))
  {
    var lines := EventLines(events);
    EventsReadUpTo(events, build, read);
    assert LinesOf(lines, events);
    AllReached(events);
    if AllShort(lines) {
      ClosedSteps(lines, Collect(events, read), build);
      assert events[..|events|] == events;
    } else {
      ScannedConcat(lines, [CLOSING]);
    }
  }

  lemma FeedSteps(b: Branding, events: seq<Event>, build: Component -> Built, read: Event -> Option<Event>)
    requires PlainBranding(b) && BuildsAs(events, build, read)
    ensures Holding(Steps(Parsing([], None), Scanned(FeedLines(b, events)), build),
                    Collect(events[..Reached(b, events)], read))
  {
    var body := EventLines(events) + [CLOSING];
    assert FeedLines(b, events) == Header(b) + body;
    ScannedConcat(Header(b), body);
    HeaderSteps(b, build);
    if AllShort(Header(b)) {
      HeaderChomped(b);
      StepsConcat(Parsing([], None), Scanned(Header(b)), Scanned(body), build);
      BodySteps(events, build, read);
    }
  }

  lemma HeaderChomped(b: Branding)
    requires AllShort(Header(b))
    ensures Scanned(Header(b)) == Chomped(Header(b))
  {
    ScannedShort(Header(b));
  }

  lemma ReaderBuilds(events: seq<Event>, source: string, anchor: bool, zones: Zones)
    requires forall i :: 0 <= i < |events| ==> Printable(events[i])
    ensures BuildsAs(events, Builder(source, anchor, zones), Reader(source, anchor))
  {
    forall i | 0 <= i < |events| ensures BuiltAs(events[i], Builder(source, anchor, zones), Reader(source, anchor)) {
      ReaderBuildsOne(events[i], source, anchor, zones);
    }
  }

  lemma ReaderBuildsOne(e: Event, source: string, anchor: bool, zones: Zones)
    requires Printable(e)
    ensures BuiltAs(e, Builder(source, anchor, zones), Reader(source, anchor))
  {
    ReaderOf(e, source, anchor);
    EventReadBack(e, source, anchor, zones);
  }

  lemma FeedWhole(b: Branding, events: seq<Event>)
    requires PlainBranding(b)
    ensures AllWhole(FeedLines(b, events))
  {
    HeaderWhole(b);
    EventLinesWhole(events);
    ClosingLine();
  }

  lemma WholeUnfolds(lines: seq<string>)
    requires AllWhole(lines)
    ensures Unfold(PhysicalLines(JoinLines(lines))) == Scanned(lines)
  {
    LinesReach(lines);
    var reached := lines[..ShortCount(lines)];
    ChompedSame(reached);
    AddUnfolded([], Chomped(reached));
  }

  /**
   Parsing a rendered feed gives, in order, one event for each event with a title and a
   start, up to the first line that is too long for the scanner, whose error is ignored; and
   each is as ReadBackEvent says: every field returns, but for a carriage return at the very
   end of a uid, title, location or URL.
   */
  lemma FeedReadBack(b: Branding, events: seq<Event>, source: string, anchor: bool, zones: Zones)
    requires PlainBranding(b) && forall i :: 0 <= i < |events| ==> Printable(events[i])
    ensures Parsed(JoinLines(FeedLines(b, events)), source, anchor, zones)
            == Some(ReadBackAll(events[..Reached(b, events)], source, anchor))
  {
    FeedWhole(b, events);
    WholeUnfolds(FeedLines(b, events));
    ReaderBuilds(events, source, anchor, zones);
    FeedSteps(b, events, Builder(source, anchor, zones), Reader(source, anchor));
  }

  /** What a reader recovers of an event: everything the feed is for. */
  predicate Recovered(e: Event, r: Event) {
    && r.title == e.title && r.location == e.location && r.status == e.status && r.sourceId == e.uid
    && SecondOf(r.startsAt) == SecondOf(e.startsAt) && SecondOf(r.endsAt) == SecondOf(e.endsAt)
    && r.description == DescriptionText(e)
    && (r.url == e.url || (e.url == "" && r.url == e.location && "https://" <= e.location))
  }

  predicate AllRecovered(events: seq<Event>, r: seq<Event>) {
    |r| == |events| && forall i :: 0 <= i < |events| ==> Recovered(events[i], r[i])
  }

  predicate NoCrAtEnd(e: Event) {
    !EndsInCr(e.uid) && !EndsInCr(e.title) && !EndsInCr(e.location) && !EndsInCr(e.url)
  }

  lemma RecoveredExactly(e: Event, source: string, anchor: bool)
    requires e.uid != ""
    ensures Recovered(e, ReadBackEvent(ChompEvent(e), source, anchor)) <==> NoCrAtEnd(e)
  {
  }

  lemma CleanIsKept(e: Event)
    requires Kept(e) && NoCrAtEnd(e)
    ensures Kept(ChompEvent(e))
  {
  }

  lemma ReaderOf(e: Event, source: string, anchor: bool)
    ensures Reader(source, anchor)(e)
            == if Kept(ChompEvent(e)) then Some(ReadBackEvent(ChompEvent(e), source, anchor)) else None
  {
  }

  /** For one event: it is read back and recovered, or it ends in a carriage return somewhere. */
  lemma ReadExactly(e: Event, source: string, anchor: bool)
    requires Kept(e) && e.uid != ""
    ensures NoCrAtEnd(e)
            <==> Reader(source, anchor)(e).Some? && Recovered(e, Reader(source, anchor)(e).value)
  {
    ReaderOf(e, source, anchor);
    RecoveredExactly(e, source, anchor);
    if NoCrAtEnd(e) { CleanIsKept(e); }
  }

  lemma RecoveredAll(events: seq<Event>, source: string, anchor: bool)
    requires forall i :: 0 <= i < |events| ==> Kept(events[i]) && events[i].uid != ""
    ensures AllRecovered(events, ReadBackAll(events, source, anchor))
            <==> forall i :: 0 <= i < |events| ==> NoCrAtEnd(events[i])
  {
    var f := Reader(source, anchor);
    CollectAll(events, f);
    forall i | 0 <= i < |events|
      ensures NoCrAtEnd(events[i]) <==> f(events[i]).Some? && Recovered(events[i], f(events[i]).value)
    {
      ReadExactly(events[i], source, anchor);
    }
  }

  /** Reading the first n events recovers all exactly when these are all and each ends without a carriage return. */
  lemma RecoveredOfFirst(events: seq<Event>, n: nat, source: string, anchor: bool)
    requires n <= |events| && forall i :: 0 <= i < |events| ==> Kept(events[i]) && events[i].uid != ""
    ensures AllRecovered(events, ReadBackAll(events[..n], source, anchor))
            <==> n == |events| && forall i :: 0 <= i < |events| ==> NoCrAtEnd(events[i])
  {
    if n == |events| {
      assert events[..n] == events;
      RecoveredAll(events, source, anchor);
    } else {
      CollectAll(events[..n], Reader(source, anchor));
    }
  }

  lemma ReachedExactly(b: Branding, events: seq<Event>)
    ensures Reached(b, events) == |events| <==> events == [] || AllShort(FeedLines(b, events))
  {
    AllReached(events);
    ClosingLine();
    ShortCountConcat(Header(b) + EventLines(events), [CLOSING]);
    ShortCountConcat(Header(b), EventLines(events));
    assert |CLOSING| < LIMIT;
  }

  /** Every line is shorter than 64 KiB. */
  predicate AllFit(lines: seq<string>) {
    forall i :: 0 <= i < |lines| ==> |lines[i]| < 65_536
  }

  lemma FitExactly(lines: seq<string>)
    ensures AllFit(lines) <==> AllShort(lines)
  {
  }

  /**
   The round trip: no event is lost, added or moved, and each is recovered, if and only if
   there is none, or no line is too long for the scanner and no uid, title, location or URL
   ends in a carriage return, which the scanner takes for part of the line break.
   */
  lemma FeedRoundTrip(b: Branding, events: seq<Event>, source: string, anchor: bool, zones: Zones)
    returns (r: seq<Event>)
    requires PlainBranding(b)
    requires forall i :: 0 <= i < |events| ==> Printable(events[i]) && Kept(events[i]) && events[i].uid != ""
    ensures Parsed(JoinLines(FeedLines(b, events)), source, anchor, zones) == Some(r)
    ensures AllRecovered(events, r)
            <==> || events == []
                 || (AllFit(FeedLines(b, events)) && forall i :: 0 <= i < |events| ==> NoCrAtEnd(events[i]))
  {
    FeedReadBack(b, events, source, anchor, zones);
    r := ReadBackAll(events[..Reached(b, events)], source, anchor);
    ReachedExactly(b, events);
    FitExactly(FeedLines(b, events));
    RecoveredOfFirst(events, Reached(b, events), source, anchor);
  }
}
