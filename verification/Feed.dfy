/**
 The calendar feed: RenderICS writes events as an iCalendar text, ParseICS reads such a text
 back into events.
 */
module Feed {
  import opened Text
  import opened Model
  import opened Timestamps
  import opened Keys
  import opened IcsText
  import opened IcsLines

  datatype Branding = Branding(appName: string, prodId: string, timezone: string)

  /** UTC offsets in seconds of the zones time.LoadLocation knows; an unknown name is an error. */
  type Zones = map<string, int>

  // ---------- basic-format timestamps ----------

  function BasicText(c: Civil): (s: string)
    requires c.Valid()
    ensures |s| >= 16
  {
    var clock := Pad2(c.hour) + (Pad2(c.minute) + (Pad2(c.second) + "Z"));
    YearText(c.year) + (Pad2(c.month) + (Pad2(c.day) + ("T" + clock)))
  }

  lemma BasicLengthOk(second: int)
    ensures StampLength(second) - 4 == |BasicText(ToCivil(second))|
  {
    StampLengthOk(second);
  }

  function BasicByte(second: int, i: nat): char
    requires i < StampLength(second) - 4
  {
    BasicLengthOk(second);
    BasicText(ToCivil(second))[i]
  }

  /** Format("20060102T150405Z") in UTC, byte by byte; BasicRendered gives the whole. */
  function Basic(t: Time): string {
    var second := SecondOf(t);
    StampLengthOk(second);
    seq(StampLength(second) - 4, i requires 0 <= i < StampLength(second) - 4 => BasicByte(second, i))
  }

  lemma BasicRendered(t: Time)
    ensures Basic(t) == BasicText(ToCivil(SecondOf(t)))
  {
    BasicLengthOk(SecondOf(t));
    var s, r := Basic(t), BasicText(ToCivil(SecondOf(t)));
    assert |s| == |r|;
    assert forall i :: 0 <= i < |s| ==> s[i] == r[i];
  }

  /** The layouts parseICSDate tries: date and time with and without Z, or a date alone. */
  function ParseBasic(s: string): Option<int> {
    if (|s| == 16 && s[15] == 'Z') || |s| == 15 then
      if && AllDigits(s[..4]) && TwoDigits(s[4..6]) && TwoDigits(s[6..8]) && s[8] == 'T'
         && TwoDigits(s[9..11]) && TwoDigits(s[11..13]) && TwoDigits(s[13..15])
      then
        CivilSecond(Civil(Number(s[..4]), Number(s[4..6]), Number(s[6..8]),
                          Number(s[9..11]), Number(s[11..13]), Number(s[13..15])))
      else None
    else if |s| == 8 && AllDigits(s[..4]) && TwoDigits(s[4..6]) && TwoDigits(s[6..8]) then
      CivilSecond(Civil(Number(s[..4]), Number(s[4..6]), Number(s[6..8]), 0, 0, 0))
    else None
  }

  const TZID := "[TZID="

  /** parseICSDate: a time in the zone a TZID names, or in UTC. */
  function ParseDate(raw: string, zones: Zones): Option<Time> {
    var value := TrimSpace(raw);
    if TZID <= value then
      var end := IndexByte(value, ']');
      if end < |TZID| || value[|TZID|..end] !in zones then None
      else
        match ParseBasic(value[end + 1..])
        case None => None
        case Some(second) => Some((second - zones[value[|TZID|..end]]) * NANOS)
    else
      match ParseBasic(value)
      case None => None
      case Some(second) => Some(second * NANOS)
  }

  // ---------- parsing ----------

  function Get(component: Component, key: string): string {
    if key in component then component[key] else ""
  }

  function EventFromIcs(component: Component, source: string, anchor: bool, zones: Zones): Option<Event> {
    var starts := ParseDate(Get(component, "DTSTART"), zones);
    if starts.None? then None
    else
      var ends := ParseDate(Get(component, "DTEND"), zones);
      var location := Get(component, "LOCATION");
      var url := if Get(component, "URL") == "" && "https://" <= location then location else Get(component, "URL");
      var sourceId := if Get(component, "UID") == "" then url else Get(component, "UID");
      var title := Get(component, "SUMMARY");
      Some(Event(EventUid(source, sourceId, title, starts.value), source, sourceId, title,
                 Get(component, "DESCRIPTION"),
                 location, url, starts.value, if ends.Some? then ends.value else starts.value + 2 * HOUR,
                 if EqualFold(Get(component, "STATUS"), "TENTATIVE") then Tentative else Confirmed,
                 anchor, 100, ZERO_TIME, ZERO_TIME))
  }

  /** The END:VEVENT branch: an error, an event without title or start, or an event. */
  function BuildEvent(component: Component, source: string, anchor: bool, zones: Zones): Built {
    match EventFromIcs(component, source, anchor, zones)
    case None => Invalid
    case Some(e) => if e.title != "" && !IsZero(e.startsAt) then Accepted(e) else Ignored
  }

  function Builder(source: string, anchor: bool, zones: Zones): Component -> Built {
    (c: Component) => BuildEvent(c, source, anchor, zones)
  }

  /** What ParseICS returns; None is its error. */
  function Parsed(raw: string, source: string, anchor: bool, zones: Zones): Option<seq<Event>> {
    var end := Steps(Parsing([], None), Unfold(PhysicalLines(raw)), Builder(source, anchor, zones));
    if end.Broken? then None else Some(end.events)
  }

  method ParseIcs(raw: string, source: string, anchor: bool, zones: Zones) returns (events: Option<seq<Event>>)
    ensures events == Parsed(raw, source, anchor, zones)
  {
    var lines := UnfoldIcs(raw);
    events := ParseLines(lines, Builder(source, anchor, zones));
  }

  // ---------- rendering ----------

  function StatusText(status: EventStatus): string {
    if status.Tentative? then "TENTATIVE" else "CONFIRMED"
  }

  function DescriptionText(e: Event): string {
    TrimSpace(e.description + "\n\nSource: " + e.source)
  }

  function WhenProperties(e: Event): seq<Property> {
    [Property("UID", e.uid), Property("DTSTAMP", Basic(e.updatedAt)), Property("DTSTART", Basic(e.startsAt)),
     Property("DTEND", Basic(e.endsAt))]
  }

  function WhatProperties(e: Event): seq<Property> {
    [Property("SUMMARY", e.title), Property("DESCRIPTION", DescriptionText(e)), Property("LOCATION", e.location)]
  }

  function TailProperties(e: Event): seq<Property> {
    (if e.url != "" then [Property("URL", e.url)] else []) + [Property("STATUS", StatusText(e.status))]
  }

  function Properties(e: Event): seq<Property> {
    WhenProperties(e) + WhatProperties(e) + TailProperties(e)
  }

  function Header(b: Branding): seq<string> {
    ["BEGIN:VCALENDAR", "VERSION:2.0", "PRODID:" + b.prodId, "CALSCALE:GREGORIAN", "METHOD:PUBLISH",
     "X-WR-CALNAME:" + b.appName, "X-WR-TIMEZONE:" + b.timezone]
  }

  /** The lines of all elements, one after another. */
  function Flat<A>(xs: seq<A>, f: A -> seq<string>): seq<string> {
    if xs == [] then [] else Flat(xs[..|xs| - 1], f) + f(xs[|xs| - 1])
  }

  lemma FlatSnoc<A>(xs: seq<A>, x: A, f: A -> seq<string>)
    ensures Flat(xs + [x], f) == Flat(xs, f) + f(x)
  {
    assert (xs + [x])[..|xs|] == xs;
  }

  lemma FlatNext<A>(xs: seq<A>, i: nat, f: A -> seq<string>)
    requires i < |xs|
    ensures Flat(xs[..i + 1], f) == Flat(xs[..i], f) + f(xs[i])
  {
    assert xs[..i + 1][..i] == xs[..i];
  }

  lemma JoinLast(a: seq<string>, b: seq<string>, c: seq<string>)
    ensures a + (b + c) == (a + b) + c
  {
  }

  lemma {:induction false} FlatConcat<A>(a: seq<A>, b: seq<A>, f: A -> seq<string>)
    ensures Flat(a + b, f) == Flat(a, f) + Flat(b, f)
    decreases |b|
  {
    if b == [] {
      assert a + b == a;
    } else {
      var before, x := b[..|b| - 1], b[|b| - 1];
      FlatConcat(a, before, f);
      FlatSnoc(a + before, x, f);
      assert a + b == (a + before) + [x] && b == before + [x];
      FlatSnoc(before, x, f);
      JoinLast(Flat(a, f), Flat(before, f), f(x));
    }
  }

  function EventBlock(): Event -> seq<string> {
    (e: Event) => ComponentLines(Properties(e))
  }

  function EventLines(events: seq<Event>): seq<string> {
    Flat(events, EventBlock())
  }

  /** The logical lines of the feed, in order. */
  function FeedLines(b: Branding, events: seq<Event>): seq<string> {
    Header(b) + EventLines(events) + ["END:VCALENDAR"]
  }

  lemma {:induction false} JoinConcat(a: seq<string>, b: seq<string>)
    ensures JoinLines(a + b) == JoinLines(a) + JoinLines(b)
  {
    if a == [] {
      assert a + b == b;
    } else {
      assert (a + b)[0] == a[0] && (a + b)[1..] == a[1..] + b;
      JoinConcat(a[1..], b);
    }
  }

  lemma JoinOne(line: string)
    ensures JoinLines([line]) == line + "\r\n"
  {
    assert [line][1..] == [];
  }

  lemma {:induction false} PropertyLinesConcat(ps: seq<Property>, qs: seq<Property>)
    ensures PropertyLines(ps + qs) == PropertyLines(ps) + PropertyLines(qs)
  {
    if ps == [] {
      assert ps + qs == qs;
    } else {
      assert (ps + qs)[0] == ps[0] && (ps + qs)[1..] == ps[1..] + qs;
      PropertyLinesConcat(ps[1..], qs);
    }
  }

  /** A property as it is written, line break included. */
  function Line(p: Property): string {
    PropertyLine(p) + "\r\n"
  }

  function Written(ps: seq<Property>): string {
    JoinLines(PropertyLines(ps))
  }

  lemma WrittenConcat(ps: seq<Property>, qs: seq<Property>)
    ensures Written(ps + qs) == Written(ps) + Written(qs)
  {
    PropertyLinesConcat(ps, qs);
    JoinConcat(PropertyLines(ps), PropertyLines(qs));
  }

  lemma WrittenOne(p: Property)
    ensures Written([p]) == Line(p)
  {
    assert [p][1..] == [] && PropertyLines([p]) == [PropertyLine(p)] + PropertyLines([]);
    JoinOne(PropertyLine(p));
  }

  /** One property more, after the ones already written. */
  lemma WrittenNext(start: string, ps: seq<Property>, p: Property)
    ensures start + Written(ps + [p]) == (start + Written(ps)) + Line(p)
  {
    WrittenConcat(ps, [p]);
    WrittenOne(p);
  }

  lemma WrittenThree(start: string, p: Property, q: Property, r: Property)
    ensures start + Written([p, q, r]) == ((start + Line(p)) + Line(q)) + Line(r)
  {
    WrittenOne(p);
    WrittenNext(start, [p], q);
    WrittenNext(start, [p] + [q], r);
    assert [p] + [q] + [r] == [p, q, r];
  }

  lemma WrittenFour(start: string, p: Property, q: Property, r: Property, t: Property)
    ensures start + Written([p, q, r, t]) == (((start + Line(p)) + Line(q)) + Line(r)) + Line(t)
  {
    WrittenThree(start, p, q, r);
    WrittenNext(start, [p, q, r], t);
    assert [p, q, r] + [t] == [p, q, r, t];
  }

  /** writeICS: the four replacement passes, then the line. */
  method WriteIcs(out: string, key: string, value: string) returns (extended: string)
    ensures extended == out + Line(Property(key, value))
  {
    var v := ReplaceAll(value, '\\', "\\\\");
    v := ReplaceAll(v, '\n', "\\n");
    v := ReplaceAll(v, ';', "\\;");
    v := ReplaceAll(v, ',', "\\,");
    PassesAreOnePass(value);
    extended := out + (key + ":" + v + "\r\n");
  }

  /** The uid and the times of an event. */
  method WriteWhen(start: string, e: Event) returns (out: string)
    ensures out == start + Written(WhenProperties(e))
  {
    var stamp, starts, ends := Basic(e.updatedAt), Basic(e.startsAt), Basic(e.endsAt);
    out := WriteIcs(start, "UID", e.uid);
    out := WriteIcs(out, "DTSTAMP", stamp);
    out := WriteIcs(out, "DTSTART", starts);
    out := WriteIcs(out, "DTEND", ends);
    WrittenFour(start, Property("UID", e.uid), Property("DTSTAMP", stamp), Property("DTSTART", starts),
                Property("DTEND", ends));
  }

  /** Its texts. */
  method WriteWhat(start: string, e: Event) returns (out: string)
    ensures out == start + Written(WhatProperties(e))
  {
    var description := DescriptionText(e);
    out := WriteIcs(start, "SUMMARY", e.title);
    out := WriteIcs(out, "DESCRIPTION", description);
    out := WriteIcs(out, "LOCATION", e.location);
    WrittenThree(start, Property("SUMMARY", e.title), Property("DESCRIPTION", description),
                 Property("LOCATION", e.location));
  }

  /** Its URL, only when there is one, and its state. */
  method WriteTail(start: string, e: Event) returns (out: string)
    ensures out == start + Written(TailProperties(e))
  {
    var state := Property("STATUS", StatusText(e.status));
    out := start;
    if e.url != "" {
      out := WriteIcs(out, "URL", e.url);
      WrittenOne(Property("URL", e.url));
      WrittenNext(start, [Property("URL", e.url)], state);
    } else {
      WrittenOne(state);
      assert TailProperties(e) == [state];
    }
    out := WriteIcs(out, "STATUS", StatusText(e.status));
  }

  lemma WrittenThreeParts(ps: seq<Property>, qs: seq<Property>, rs: seq<Property>)
    ensures Written(ps + qs + rs) == (Written(ps) + Written(qs)) + Written(rs)
  {
    WrittenConcat(ps + qs, rs);
    WrittenConcat(ps, qs);
  }

  lemma RegroupThree(start: string, a: string, b: string, c: string)
    ensures start + ((a + b) + c) == ((start + a) + b) + c
  {
  }

  lemma WrittenProperties(start: string, e: Event)
    ensures start + Written(Properties(e))
            == ((start + Written(WhenProperties(e))) + Written(WhatProperties(e))) + Written(TailProperties(e))
  {
    WrittenThreeParts(WhenProperties(e), WhatProperties(e), TailProperties(e));
    RegroupThree(start, Written(WhenProperties(e)), Written(WhatProperties(e)), Written(TailProperties(e)));
  }

  /** The properties of one event, written one after another. */
  method WriteEvent(start: string, e: Event) returns (out: string)
    ensures out == start + Written(Properties(e))
  {
    out := WriteWhen(start, e);
    out := WriteWhat(out, e);
    out := WriteTail(out, e);
    WrittenProperties(start, e);
  }

  lemma JoinComponent(ps: seq<Property>)
    ensures JoinLines(ComponentLines(ps)) == (BEGIN + "\r\n") + (Written(ps) + (END + "\r\n"))
  {
    JoinConcat([BEGIN], PropertyLines(ps) + [END]);
    JoinConcat(PropertyLines(ps), [END]);
    JoinOne(BEGIN);
    JoinOne(END);
  }

  lemma Regroup(start: string, begin: string, body: string, end: string)
    ensures ((start + begin) + body) + end == start + (begin + (body + end))
  {
  }

  method WriteComponent(start: string, e: Event) returns (out: string)
    ensures out == start + JoinLines(ComponentLines(Properties(e)))
  {
    ghost var ps := Properties(e);
    JoinComponent(ps);
    var begun := start + (BEGIN + "\r\n");
    var filled := WriteEvent(begun, e);
    out := filled + (END + "\r\n");
    Regroup(start, BEGIN + "\r\n", Written(ps), END + "\r\n");
  }

  function HeaderText(b: Branding): string {
    JoinLines(Header(b))
  }

  lemma EventLinesNext(events: seq<Event>, i: nat)
    requires i < |events|
    ensures EventLines(events[..i + 1]) == EventLines(events[..i]) + ComponentLines(Properties(events[i]))
  {
    FlatNext(events, i, EventBlock());
  }

  lemma JoinNext(head: seq<string>, lines: seq<string>, more: seq<string>)
    ensures JoinLines(head + (lines + more)) == JoinLines(head + lines) + JoinLines(more)
  {
    assert head + (lines + more) == (head + lines) + more;
    JoinConcat(head + lines, more);
  }

  lemma NextEventLines(b: Branding, events: seq<Event>, i: nat)
    requires i < |events|
    ensures JoinLines(Header(b) + EventLines(events[..i + 1]))
            == JoinLines(Header(b) + EventLines(events[..i])) + JoinLines(ComponentLines(Properties(events[i])))
  {
    EventLinesNext(events, i);
    JoinNext(Header(b), EventLines(events[..i]), ComponentLines(Properties(events[i])));
  }

  lemma NoEventLines(b: Branding, events: seq<Event>)
    ensures Header(b) + EventLines(events[..0]) == Header(b)
  {
    assert events[..0] == [];
  }

  /** RenderICS. */
  method RenderIcs(b: Branding, events: seq<Event>) returns (out: string)
    ensures out == JoinLines(FeedLines(b, events))
  {
    out := HeaderText(b);
    NoEventLines(b, events);
    for i := 0 to |events|
      invariant out == JoinLines(Header(b) + EventLines(events[..i]))
    {
      NextEventLines(b, events, i);
      out := WriteComponent(out, events[i]);
    }
    assert events[..|events|] == events;
    JoinConcat(Header(b) + EventLines(events), ["END:VCALENDAR"]);
    JoinOne("END:VCALENDAR");
    out := out + ("END:VCALENDAR" + "\r\n");
  }

  // ---------- what a calendar must have ----------

  lemma FourLines(p: Property, q: Property, r: Property, t: Property)
    ensures PropertyLines([p, q, r, t]) == [PropertyLine(p), PropertyLine(q), PropertyLine(r), PropertyLine(t)]
  {
    PropertyLinesConcat([p, q], [r, t]);
    TwoLines(p, q);
    TwoLines(r, t);
    assert [p, q] + [r, t] == [p, q, r, t];
  }

  lemma TwoLines(p: Property, q: Property)
    ensures PropertyLines([p, q]) == [PropertyLine(p), PropertyLine(q)]
  {
    OneLine(p);
    OneLine(q);
    PropertyLinesConcat([p], [q]);
    assert [p] + [q] == [p, q];
  }

  lemma OneLine(p: Property)
    ensures PropertyLines([p]) == [PropertyLine(p)]
  {
    assert [p][1..] == [];
  }

  lemma ThreeLines(p: Property, q: Property, r: Property)
    ensures PropertyLines([p, q, r]) == [PropertyLine(p), PropertyLine(q), PropertyLine(r)]
  {
    TwoLines(p, q);
    OneLine(r);
    PropertyLinesConcat([p, q], [r]);
    assert [p, q] + [r] == [p, q, r];
  }

  function Entry(key: string, value: string): string {
    key + ":" + Escape(value)
  }

  function WhenLines(e: Event): seq<string> {
    [Entry("UID", e.uid), Entry("DTSTAMP", Basic(e.updatedAt)), Entry("DTSTART", Basic(e.startsAt)),
     Entry("DTEND", Basic(e.endsAt))]
  }

  function WhatLines(e: Event, description: string): seq<string> {
    [Entry("SUMMARY", e.title), Entry("DESCRIPTION", description), Entry("LOCATION", e.location)]
  }

  function TailLines(e: Event): seq<string> {
    if e.url == "" then [StatusLine(e)] else [Entry("URL", e.url), StatusLine(e)]
  }

  function StatusLine(e: Event): string {
    Entry("STATUS", if e.status == Tentative then "TENTATIVE" else "CONFIRMED")
  }

  /** The lines of an event, as section 3.6.1 of RFC 5545 wants them; the description names the source. */
  function EventText(e: Event, description: string): seq<string> {
    ["BEGIN:VEVENT"] + (WhenLines(e) + WhatLines(e, description) + TailLines(e)) + ["END:VEVENT"]
  }

  lemma TailText(e: Event)
    ensures PropertyLines(TailProperties(e)) == TailLines(e)
  {
    var state := Property("STATUS", StatusText(e.status));
    if e.url == "" {
      OneLine(state);
      assert TailProperties(e) == [state];
    } else {
      TwoLines(Property("URL", e.url), state);
      assert TailProperties(e) == [Property("URL", e.url), state];
    }
  }

  lemma WhenText(e: Event)
    ensures PropertyLines(WhenProperties(e)) == WhenLines(e)
  {
    FourLines(Property("UID", e.uid), Property("DTSTAMP", Basic(e.updatedAt)), Property("DTSTART", Basic(e.startsAt)),
        Property("DTEND", Basic(e.endsAt)));
  }

  lemma WhatText(e: Event)
    ensures PropertyLines(WhatProperties(e)) == WhatLines(e, DescriptionText(e))
  {
    ThreeLines(Property("SUMMARY", e.title), Property("DESCRIPTION", DescriptionText(e)),
        Property("LOCATION", e.location));
  }

  lemma PropertyLinesThree(a: seq<Property>, b: seq<Property>, c: seq<Property>)
    ensures PropertyLines(a + b + c) == PropertyLines(a) + PropertyLines(b) + PropertyLines(c)
  {
    PropertyLinesConcat(a + b, c);
    PropertyLinesConcat(a, b);
  }

  lemma ComponentText(e: Event)
    ensures ComponentLines(Properties(e)) == EventText(e, DescriptionText(e))
  {
    WhenText(e);
    WhatText(e);
    TailText(e);
    PropertyLinesThree(WhenProperties(e), WhatProperties(e), TailProperties(e));
    FrameJoin(BEGIN, PropertyLines(Properties(e)), END);
  }

  lemma FrameJoin(p: string, lines: seq<string>, q: string)
    ensures [p] + (lines + [q]) == [p] + lines + [q]
  {
  }

  /** An event's lines stand between those of the events before and after it. */
  lemma EventLinesAround(before: seq<Event>, e: Event, after: seq<Event>)
    ensures EventLines((before + [e]) + after)
            == (EventLines(before) + ComponentLines(Properties(e))) + EventLines(after)
  {
    FlatConcat(before + [e], after, EventBlock());
    FlatSnoc(before, e, EventBlock());
  }

  /** What the calendar starts with: section 3.6 of RFC 5545 asks for the version and the product. */
  predicate StartsCalendar(lines: seq<string>, b: Branding) {
    && |lines| >= 8 && lines[0] == "BEGIN:VCALENDAR" && "VERSION:2.0" in lines[..7]
    && "PRODID:" + b.prodId in lines[..7] && "METHOD:PUBLISH" in lines[..7] && "CALSCALE:GREGORIAN" in lines[..7]
    && "X-WR-CALNAME:" + b.appName in lines[..7] && "X-WR-TIMEZONE:" + b.timezone in lines[..7]
  }

  lemma HeaderStarts(b: Branding, more: seq<string>)
    requires more != []
    ensures StartsCalendar(Header(b) + more, b)
  {
    var h, lines := Header(b), Header(b) + more;
    assert lines[..7] == h;
    assert h[0] == "BEGIN:VCALENDAR" && h[1] == "VERSION:2.0" && h[2] == "PRODID:" + b.prodId
           && h[3] == "CALSCALE:GREGORIAN" && h[4] == "METHOD:PUBLISH" && h[5] == "X-WR-CALNAME:" + b.appName
           && h[6] == "X-WR-TIMEZONE:" + b.timezone;
  }

  lemma Describes(e: Event)
    ensures IsCore(DescriptionText(e), e.description + "\n\nSource: " + e.source)
  {
    TrimIsCore(e.description + "\n\nSource: " + e.source);
  }

  /** The rendered lines are a calendar. */
  lemma FeedIsCalendar(b: Branding, events: seq<Event>)
    ensures var lines := FeedLines(b, events);
            StartsCalendar(lines, b) && lines[|lines| - 1] == "END:VCALENDAR"
  {
    HeaderStarts(b, EventLines(events) + ["END:VCALENDAR"]);
    assert FeedLines(b, events) == Header(b) + (EventLines(events) + ["END:VCALENDAR"]);
  }

  /** And every event is a component of it, with all its lines, between the events before and after it. */
  lemma FeedHasEvent(b: Branding, before: seq<Event>, e: Event, after: seq<Event>) returns (description: string)
    ensures FeedLines(b, (before + [e]) + after)
            == ((Header(b) + EventLines(before)) + EventText(e, description)) + (EventLines(after) + ["END:VCALENDAR"])
    ensures IsCore(description, e.description + "\n\nSource: " + e.source)
  {
    description := DescriptionText(e);
    Describes(e);
    ComponentText(e);
    EventLinesAround(before, e, after);
    Around(Header(b), EventLines(before), EventText(e, description), EventLines(after), ["END:VCALENDAR"]);
  }

  lemma Around(h: seq<string>, a: seq<string>, b: seq<string>, c: seq<string>, d: seq<string>)
    ensures h + ((a + b) + c) + d == ((h + a) + b) + (c + d)
  {
  }
}
