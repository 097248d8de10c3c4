/**
 The property layer of the iCalendar feed: property lines, how a line splits into key and
 value, and the component state machine of ParseICS.
 */
module IcsLines {
  import opened Text
  import opened Model
  import opened IcsText

  datatype Property = Property(key: string, value: string)

  const BEGIN := "BEGIN:VEVENT"
  const END := "END:VEVENT"

  /** strings.Split for a one-byte separator. */
  function Split(s: string, sep: char): (parts: seq<string>)
    ensures |parts| >= 1
    ensures sep !in s ==> parts == [s]
  {
    var i := IndexByte(s, sep);
    if i < 0 then [s] else [s[..i]] + Split(s[i + 1..], sep)
  }

  predicate EqualFold(a: string, b: string) {
    ToUpper(a) == ToUpper(b)
  }

  /** The value of the first TZID parameter, if there is one. */
  function TzidOf(parameters: seq<string>): Option<string> {
    if parameters == [] then None
    else
      var equals := IndexByte(parameters[0], '=');
      if equals > 0 && EqualFold(parameters[0][..equals], "TZID") then Some(parameters[0][equals + 1..])
      else TzidOf(parameters[1..])
  }

  /** The key without its parameters; a date's zone is moved in front of its value. */
  function SplitParts(raw: string, value: string): Property {
    var key := Split(ToUpper(raw), ';')[0];
    var tzid := if key == "DTSTART" || key == "DTEND" then TzidOf(Split(raw, ';')[1..]) else None;
    Property(key, if tzid.Some? then "[TZID=" + tzid.value + "]" + value else value)
  }

  /** splitICSLine. */
  function SplitLine(line: string): Option<Property> {
    var colon := IndexByte(line, ':');
    if colon < 0 then None else Some(SplitParts(line[..colon], line[colon + 1..]))
  }

  // ---------- the component state machine ----------

  type Component = map<string, string>

  /** What END:VEVENT makes of a component: a parse error, nothing, or an event. */
  datatype Built = Invalid | Ignored | Accepted(event: Event)

  datatype ParseState = Broken | Parsing(events: seq<Event>, component: Option<Component>)

  function Step(st: ParseState, line: string, build: Component -> Built): ParseState {
    if st.Broken? then st
    else if line == BEGIN then st.(component := Some(map[]))
    else if st.component.None? then st
    else if line == END then
      match build(st.component.value)
      case Invalid => Broken
      case Ignored => Parsing(st.events, None)
      case Accepted(event) => Parsing(st.events + [event], None)
    else
      match SplitLine(line)
      case None => st
      case Some(p) => st.(component := Some(st.component.value[p.key := Unescape(p.value)]))
  }

  function Steps(st: ParseState, lines: seq<string>, build: Component -> Built): ParseState
    decreases |lines|
  {
    if lines == [] then st else Steps(Step(st, lines[0], build), lines[1..], build)
  }

  lemma {:induction false} StepsConcat(st: ParseState, a: seq<string>, b: seq<string>, build: Component -> Built)
    ensures Steps(st, a + b, build) == Steps(Steps(st, a, build), b, build)
    decreases |a|
  {
    if a == [] {
      assert a + b == b;
    } else {
      assert (a + b)[0] == a[0] && (a + b)[1..] == a[1..] + b;
      StepsConcat(Step(st, a[0], build), a[1..], b, build);
    }
  }

  /** The line loop of ParseICS; None is its error return. */
  method ParseLines(lines: seq<string>, build: Component -> Built) returns (result: Option<seq<Event>>)
    ensures var end := Steps(Parsing([], None), lines, build);
            result == if end.Broken? then None else Some(end.events)
  {
    var events: seq<Event>, component: Option<Component> := [], None;
    for i := 0 to |lines|
      invariant Steps(Parsing(events, component), lines[i..], build) == Steps(Parsing([], None), lines, build)
    {
      var line := lines[i];
      assert lines[i..][0] == line && lines[i..][1..] == lines[i + 1..];
      if line == BEGIN {
        component := Some(map[]);
      } else if line == END {
        if component.Some? {
          var built := build(component.value);
          if built.Invalid? {
            BrokenStays(lines[i + 1..], build);
            return None;
          }
          if built.Accepted? {
            events := events + [built.event];
          }
          component := None;
        }
      } else if component.Some? {
        var property := SplitLine(line);
        if property.Some? {
          component := Some(component.value[property.value.key := Unescape(property.value.value)]);
        }
      }
    }
    result := Some(events);
  }

  lemma {:induction false} BrokenStays(lines: seq<string>, build: Component -> Built)
    ensures Steps(Broken, lines, build) == Broken
  {
    if lines == [] {
    } else {
      BrokenStays(lines[1..], build);
    }
  }

  // ---------- written properties are read back ----------

  /** A line of writeICS, without its line break. */
  function PropertyLine(p: Property): string {
    p.key + ":" + Escape(p.value)
  }

  predicate PlainKey(key: string) {
    && key != "" && key != "BEGIN" && key != "END"
    && forall i :: 0 <= i < |key| ==> key[i] == '-' || 'A' <= key[i] <= 'Z'
  }

  lemma PlainKeyFacts(key: string)
    requires PlainKey(key)
    ensures ToUpper(key) == key && ':' !in key && ';' !in key
  {
  }

  function KeyPart(line: string): string {
    var colon := IndexByte(line, ':');
    if colon < 0 then line else line[..colon]
  }

  lemma KeyPartOf(key: string, value: string)
    requires ':' !in key
    ensures KeyPart(key + ":" + value) == key && IndexByte(key + ":" + value, ':') == |key|
    ensures (key + ":" + value)[|key| + 1..] == value
  {
    var line := key + ":" + value;
    assert line == key + [':'] + value;
    IndexByteOf(key, ':', value);
  }

  lemma BeginKey()
    ensures KeyPart(BEGIN) == "BEGIN"
  {
    KeyPartOf("BEGIN", "VEVENT");
    assert BEGIN == "BEGIN" + ":" + "VEVENT";
  }

  lemma EndKey()
    ensures KeyPart(END) == "END"
  {
    KeyPartOf("END", "VEVENT");
    assert END == "END" + ":" + "VEVENT";
  }

  lemma SplitPlain(key: string, value: string)
    requires PlainKey(key)
    ensures SplitLine(key + ":" + value) == Some(Property(key, value))
  {
    PlainKeyFacts(key);
    KeyPartOf(key, value);
    assert Split(key, ';')[1..] == [];
  }

  lemma PropertyReadBack(p: Property)
    requires PlainKey(p.key)
    ensures SplitLine(PropertyLine(p)) == Some(Property(p.key, Escape(p.value)))
    ensures PropertyLine(p) != BEGIN && PropertyLine(p) != END
  {
    SplitPlain(p.key, Escape(p.value));
    PlainKeyFacts(p.key);
    KeyPartOf(p.key, Escape(p.value));
    BeginKey();
    EndKey();
  }

  function Put(component: Component, ps: seq<Property>): Component
    decreases |ps|
  {
    if ps == [] then component else Put(component[ps[0].key := ps[0].value], ps[1..])
  }

  function PropertyLines(ps: seq<Property>): seq<string> {
    if ps == [] then [] else [PropertyLine(ps[0])] + PropertyLines(ps[1..])
  }

  /** A line that names a property is put into the open component. */
  lemma PutStep(done: seq<Event>, c: Component, line: string, p: Property, build: Component -> Built)
    requires line != BEGIN && line != END && SplitLine(line) == Some(p)
    ensures Step(Parsing(done, Some(c)), line, build) == Parsing(done, Some(c[p.key := Unescape(p.value)]))
  {
  }

  lemma PropertyStep(events: seq<Event>, component: Component, p: Property, build: Component -> Built)
    requires PlainKey(p.key)
    ensures Step(Parsing(events, Some(component)), PropertyLine(p), build)
            == Parsing(events, Some(component[p.key := p.value]))
  {
    PropertyReadBack(p);
    UnescapeEscape(p.value);
    PutStep(events, component, PropertyLine(p), Property(p.key, Escape(p.value)), build);
  }

  lemma {:induction false} PropertiesReadBack(events: seq<Event>, component: Component, ps: seq<Property>,
      build: Component -> Built)
    requires forall i :: 0 <= i < |ps| ==> PlainKey(ps[i].key)
    ensures Steps(Parsing(events, Some(component)), PropertyLines(ps), build)
            == Parsing(events, Some(Put(component, ps)))
    decreases |ps|
  {
    if ps == [] {
    } else {
      PropertyStep(events, component, ps[0], build);
      PropertiesReadBack(events, component[ps[0].key := ps[0].value], ps[1..], build);
    }
  }

  function ComponentLines(ps: seq<Property>): seq<string> {
    [BEGIN] + (PropertyLines(ps) + [END])
  }

  /** What a built component adds to the events. */
  function Added(built: Built): seq<Event> {
    if built.Accepted? then [built.event] else []
  }

  lemma FrameSteps(events: seq<Event>, component: Component, build: Component -> Built)
    requires !build(component).Invalid?
    ensures Step(Parsing(events, None), BEGIN, build) == Parsing(events, Some(map[]))
    ensures Step(Parsing(events, Some(component)), END, build) == Parsing(events + Added(build(component)), None)
  {
    assert BEGIN[0] == 'B' && END[0] == 'E';
    assert events + [] == events;
  }

  /** A written component is handed to `build` as the map of its properties. */
  lemma ComponentReadBack(events: seq<Event>, ps: seq<Property>, build: Component -> Built)
    requires forall i :: 0 <= i < |ps| ==> PlainKey(ps[i].key)
    requires !build(Put(map[], ps)).Invalid?
    ensures Steps(Parsing(events, None), ComponentLines(ps), build)
            == Parsing(events + Added(build(Put(map[], ps))), None)
  {
    FrameSteps(events, Put(map[], ps), build);
    OneStep(Parsing(events, None), BEGIN, PropertyLines(ps) + [END], build);
    StepsConcat(Parsing(events, Some(map[])), PropertyLines(ps), [END], build);
    PropertiesReadBack(events, map[], ps, build);
    LastStep(Parsing(events, Some(Put(map[], ps))), END, build);
  }

  lemma LastStep(st: ParseState, line: string, build: Component -> Built)
    ensures Steps(st, [line], build) == Step(st, line, build)
  {
    assert [line][1..] == [];
  }

  lemma OneStep(st: ParseState, line: string, more: seq<string>, build: Component -> Built)
    ensures Steps(st, [line] + more, build) == Steps(Step(st, line, build), more, build)
  {
    assert ([line] + more)[1..] == more;
  }

  /** Lines outside a component that do not open one change nothing. */
  lemma {:induction false} OutsideLines(events: seq<Event>, lines: seq<string>, build: Component -> Built)
    requires forall i :: 0 <= i < |lines| ==> lines[i] != BEGIN
    ensures Steps(Parsing(events, None), lines, build) == Parsing(events, None)
  {
    if lines == [] {
    } else {
      OutsideLines(events, lines[1..], build);
    }
  }
}
