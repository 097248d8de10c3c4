/**
 Reading feeds that others publish: times with a zone, days without a time, lines broken by a
 line feed alone, missing properties, and times that cannot be read.
 */
module ForeignFeed {
  import opened Text
  import opened Model
  import opened Timestamps
  import opened Keys
  import opened IcsText
  import opened IcsLines
  import opened Feed
  import opened RoundTrip

  // ---------- local times ----------

  /** A second as local text, byte by byte; LocalIsBasic says that it is the text in UTC without its Z. */
  function LocalText(second: int): (s: string)
    requires InRange(second)
    ensures |s| == 15
  {
    seq(15, i requires 0 <= i < 15 => BasicByte(second, i))
  }

  lemma LocalIsBasic(second: int)
    requires InRange(second)
    ensures |Basic(second * NANOS)| == 16 && LocalText(second) == Basic(second * NANOS)[..15]
  {
    assert SecondOf(second * NANOS) == second;
    var s, t := LocalText(second), Basic(second * NANOS);
    assert forall i :: 0 <= i < 15 ==> s[i] == t[i];
  }

  /** The day of a second alone. */
  function DayText(second: int): string
    requires InRange(second)
  {
    LocalText(second)[..8]
  }

  ghost predicate IsLocal(value: string, second: int) {
    InRange(second) && value == LocalText(second)
  }

  lemma ParsePrefixes(c: Civil, s: string)
    requires c.Valid() && 0 <= c.year <= 9999 && s == BasicText(c)
    ensures |s| == 16 && ParseBasic(s[..15]) == CivilSecond(c)
    ensures ParseBasic(s[..8]) == CivilSecond(Civil(c.year, c.month, c.day, 0, 0, 0))
  {
    BasicFields(c, s);
    NumberPad4(c.year);
    NumberPad2(c.month);
    NumberPad2(c.day);
    NumberPad2(c.hour);
    NumberPad2(c.minute);
    NumberPad2(c.second);
    Prefixes(s);
  }

  lemma Prefixes(s: string)
    requires |s| == 16
    ensures var t := s[..15];
            && t[..4] == s[..4] && t[4..6] == s[4..6] && t[6..8] == s[6..8] && t[8] == s[8]
            && t[9..11] == s[9..11] && t[11..13] == s[11..13] && t[13..15] == s[13..15]
    ensures var t := s[..8]; t[..4] == s[..4] && t[4..6] == s[4..6] && t[6..8] == s[6..8]
  {
  }

  lemma MidnightOf(day: int, clock: int)
    requires 0 <= clock < DAY
    ensures (day * DAY + clock) / DAY * DAY == day * DAY
  {
  }

  lemma CivilDay(c: Civil, second: int)
    requires c.Valid() && c.ToSecond() == second
    ensures CivilSecond(c) == Some(second)
    ensures CivilSecond(Civil(c.year, c.month, c.day, 0, 0, 0)) == Some(second / DAY * DAY)
  {
    var midnight := Civil(c.year, c.month, c.day, 0, 0, 0);
    assert midnight.Valid() && midnight.Day() == c.Day();
    MidnightOf(c.Day(), c.hour * 3600 + c.minute * 60 + c.second);
  }

  lemma LocalParts(second: int)
    requires InRange(second)
    ensures var s := BasicText(ToCivil(second)); LocalText(second) == s[..15] && DayText(second) == s[..8]
  {
    BasicLengthOk(second);
    var s, t := BasicText(ToCivil(second)), LocalText(second);
    assert forall i :: 0 <= i < 15 ==> t[i] == s[i];
    assert t == s[..15] && t[..8] == s[..8];
  }

  /** Local text reads back as the second, a day as its midnight. */
  lemma LocalReadBack(second: int)
    requires InRange(second)
    ensures ParseBasic(LocalText(second)) == Some(second)
    ensures ParseBasic(DayText(second)) == Some(second / DAY * DAY) && |DayText(second)| == 8
  {
    var c := ToCivil(second);
    YearInRange(second);
    LocalParts(second);
    ParsePrefixes(c, BasicText(c));
    CivilDay(c, second);
  }

  /** A value without backslashes or line feeds that does not end in white space. */
  predicate PlainValue(value: string) {
    value != "" && '\\' !in value && '\n' !in value && !IsSpace(value[|value| - 1])
  }

  lemma SliceDigits(s: string, i: nat, j: nat)
    requires i <= j <= |s| && AllDigits(s[i..j])
    ensures forall k :: i <= k < j ==> IsDigit(s[k])
  {
    assert forall k :: i <= k < j ==> s[i..j][k - i] == s[k];
  }

  /** What is read as a time is made of digits, but for the T and a Z. */
  lemma ReadableIsPlain(s: string)
    requires ParseBasic(s).Some?
    ensures PlainValue(s) && IsDigit(s[0])
  {
    SliceDigits(s, 0, 4);
    SliceDigits(s, 4, 6);
    SliceDigits(s, 6, 8);
    if |s| >= 15 {
      SliceDigits(s, 9, 11);
      SliceDigits(s, 11, 13);
      SliceDigits(s, 13, 15);
    }
    assert forall i :: 0 <= i < |s| ==> IsDigit(s[i]) || s[i] == 'T' || s[i] == 'Z';
  }

  lemma LocalReads(second: int) returns (value: string)
    requires InRange(second)
    ensures value == LocalText(second) && ParseBasic(value) == Some(second) && PlainValue(value) && |value| == 15
  {
    value := LocalText(second);
    LocalReadBack(second);
    ReadableIsPlain(value);
  }

  /** A value as the line splitter hands it on: the zone in front of the time. */
  function Zoned(zone: string, value: string): string {
    TZID + (zone + ("]" + value))
  }

  lemma ZonedParts(zone: string, value: string)
    requires ']' !in zone
    ensures var s := Zoned(zone, value); var end := |TZID| + |zone|;
            TZID <= s && IndexByte(s, ']') == end && s[|TZID|..end] == zone && s[end + 1..] == value
  {
    var s := Zoned(zone, value);
    assert ']' !in TZID by { assert TZID == ['[', 'T', 'Z', 'I', 'D', '=']; }
    assert s == (TZID + zone) + [']'] + value;
    IndexByteOf(TZID + zone, ']', value);
  }

  lemma ZonedTrims(zone: string, value: string)
    requires value != "" && !IsSpace(value[|value| - 1])
    ensures TrimSpace(Zoned(zone, value)) == Zoned(zone, value)
  {
    var s := Zoned(zone, value);
    assert s[0] == '[' && s[|s| - 1] == value[|value| - 1];
    TrimNothing(s);
  }

  lemma ZonedParse(zone: string, value: string, zones: Zones)
    requires ']' !in zone && PlainValue(value)
    ensures ParseDate(Zoned(zone, value), zones)
            == if zone in zones && ParseBasic(value).Some?
               then Some((ParseBasic(value).value - zones[zone]) * NANOS) else None
  {
    ZonedTrims(zone, value);
    ZonedParts(zone, value);
  }

  lemma ZonedReads(zone: string, value: string, local: int, instant: int, zones: Zones)
    requires ']' !in zone && zone in zones && local == instant + zones[zone]
    requires PlainValue(value) && ParseBasic(value) == Some(local)
    ensures ParseDate(Zoned(zone, value), zones) == Some(instant * NANOS)
  {
    ZonedParse(zone, value, zones);
  }

  lemma UnknownZone(zone: string, value: string, zones: Zones)
    requires ']' !in zone && zone !in zones && PlainValue(value)
    ensures ParseDate(Zoned(zone, value), zones) == None
  {
    ZonedParse(zone, value, zones);
  }

  /** A time with a zone is read as the instant whose local time it is: the offset from UTC is taken off. */
  lemma ZonedDateReadBack(zone: string, value: string, local: int, instant: int, zones: Zones)
    requires ']' !in zone && zone in zones && local == instant + zones[zone] && IsLocal(value, local)
    ensures ParseDate(Zoned(zone, value), zones) == Some(instant * NANOS)
  {
    var _ := LocalReads(local);
    ZonedReads(zone, value, local, instant, zones);
  }

  lemma PlainParse(value: string, zones: Zones)
    requires PlainValue(value) && IsDigit(value[0])
    ensures ParseDate(value, zones)
            == if ParseBasic(value).Some? then Some(ParseBasic(value).value * NANOS) else None
  {
    assert TZID[0] == '[';
    TrimNothing(value);
  }

  /** A day alone is its midnight in UTC, and a time without zone and Z is in UTC. */
  lemma PlainDateReadBack(second: int, zones: Zones)
    requires InRange(second)
    ensures ParseDate(DayText(second), zones) == Some(second / DAY * DAY * NANOS)
    ensures ParseDate(LocalText(second), zones) == Some(second * NANOS)
  {
    LocalReadBack(second);
    ReadableIsPlain(LocalText(second));
    ReadableIsPlain(DayText(second));
    PlainParse(LocalText(second), zones);
    PlainParse(DayText(second), zones);
  }

  // ---------- parameters ----------

  lemma {:induction false} SplitNext(a: string, b: string, sep: char)
    requires sep !in a
    ensures Split(a + [sep] + b, sep) == [a] + Split(b, sep)
  {
    var s := a + [sep] + b;
    IndexByteOf(a, sep, b);
    assert s[..|a|] == a && s[|a| + 1..] == b;
  }

  /** A parameter that names a zone, in whatever case. */
  ghost predicate NamesZone(parameter: string, zone: string) {
    exists name :: '=' !in name && SameButForCase(name, "TZID") && parameter == name + ("=" + zone)
  }

  lemma ParameterParts(parameter: string, zone: string)
    ensures var equals := IndexByte(parameter, '=');
            NamesZone(parameter, zone)
            <==> equals > 0 && EqualFold(parameter[..equals], "TZID") && parameter[equals + 1..] == zone
  {
    var equals := IndexByte(parameter, '=');
    if NamesZone(parameter, zone) {
      var name :| '=' !in name && SameButForCase(name, "TZID") && parameter == name + ("=" + zone);
      assert parameter == name + ['='] + zone;
      IndexByteOf(name, '=', zone);
      assert parameter[..equals] == name && parameter[equals + 1..] == zone;
      UpperExactly(name, "TZID");
    }
    if equals > 0 && EqualFold(parameter[..equals], "TZID") && parameter[equals + 1..] == zone {
      UpperExactly(parameter[..equals], "TZID");
      assert parameter == parameter[..equals] + ("=" + zone);
    }
  }

  ghost predicate HasZone(parameter: string) {
    exists zone :: NamesZone(parameter, zone)
  }

  lemma HasZoneExactly(parameter: string)
    ensures var equals := IndexByte(parameter, '=');
            HasZone(parameter) <==> equals > 0 && EqualFold(parameter[..equals], "TZID")
  {
    var equals := IndexByte(parameter, '=');
    if HasZone(parameter) {
      var zone :| NamesZone(parameter, zone);
      ParameterParts(parameter, zone);
    }
    if equals > 0 { ParameterParts(parameter, parameter[equals + 1..]); }
  }

  /** The first parameter that names a zone. */
  ghost predicate ZoneAt(parameters: seq<string>, i: nat) {
    i < |parameters| && HasZone(parameters[i]) && forall j :: 0 <= j < i ==> !HasZone(parameters[j])
  }

  lemma ZoneAtNext(first: string, rest: seq<string>, i: nat)
    requires !HasZone(first)
    ensures ZoneAt([first] + rest, i + 1) <==> ZoneAt(rest, i)
  {
    var all := [first] + rest;
    assert forall j :: 0 <= j < |rest| ==> all[j + 1] == rest[j];
    if ZoneAt(all, i + 1) {
      forall j | 0 <= j < i ensures !HasZone(rest[j]) { assert all[j + 1] == rest[j]; }
    }
  }

  lemma ZoneNext(first: string, rest: seq<string>)
    ensures !HasZone(first) ==> TzidOf([first] + rest) == TzidOf(rest)
    ensures forall zone :: NamesZone(first, zone) ==> TzidOf([first] + rest) == Some(zone)
  {
    var all := [first] + rest;
    assert all[0] == first && all[1..] == rest;
    HasZoneExactly(first);
    forall zone | NamesZone(first, zone) ensures TzidOf(all) == Some(zone) {
      ParameterParts(first, zone);
    }
  }

  /** Of several zones the first counts, whatever other parameters stand before it. */
  lemma {:induction false} FirstZoneCounts(parameters: seq<string>, i: nat, zone: string)
    requires ZoneAt(parameters, i) && NamesZone(parameters[i], zone)
    ensures TzidOf(parameters) == Some(zone)
  {
    var first, rest := parameters[0], parameters[1..];
    assert parameters == [first] + rest;
    ZoneNext(first, rest);
    if i > 0 {
      assert !HasZone(first);
      ZoneAtNext(first, rest, i - 1);
      assert rest[i - 1] == parameters[i];
      FirstZoneCounts(rest, i - 1, zone);
    }
  }

  lemma {:induction false} NoZone(parameters: seq<string>)
    requires forall i :: 0 <= i < |parameters| ==> !HasZone(parameters[i])
    ensures TzidOf(parameters) == None
  {
    if parameters == [] {
    } else {
      assert parameters == [parameters[0]] + parameters[1..];
      ZoneNext(parameters[0], parameters[1..]);
      NoZone(parameters[1..]);
    }
  }

  /** Texts made of letters only. */
  predicate Letters(s: string) {
    forall i :: 0 <= i < |s| ==> 'A' <= s[i] <= 'Z' || 'a' <= s[i] <= 'z'
  }

  lemma LettersInAnyCase(s: string, word: string)
    requires SameButForCase(s, word) && Letters(word)
    ensures Letters(s) && ':' !in s && ';' !in s && '=' !in s
  {
  }

  /** A name that a zone can have. */
  predicate PlainZone(zone: string) {
    ':' !in zone && ';' !in zone && ']' !in zone && '\\' !in zone && '\n' !in zone
  }

  lemma UpperConcat(a: string, b: string)
    ensures ToUpper(a + b) == ToUpper(a) + ToUpper(b)
  {
    var s, t := ToUpper(a + b), ToUpper(a) + ToUpper(b);
    assert |s| == |t|;
    assert forall i :: 0 <= i < |s| ==> s[i] == t[i];
  }

  lemma UpperKeeps(s: string, c: char)
    requires c !in s && !('A' <= c <= 'Z')
    ensures c !in ToUpper(s)
  {
    var u := ToUpper(s);
    assert forall i :: 0 <= i < |u| ==> s[i] in s && u[i] == UpperByte(s[i]);
  }

  /** The key of a line is what stands before its parameters, in capitals. */
  lemma KeyBeforeParameters(key: string, rest: string)
    requires ';' !in key
    ensures Split(ToUpper(key + (";" + rest)), ';')[0] == ToUpper(key)
  {
    UpperConcat(key, ";" + rest);
    UpperConcat(";", rest);
    assert ToUpper(";") == ";";
    UpperKeeps(key, ';');
    assert ToUpper(key) + (";" + ToUpper(rest)) == ToUpper(key) + [';'] + ToUpper(rest);
    SplitNext(ToUpper(key), ToUpper(rest), ';');
  }

  lemma OneZone(name: string, zone: string)
    requires '=' !in name && SameButForCase(name, "TZID")
    ensures TzidOf([name + ("=" + zone)]) == Some(zone)
  {
    ParameterParts(name + ("=" + zone), zone);
    assert [name + ("=" + zone)][1..] == [];
  }

  lemma ColonAfter(head: string, value: string)
    requires ':' !in head
    ensures var line := head + (":" + value);
            IndexByte(line, ':') == |head| && line[..|head|] == head && line[|head| + 1..] == value
  {
    assert head + (":" + value) == head + [':'] + value;
    IndexByteOf(head, ':', value);
  }

  /** A line for the start or the end of an event with its zone, as section 3.2.19 of RFC 5545 has it. */
  function ZonedLine(key: string, name: string, zone: string, value: string): string {
    (key + (";" + (name + ("=" + zone)))) + (":" + value)
  }

  /** Only the two times of an event take a zone. */
  predicate IsTimeKey(key: string) {
    SameButForCase(key, "DTSTART") || SameButForCase(key, "DTEND")
  }

  lemma TimeKey(key: string)
    requires IsTimeKey(key)
    ensures Letters(key) && (ToUpper(key) == "DTSTART" || ToUpper(key) == "DTEND")
    ensures ':' !in key && ';' !in key
  {
    assert ToUpper("DTSTART") == "DTSTART" && ToUpper("DTEND") == "DTEND";
    if SameButForCase(key, "DTSTART") {
      UpperExactly(key, "DTSTART");
      LettersInAnyCase(key, "DTSTART");
    } else {
      UpperExactly(key, "DTEND");
      LettersInAnyCase(key, "DTEND");
    }
  }

  lemma LineParts(head: string, value: string)
    requires ':' !in head
    ensures SplitLine(head + (":" + value)) == Some(SplitParts(head, value))
  {
    ColonAfter(head, value);
  }

  lemma ZonedText(zone: string, value: string)
    ensures Zoned(zone, value) == "[TZID=" + zone + "]" + value
  {
  }

  lemma TimeParts(head: string, value: string, key: string, zone: string)
    requires Split(ToUpper(head), ';')[0] == key && (key == "DTSTART" || key == "DTEND")
    requires TzidOf(Split(head, ';')[1..]) == Some(zone)
    ensures SplitParts(head, value) == Property(key, Zoned(zone, value))
  {
    ZonedText(zone, value);
  }

  lemma ZoneOfHead(key: string, parameter: string, zone: string)
    requires ';' !in key && ';' !in parameter && TzidOf([parameter]) == Some(zone)
    ensures TzidOf(Split(key + (";" + parameter), ';')[1..]) == Some(zone)
  {
    assert key + (";" + parameter) == key + [';'] + parameter;
    SplitNext(key, parameter, ';');
    assert Split(key + (";" + parameter), ';')[1..] == [parameter];
  }

  lemma HeadOfLine(key: string, parameter: string, zone: string) returns (head: string)
    requires ':' !in key && ';' !in key && ':' !in parameter && ';' !in parameter && TzidOf([parameter]) == Some(zone)
    ensures head == key + (";" + parameter) && ':' !in head
    ensures Split(ToUpper(head), ';')[0] == ToUpper(key) && TzidOf(Split(head, ';')[1..]) == Some(zone)
  {
    head := key + (";" + parameter);
    KeyBeforeParameters(key, parameter);
    ZoneOfHead(key, parameter, zone);
  }

  lemma HeadSplits(key: string, parameter: string, value: string, zone: string)
    requires IsTimeKey(key) && ':' !in parameter && ';' !in parameter && TzidOf([parameter]) == Some(zone)
    ensures SplitLine((key + (";" + parameter)) + (":" + value)) == Some(Property(ToUpper(key), Zoned(zone, value)))
  {
    TimeKey(key);
    var head := HeadOfLine(key, parameter, zone);
    LineParts(head, value);
    TimeParts(head, value, ToUpper(key), zone);
  }

  lemma ZoneParameter(name: string, zone: string)
    requires SameButForCase(name, "TZID") && ':' !in zone && ';' !in zone
    ensures var parameter := name + ("=" + zone);
            ':' !in parameter && ';' !in parameter && TzidOf([parameter]) == Some(zone)
  {
    assert Letters("TZID");
    LettersInAnyCase(name, "TZID");
    OneZone(name, zone);
  }

  lemma ZonedLineSplits(key: string, name: string, zone: string, value: string)
    requires IsTimeKey(key) && SameButForCase(name, "TZID") && ':' !in zone && ';' !in zone
    ensures SplitLine(ZonedLine(key, name, zone, value)) == Some(Property(ToUpper(key), Zoned(zone, value)))
  {
    ZoneParameter(name, zone);
    HeadSplits(key, name + ("=" + zone), value, zone);
  }

  // ---------- one event with a zone, from text to event ----------

  lemma {:induction false} UnescapePlain(s: string)
    requires '\\' !in s
    ensures Unescape(s) == s
  {
    if s == [] {
    } else {
      assert s == [s[0]] + s[1..];
      UnescapePlain(s[1..]);
    }
  }

  lemma ZonedPlain(zone: string, value: string)
    requires PlainZone(zone) && PlainValue(value)
    ensures Unescape(Zoned(zone, value)) == Zoned(zone, value)
  {
    assert '\\' !in TZID by { assert TZID == ['[', 'T', 'Z', 'I', 'D', '=']; }
    UnescapePlain(Zoned(zone, value));
  }

  function Summary(title: string): Property {
    Property("SUMMARY", title)
  }

  lemma SummaryKey(title: string)
    ensures PlainKey(Summary(title).key)
  {
  }

  /** A component with a start in a zone and a title. */
  function ZonedFeed(key: string, name: string, zone: string, value: string, title: string): seq<string> {
    [BEGIN] + [ZonedLine(key, name, zone, value)] + [PropertyLine(Summary(title))] + [END]
  }

  /** Lines that a scan finds as they are. */
  predicate CleanLine(line: string) {
    WholeLine(line) && !EndsInCr(line) && |line| < LIMIT
  }

  predicate AllClean(lines: seq<string>) {
    forall i :: 0 <= i < |lines| ==> CleanLine(lines[i])
  }

  lemma CleanFeed(lines: seq<string>)
    requires AllClean(lines)
    ensures Unfold(PhysicalLines(JoinLines(lines))) == lines
  {
    WholeUnfolds(lines);
    ScannedShort(lines);
    ChompedSame(lines);
  }

  /** A line between a first letter and a plain end. */
  lemma CleanBetween(first: string, last: string)
    requires first != "" && !StartsBlank(first) && '\n' !in first && '\n' !in last && !EndsInCr(last)
    requires last == "" ==> !EndsInCr(first)
    requires |first| + |last| < LIMIT
    ensures CleanLine(first + last)
  {
    var line := first + last;
    assert line[0] == first[0] && line[|line| - 1] == if last == "" then first[|first| - 1] else last[|last| - 1];
  }

  lemma ZonedLineClean(key: string, name: string, zone: string, value: string)
    requires SameButForCase(key, "DTSTART") && SameButForCase(name, "TZID") && PlainZone(zone) && PlainValue(value)
    requires |zone| + |value| < LIMIT - 64
    ensures CleanLine(ZonedLine(key, name, zone, value))
  {
    TimeKey(key);
    assert Letters("TZID");
    LettersInAnyCase(name, "TZID");
    var head := (key + (";" + (name + ("=" + zone)))) + ":";
    assert head[0] == key[0] && |head| < |zone| + 64;
    CleanBetween(head, value);
    assert head + value == ZonedLine(key, name, zone, value);
  }

  lemma SummaryClean(title: string)
    requires !EndsInCr(title) && |Escape(title)| < LIMIT - 8
    ensures CleanLine(PropertyLine(Summary(title)))
  {
    SummaryKey(title);
    WholePropertyLine(Summary(title));
    ChompLine(Summary(title));
    assert Chomp(Summary(title)) == Summary(title);
  }

  lemma FrameClean()
    ensures CleanLine(BEGIN) && CleanLine(END)
  {
    assert BEGIN[0] == 'B' && END[0] == 'E' && BEGIN[|BEGIN| - 1] == 'T' && END[|END| - 1] == 'T';
  }

  lemma FeedClean(key: string, name: string, zone: string, value: string, title: string)
    requires SameButForCase(key, "DTSTART") && SameButForCase(name, "TZID") && PlainZone(zone) && PlainValue(value)
    requires |zone| + |value| < LIMIT - 64 && !EndsInCr(title) && |Escape(title)| < LIMIT - 8
    ensures AllClean(ZonedFeed(key, name, zone, value, title))
  {
    ZonedLineClean(key, name, zone, value);
    SummaryClean(title);
    FrameClean();
    FourClean(BEGIN, ZonedLine(key, name, zone, value), PropertyLine(Summary(title)), END);
  }

  lemma FourClean(p: string, q: string, r: string, t: string)
    requires CleanLine(p) && CleanLine(q) && CleanLine(r) && CleanLine(t)
    ensures AllClean([p] + [q] + [r] + [t])
  {
  }

  /** What the component of such a feed holds. */
  function ZonedComponent(zone: string, value: string, title: string): Component {
    map["DTSTART" := Zoned(zone, value), "SUMMARY" := title]
  }

  lemma StartStep(key: string, name: string, zone: string, value: string, build: Component -> Built)
    requires SameButForCase(key, "DTSTART") && SameButForCase(name, "TZID") && PlainZone(zone) && PlainValue(value)
    ensures Step(Parsing([], Some(map[])), ZonedLine(key, name, zone, value), build)
            == Parsing([], Some(map["DTSTART" := Zoned(zone, value)]))
  {
    var line := ZonedLine(key, name, zone, value);
    ZonedLineSplits(key, name, zone, value);
    UpperExactly(key, "DTSTART");
    assert ToUpper("DTSTART") == "DTSTART";
    ZonedPlain(zone, value);
    assert SameLetter(key[0], 'D') && line[0] == key[0] && BEGIN[0] == 'B' && END[0] == 'E';
    PutStep([], map[], line, Property("DTSTART", Zoned(zone, value)), build);
  }

  lemma SummaryStep(c: Component, title: string, build: Component -> Built)
    ensures Step(Parsing([], Some(c)), PropertyLine(Summary(title)), build)
            == Parsing([], Some(c["SUMMARY" := title]))
  {
    SummaryKey(title);
    PropertyReadBack(Summary(title));
    UnescapeEscape(title);
    PutStep([], c, PropertyLine(Summary(title)), Property("SUMMARY", Escape(title)), build);
  }

  lemma ZonedSteps(key: string, name: string, zone: string, value: string, title: string, build: Component -> Built)
    requires SameButForCase(key, "DTSTART") && SameButForCase(name, "TZID") && PlainZone(zone) && PlainValue(value)
    requires !build(ZonedComponent(zone, value, title)).Invalid?
    ensures Steps(Parsing([], None), ZonedFeed(key, name, zone, value, title), build)
            == Parsing(Added(build(ZonedComponent(zone, value, title))), None)
  {
    var one: Component := map["DTSTART" := Zoned(zone, value)];
    var two := ZonedComponent(zone, value, title);
    assert one["SUMMARY" := title] == two;
    FrameSteps([], two, build);
    StartStep(key, name, zone, value, build);
    SummaryStep(one, title, build);
    FourSteps(Parsing([], None), BEGIN, ZonedLine(key, name, zone, value), PropertyLine(Summary(title)), END, build);
    assert [] + Added(build(two)) == Added(build(two));
  }

  lemma FourSteps(st: ParseState, p: string, q: string, r: string, t: string, build: Component -> Built)
    ensures Steps(st, [p] + [q] + [r] + [t], build)
            == Step(Step(Step(Step(st, p, build), q, build), r, build), t, build)
  {
    StepsConcat(st, [p] + [q] + [r], [t], build);
    StepsConcat(st, [p] + [q], [r], build);
    StepsConcat(st, [p], [q], build);
    LastStep(st, p, build);
    LastStep(Step(st, p, build), q, build);
    LastStep(Step(Step(st, p, build), q, build), r, build);
    LastStep(Step(Step(Step(st, p, build), q, build), r, build), t, build);
  }

  /** The event of a component without end, place, link, uid or status. */
  predicate BareEvent(e: Event, source: string, anchor: bool, title: string, startsAt: Time) {
    && e.title == title && e.startsAt == startsAt && e.endsAt == startsAt + 7_200 * NANOS && e.status == Confirmed
    && e.source == source && e.anchor == anchor && e.score == 100
    && e.location == "" && e.url == "" && e.description == "" && e.sourceId == ""
    && e.uid == EventUid(source, "", title, startsAt)
  }

  lemma StatusMissing()
    ensures !EqualFold("", "TENTATIVE")
  {
    UpperExactly("", "TENTATIVE");
  }

  lemma NoDate(zones: Zones)
    ensures ParseDate("", zones) == None
  {
  }

  /** A component with a readable start and a title, and nothing else. */
  lemma BareBuilt(raw: string, title: string, source: string, anchor: bool, zones: Zones, startsAt: Time)
    returns (e: Event)
    requires ParseDate(raw, zones) == Some(startsAt) && title != "" && !IsZero(startsAt)
    ensures BuildEvent(map["DTSTART" := raw, "SUMMARY" := title], source, anchor, zones) == Accepted(e)
    ensures BareEvent(e, source, anchor, title, startsAt)
  {
    var c: Component := map["DTSTART" := raw, "SUMMARY" := title];
    BareKeys(raw, title);
    NoDate(zones);
    StatusMissing();
    e := BuiltBare(c, title, source, anchor, zones, startsAt);
  }

  lemma BareKeys(raw: string, title: string)
    ensures var c: Component := map["DTSTART" := raw, "SUMMARY" := title];
            && Get(c, "DTSTART") == raw && Get(c, "SUMMARY") == title && Get(c, "DTEND") == "" && Get(c, "URL") == ""
            && Get(c, "UID") == "" && Get(c, "LOCATION") == "" && Get(c, "DESCRIPTION") == "" && Get(c, "STATUS") == ""
  {
  }

  lemma BuiltBare(c: Component, title: string, source: string, anchor: bool, zones: Zones, startsAt: Time)
    returns (e: Event)
    requires ParseDate(Get(c, "DTSTART"), zones) == Some(startsAt) && Get(c, "SUMMARY") == title != ""
    requires Get(c, "URL") == "" && Get(c, "UID") == "" && Get(c, "LOCATION") == "" && Get(c, "DESCRIPTION") == ""
    requires ParseDate(Get(c, "DTEND"), zones) == None && !EqualFold(Get(c, "STATUS"), "TENTATIVE")
    requires !IsZero(startsAt)
    ensures BuildEvent(c, source, anchor, zones) == Accepted(e) && BareEvent(e, source, anchor, title, startsAt)
  {
    e := EventFromIcs(c, source, anchor, zones).value;
  }

  /**
   A published event with a time in a zone, from its text to the event: it starts at the
   instant whose local time was written, whatever the case of the names in its line, and lasts
   two hours when no end is given.
   */
  lemma ZonedEventReadBack(key: string, name: string, zone: string, value: string, local: int, instant: int,
      title: string, source: string, anchor: bool, zones: Zones)
    returns (e: Event)
    requires zone in zones && local == instant + zones[zone] && IsLocal(value, local) && instant != ZERO_SECOND
    requires SameButForCase(key, "DTSTART") && SameButForCase(name, "TZID") && PlainZone(zone) && |zone| < LIMIT - 80
    requires title != "" && !EndsInCr(title) && |Escape(title)| < LIMIT - 8
    ensures Parsed(JoinLines(ZonedFeed(key, name, zone, value, title)), source, anchor, zones) == Some([e])
    ensures BareEvent(e, source, anchor, title, instant * NANOS)
  {
    var _ := LocalReads(local);
    ZonedDateReadBack(zone, value, local, instant, zones);
    e := ZonedValueReadBack(key, name, zone, value, instant, title, source, anchor, zones);
  }

  lemma ZonedValueReadBack(key: string, name: string, zone: string, value: string, instant: int, title: string,
      source: string, anchor: bool, zones: Zones)
    returns (e: Event)
    requires SameButForCase(key, "DTSTART") && SameButForCase(name, "TZID") && PlainZone(zone) && |zone| < LIMIT - 80
    requires zone in zones && instant != ZERO_SECOND && PlainValue(value) && |value| == 15
    requires ParseDate(Zoned(zone, value), zones) == Some(instant * NANOS)
    requires title != "" && !EndsInCr(title) && |Escape(title)| < LIMIT - 8
    ensures Parsed(JoinLines(ZonedFeed(key, name, zone, value, title)), source, anchor, zones) == Some([e])
    ensures BareEvent(e, source, anchor, title, instant * NANOS)
  {
    e := BareBuilt(Zoned(zone, value), title, source, anchor, zones, instant * NANOS);
    FeedClean(key, name, zone, value, title);
    ParsedClean(ZonedFeed(key, name, zone, value, title), source, anchor, zones);
    ZonedSteps(key, name, zone, value, title, Builder(source, anchor, zones));
  }

  lemma ParsedClean(lines: seq<string>, source: string, anchor: bool, zones: Zones)
    requires AllClean(lines)
    ensures var end := Steps(Parsing([], None), lines, Builder(source, anchor, zones));
            Parsed(JoinLines(lines), source, anchor, zones) == if end.Broken? then None else Some(end.events)
  {
    CleanFeed(lines);
  }

  // ---------- what a component may lack ----------

  /** An event's link and identity: the location where it is a link, and the link where there is no uid. */
  predicate Identified(e: Event, c: Component) {
    && (Get(c, "URL") != "" ==> e.url == Get(c, "URL"))
    && (Get(c, "URL") == "" && "https://" <= e.location ==> e.url == e.location)
    && (Get(c, "URL") == "" && !("https://" <= e.location) ==> e.url == "")
    && (Get(c, "UID") != "" ==> e.sourceId == Get(c, "UID"))
    && (Get(c, "UID") == "" ==> e.sourceId == e.url)
  }

  lemma MissingIdentity(c: Component, source: string, anchor: bool, zones: Zones, startsAt: Time)
    requires ParseDate(Get(c, "DTSTART"), zones) == Some(startsAt)
    ensures EventFromIcs(c, source, anchor, zones).Some?
    ensures var e := EventFromIcs(c, source, anchor, zones).value;
            && Identified(e, c) && e.uid == EventUid(source, e.sourceId, e.title, startsAt)
  {
  }

  lemma MissingTimes(c: Component, source: string, anchor: bool, zones: Zones, startsAt: Time)
    requires ParseDate(Get(c, "DTSTART"), zones) == Some(startsAt)
    ensures EventFromIcs(c, source, anchor, zones).Some?
    ensures var e := EventFromIcs(c, source, anchor, zones).value;
            && e.startsAt == startsAt && e.source == source && e.anchor == anchor && e.score == 100
            && (ParseDate(Get(c, "DTEND"), zones).None? ==> e.endsAt == startsAt + 7_200 * NANOS)
            && (e.status == Tentative <==> EqualFold(Get(c, "STATUS"), "TENTATIVE"))
  {
  }

  /**
   What a reader makes of missing properties: two hours where no readable end is given, the
   location as link where it is one, the link as identity where there is no uid, and anything
   but TENTATIVE is confirmed.
   */
  lemma MissingProperties(c: Component, source: string, anchor: bool, zones: Zones, startsAt: Time) returns (e: Event)
    requires ParseDate(Get(c, "DTSTART"), zones) == Some(startsAt)
    ensures EventFromIcs(c, source, anchor, zones) == Some(e)
    ensures e.startsAt == startsAt && e.source == source && e.anchor == anchor && e.score == 100
    ensures Identified(e, c) && e.uid == EventUid(source, e.sourceId, e.title, startsAt)
    ensures ParseDate(Get(c, "DTEND"), zones).None? ==> e.endsAt == startsAt + 7_200 * NANOS
    ensures e.status == Tentative <==> SameButForCase(Get(c, "STATUS"), "TENTATIVE")
    ensures ParseDate("", zones) == None
  {
    MissingIdentity(c, source, anchor, zones, startsAt);
    MissingTimes(c, source, anchor, zones, startsAt);
    UpperExactly(Get(c, "STATUS"), "TENTATIVE");
    NoDate(zones);
    e := EventFromIcs(c, source, anchor, zones).value;
  }

  /** One event with a start that cannot be read, and the whole feed is an error, whatever else it holds. */
  lemma InvalidStartFails(before: seq<string>, done: seq<Event>, ps: seq<Property>, after: seq<string>, source: string,
      anchor: bool, zones: Zones)
    requires AllClean(before + ComponentLines(ps) + after)
    requires Steps(Parsing([], None), before, Builder(source, anchor, zones)) == Parsing(done, None)
    requires AllPlainKeys(ps) && ParseDate(Get(Put(map[], ps), "DTSTART"), zones).None?
    ensures Parsed(JoinLines(before + ComponentLines(ps) + after), source, anchor, zones) == None
  {
    var build := Builder(source, anchor, zones);
    ParsedClean(before + ComponentLines(ps) + after, source, anchor, zones);
    StepsConcat(Parsing([], None), before + ComponentLines(ps), after, build);
    StepsConcat(Parsing([], None), before, ComponentLines(ps), build);
    InvalidComponent(done, ps, build);
    BrokenStays(after, build);
  }

  lemma InvalidComponent(done: seq<Event>, ps: seq<Property>, build: Component -> Built)
    requires AllPlainKeys(ps) && build(Put(map[], ps)).Invalid?
    ensures Steps(Parsing(done, None), ComponentLines(ps), build) == Broken
  {
    assert BEGIN[0] == 'B' && END[0] == 'E';
    OneStep(Parsing(done, None), BEGIN, PropertyLines(ps) + [END], build);
    StepsConcat(Parsing(done, Some(map[])), PropertyLines(ps), [END], build);
    PropertiesReadBack(done, map[], ps, build);
    LastStep(Parsing(done, Some(Put(map[], ps))), END, build);
  }

  // ---------- other line breaks ----------

  /** Lines broken by a line feed alone. */
  function JoinLf(lines: seq<string>): string {
    if lines == [] then [] else lines[0] + "\n" + JoinLf(lines[1..])
  }

  lemma {:induction false} LfAfterLine(a: string, b: string)
    requires '\n' !in a && !EndsInCr(a)
    ensures CrlfToLf(a + "\n" + b) == a + "\n" + CrlfToLf(b)
  {
    var s := a + "\n" + b;
    if a == [] {
      assert s[1..] == b;
    } else {
      assert a[0] in a && (forall c :: c in a[1..] ==> c in a);
      assert s[0] == a[0] && s[1..] == a[1..] + "\n" + b;
      assert s[1] == if |a| > 1 then a[1] else '\n';
      assert |a| > 1 ==> a[1] in a && a[1..][|a| - 2] == a[|a| - 1];
      LfAfterLine(a[1..], b);
    }
  }

  /** Feeds with line feeds only are scanned like those with carriage returns. */
  lemma {:induction false} LfIsEnough(lines: seq<string>)
    requires forall i :: 0 <= i < |lines| ==> '\n' !in lines[i] && !EndsInCr(lines[i])
    ensures CrlfToLf(JoinLf(lines)) == CrlfToLf(JoinLines(lines))
    ensures PhysicalLines(JoinLf(lines)) == PhysicalLines(JoinLines(lines))
  {
    if lines == [] {
    } else {
      LfAfterLine(lines[0], JoinLf(lines[1..]));
      CrlfAfterLine(lines[0], JoinLines(lines[1..]));
      LfIsEnough(lines[1..]);
    }
  }

  lemma {:induction false} NoLineFeed(s: string)
    requires '\n' !in s
    ensures CrlfToLf(s) == s
  {
    if s == [] {
    } else {
      assert s == [s[0]] + s[1..] && (|s| >= 2 ==> s[1] in s);
      NoLineFeed(s[1..]);
    }
  }

  /** A last line without a break is scanned too, unless it is too long. */
  lemma {:induction false} LastLineNeedsNoBreak(lines: seq<string>, last: string)
    requires Framed(lines) && last != "" && '\n' !in last
    ensures PhysicalLines(JoinLines(lines) + last)
            == PhysicalLines(JoinLines(lines)) + if |last| < 65_536 then [DropCr(last)] else []
  {
    if lines == [] {
      NoLineFeed(last);
      assert JoinLines(lines) + last == last && IndexByte(last, '\n') < 0;
    } else {
      var rest := JoinLines(lines[1..]);
      assert JoinLines(lines) + last == lines[0] + "\r\n" + (rest + last);
      CrlfAfterLine(lines[0], rest + last);
      CrlfAfterLine(lines[0], rest);
      ScanOneLine(lines[0], CrlfToLf(rest + last));
      ScanOneLine(lines[0], CrlfToLf(rest));
      LastLineNeedsNoBreak(lines[1..], last);
    }
  }

  /** A blank at the very start of a feed continues nothing. */
  lemma FirstLineStays(first: string, rest: seq<string>)
    requires forall i :: 0 <= i < |rest| ==> !StartsBlank(rest[i])
    ensures Unfold([first] + rest) == [first] + rest
  {
    assert ([first] + rest)[0] == first && ([first] + rest)[1..] == rest;
    assert AddLine([], first) == [first];
    AddUnfolded([first], rest);
  }

  // ---------- escapes and stray lines ----------

  /** The five escapes of section 3.3.11 of RFC 5545; any other backslash stands for itself. */
  lemma UnescapeByPairs(c: char, rest: string)
    ensures Unescape(['\\', 'n'] + rest) == "\n" + Unescape(rest)
    ensures Unescape(['\\', 'N'] + rest) == "\n" + Unescape(rest)
    ensures c == '\\' || c == ';' || c == ',' ==> Unescape(['\\', c] + rest) == [c] + Unescape(rest)
    ensures c !in ['n', 'N', '\\', ';', ','] ==> Unescape(['\\', c] + rest) == ['\\'] + Unescape([c] + rest)
    ensures c != '\\' ==> Unescape([c] + rest) == [c] + Unescape(rest)
    ensures Unescape("\\") == "\\"
  {
    assert (['\\', 'n'] + rest)[2..] == rest && (['\\', 'N'] + rest)[2..] == rest && (['\\', c] + rest)[2..] == rest;
    assert (['\\', c] + rest)[1..] == [c] + rest && ([c] + rest)[1..] == rest;
    assert "\\"[1..] == [];
  }

  lemma NoColon(line: string)
    requires ':' !in line
    ensures SplitLine(line) == None && line != BEGIN && line != END
  {
    assert IndexByte(line, ':') < 0;
    assert BEGIN[5] == ':' && END[3] == ':';
  }

  /** A line without a colon is passed by. */
  lemma LineWithoutColon(st: ParseState, line: string, build: Component -> Built)
    requires ':' !in line
    ensures Step(st, line, build) == st
  {
    NoColon(line);
  }

  /** A component that is opened again starts over. */
  lemma OpenedAgain(done: seq<Event>, open: Option<Component>, lines: seq<string>, build: Component -> Built)
    ensures Steps(Parsing(done, open), [BEGIN] + lines, build) == Steps(Parsing(done, Some(map[])), lines, build)
  {
    OneStep(Parsing(done, open), BEGIN, lines, build);
  }
}
