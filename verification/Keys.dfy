/**
 The two keys under which events are stored. SHA-256 is taken to be injective: a digest is
 represented by the text that is hashed.
 */
module Keys {
  import opened Text
  import opened Model
  import opened Timestamps

  function EventUid(source: string, sourceId: string, title: string, startsAt: Time): (uid: string)
    ensures uid != ""
  {
    "event-radar-" + (source + "|" + sourceId + "|" + Normalise(title) + "|" + Format(startsAt))
  }

  function Fingerprint(title: string, startText: string, location: string): string {
    Normalise(title) + "|" + startText + "|" + Normalise(location)
  }

  // ---------- the fingerprint determines title, second and location ----------

  lemma YearTextInjective(a: int, b: int)
    requires YearText(a) == YearText(b)
    ensures a == b
  {
    var s := YearText(a);
    assert s[0] == '-' <==> a < 0;
    assert s[0] == '-' <==> b < 0;
    if a < 0 {
      assert s[1..] == if -a <= 9999 then Pad4(-a) else Decimal(-a);
      assert s[1..] == if -b <= 9999 then Pad4(-b) else Decimal(-b);
      PadOrDecimal(-a, -b);
    } else {
      PadOrDecimal(a, b);
    }
  }

  lemma PadOrDecimal(a: int, b: int)
    requires a >= 0 && b >= 0
    requires (if a <= 9999 then Pad4(a) else Decimal(a)) == (if b <= 9999 then Pad4(b) else Decimal(b))
    ensures a == b
  {
    if a <= 9999 { NumberPad4(a); } else { NumberDecimal(a); }
    if b <= 9999 { NumberPad4(b); } else { NumberDecimal(b); }
  }

  lemma Pad2Injective(a: int, b: int)
    requires 0 <= a < 100 && 0 <= b < 100 && Pad2(a) == Pad2(b)
    ensures a == b
  {
    NumberPad2(a);
    NumberPad2(b);
  }

  lemma MonthDayInjective(a: Civil, b: Civil)
    requires a.Valid() && b.Valid() && MonthDayText(a) == MonthDayText(b)
    ensures a.month == b.month && a.day == b.day
  {
    var m := MonthDayText(a);
    assert m[..2] == Pad2(a.month) && m[3..] == Pad2(a.day);
    assert m[..2] == Pad2(b.month) && m[3..] == Pad2(b.day);
    Pad2Injective(a.month, b.month);
    Pad2Injective(a.day, b.day);
  }

  /** A text that ends in six fixed places is determined, and so are the places. */
  lemma DashSplits(y: string, m: string, y': string, m': string)
    requires |m| == |m'| == 5 && y + ("-" + m) == y' + ("-" + m')
    ensures y == y' && m == m'
  {
    var s := y + ("-" + m);
    assert y == s[..|s| - 6] && y' == s[..|s| - 6] && m == s[|s| - 5..] && m' == s[|s| - 5..];
  }

  lemma DateTextInjective(a: Civil, b: Civil)
    requires a.Valid() && b.Valid() && DateText(a) == DateText(b)
    ensures a.year == b.year && a.month == b.month && a.day == b.day
  {
    DashSplits(YearText(a.year), MonthDayText(a), YearText(b.year), MonthDayText(b));
    YearTextInjective(a.year, b.year);
    MonthDayInjective(a, b);
  }

  lemma ClockTextInjective(a: Civil, b: Civil)
    requires a.Valid() && b.Valid() && ClockText(a) == ClockText(b)
    ensures a.hour == b.hour && a.minute == b.minute && a.second == b.second
  {
    var s := ClockText(a);
    assert s[..2] == Pad2(a.hour) && s[3..5] == Pad2(a.minute) && s[6..8] == Pad2(a.second);
    assert s[..2] == Pad2(b.hour) && s[3..5] == Pad2(b.minute) && s[6..8] == Pad2(b.second);
    Pad2Injective(a.hour, b.hour);
    Pad2Injective(a.minute, b.minute);
    Pad2Injective(a.second, b.second);
  }

  /** Four texts around the separators are determined by the whole. */
  lemma FourPartsInjective(t: string, d: string, k: string, l: string, t': string, d': string, k': string, l': string)
    requires 'T' !in t && 'T' !in d && '|' !in d && 'T' !in t' && 'T' !in d' && '|' !in d' && |k| == |k'|
    requires t + "|" + d + "T" + (k + "|" + l) == t' + "|" + d' + "T" + (k' + "|" + l')
    ensures t == t' && d == d' && k == k' && l == l'
  {
    var left, left', right, right' := t + "|" + d, t' + "|" + d', k + "|" + l, k' + "|" + l';
    SplitFirst(left, right, left', right', 'T');
    SplitLast(t, d, t', d', '|');
    assert k == right[..|k|] && k' == right'[..|k|] && l == right[|k| + 1..] && l' == right'[|k| + 1..];
  }

  lemma Regroup(t: string, d: string, k: string, l: string)
    ensures t + "|" + (d + "T" + k) + "|" + l == t + "|" + d + "T" + (k + "|" + l)
  {
  }

  lemma DateTextPlain(c: Civil)
    requires c.Valid()
    ensures 'T' !in DateText(c) && '|' !in DateText(c)
  {
    var m := MonthDayText(c);
    assert forall i :: 0 <= i < 5 ==> IsDigit(m[i]) || m[i] == '-';
    assert DateText(c) == YearText(c.year) + ("-" + m);
  }

  lemma FingerprintParts(title: string, second: int, location: string)
    ensures var c := ToCivil(second);
            Fingerprint(title, Rfc3339(second), location)
            == Normalise(title) + "|" + DateText(c) + "T" + (ClockText(c) + "|" + Normalise(location))
    ensures 'T' !in Normalise(title) && 'T' !in DateText(ToCivil(second)) && '|' !in DateText(ToCivil(second))
    ensures |ClockText(ToCivil(second))| == 9
  {
    Rendered(second);
    var c := ToCivil(second);
    Regroup(Normalise(title), DateText(c), ClockText(c), Normalise(location));
    DateTextPlain(c);
  }

  /**
   The hashed text is injective in (normalised title, second, normalised location) for
   every second, even when titles and locations contain the separator: lower-casing leaves
   the T of the timestamp as the only one.
   */
  lemma FingerprintInjective(title: string, second: int, location: string, title': string, second': int,
      location': string)
    requires Fingerprint(title, Rfc3339(second), location) == Fingerprint(title', Rfc3339(second'), location')
    ensures Normalise(title) == Normalise(title') && second == second' && Normalise(location) == Normalise(location')
  {
    var c, c' := ToCivil(second), ToCivil(second');
    Rendered(second);
    Rendered(second');
    FingerprintParts(title, second, location);
    FingerprintParts(title', second', location');
    FourPartsInjective(Normalise(title), DateText(c), ClockText(c), Normalise(location),
                       Normalise(title'), DateText(c'), ClockText(c'), Normalise(location'));
    DateTextInjective(c, c');
    ClockTextInjective(c, c');
  }

  // ---------- what a uid determines ----------

  lemma StampPlain(second: int)
    ensures '|' !in Rfc3339(second)
  {
    Rendered(second);
    var c := ToCivil(second);
    DateTextPlain(c);
    var k := ClockText(c);
    assert forall i :: 0 <= i < |k| ==> k[i] != '|';
  }

  lemma StampInjective(a: int, b: int)
    requires Rfc3339(a) == Rfc3339(b)
    ensures a == b
  {
    var c, d := ToCivil(a), ToCivil(b);
    Rendered(a);
    Rendered(b);
    DateTextPlain(c);
    DateTextPlain(d);
    SplitFirst(DateText(c), ClockText(c), DateText(d), ClockText(d), 'T');
    DateTextInjective(c, d);
    ClockTextInjective(c, d);
  }

  /** The parts of a uid in front of its time. */
  function UidHead(source: string, sourceId: string, title: string): string {
    source + "|" + (sourceId + "|" + Normalise(title))
  }

  lemma UidJoin(a: string, b: string, c: string, d: string)
    ensures a + "|" + b + "|" + c + "|" + d == (a + "|" + (b + "|" + c)) + "|" + d
  {
  }

  lemma UidParts(source: string, sourceId: string, title: string, startsAt: Time)
    ensures EventUid(source, sourceId, title, startsAt)
            == "event-radar-" + (UidHead(source, sourceId, title) + "|" + Format(startsAt))
  {
    UidJoin(source, sourceId, Normalise(title), Format(startsAt));
  }

  lemma HeadExactly(source: string, id: string, title: string, source': string, id': string, title': string)
    requires '|' !in source && '|' !in id && '|' !in source' && '|' !in id'
    ensures UidHead(source, id, title) == UidHead(source', id', title')
            <==> source == source' && id == id' && Normalise(title) == Normalise(title')
  {
    if UidHead(source, id, title) == UidHead(source', id', title') {
      SplitFirst(source, id + "|" + Normalise(title), source', id' + "|" + Normalise(title'), '|');
      SplitFirst(id, Normalise(title), id', Normalise(title'), '|');
    }
  }

  lemma UidSplits(uid: string, head: string, text: string, head': string, text': string)
    requires uid == "event-radar-" + (head + "|" + text) == "event-radar-" + (head' + "|" + text')
    requires '|' !in text && '|' !in text'
    ensures head == head' && text == text'
  {
    var n := |"event-radar-"|;
    assert uid[n..] == head + "|" + text && uid[n..] == head' + "|" + text';
    SplitLast(head, text, head', text', '|');
  }

  /** Entries have one uid exactly when source, entry, normalised title and second agree; the location has no say. */
  lemma UidExactly(source: string, id: string, title: string, t: Time, source': string, id': string, title': string,
      t': Time)
    requires '|' !in source && '|' !in id && '|' !in source' && '|' !in id'
    ensures EventUid(source, id, title, t) == EventUid(source', id', title', t')
            <==> && source == source' && id == id' && Normalise(title) == Normalise(title')
                 && SecondOf(t) == SecondOf(t')
  {
    UidParts(source, id, title, t);
    UidParts(source', id', title', t');
    HeadExactly(source, id, title, source', id', title');
    if EventUid(source, id, title, t) == EventUid(source', id', title', t') {
      StampPlain(SecondOf(t));
      StampPlain(SecondOf(t'));
      UidSplits(EventUid(source, id, title, t), UidHead(source, id, title), Format(t),
          UidHead(source', id', title'), Format(t'));
      StampInjective(SecondOf(t), SecondOf(t'));
    }
  }
}
