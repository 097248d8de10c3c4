/**
 The text layer of iCalendar: TEXT escaping (section 3.3.11 of RFC 5545), content lines and
 folding (section 3.1 of RFC 5545), as the printer writes them and the parser reads them.
 */
module IcsText {
  import opened Text

  // ---------- escaping ----------

  /** strings.ReplaceAll for a one-byte pattern. */
  function ReplaceAll(s: string, c: char, sub: string): string {
    if s == [] then [] else (if s[0] == c then sub else [s[0]]) + ReplaceAll(s[1..], c, sub)
  }

  /** The four passes of writeICS, each over the whole text. */
  function EscapeInPasses(s: string): string {
    ReplaceAll(ReplaceAll(ReplaceAll(ReplaceAll(s, '\\', "\\\\"), '\n', "\\n"), ';', "\\;"), ',', "\\,")
  }

  function EscapeByte(c: char): string {
    if c == '\\' then "\\\\"
    else if c == '\n' then "\\n"
    else if c == ';' then "\\;"
    else if c == ',' then "\\,"
    else [c]
  }

  /** One pass, byte by byte. */
  function Escape(s: string): string {
    if s == [] then [] else EscapeByte(s[0]) + Escape(s[1..])
  }

  function UnescapedPair(c: char): Option<string> {
    if c == 'n' || c == 'N' then Some("\n") else if c == ',' || c == ';' || c == '\\' then Some([c]) else None
  }

  /** The replacer of unescapeICS: left to right, without overlap; other backslashes stay. */
  function Unescape(s: string): string {
    if s == [] then []
    else if |s| >= 2 && s[0] == '\\' && UnescapedPair(s[1]).Some? then UnescapedPair(s[1]).value + Unescape(s[2..])
    else [s[0]] + Unescape(s[1..])
  }

  lemma {:induction false} ReplaceAllConcat(a: string, b: string, c: char, sub: string)
    ensures ReplaceAll(a + b, c, sub) == ReplaceAll(a, c, sub) + ReplaceAll(b, c, sub)
  {
    if a == [] {
      assert a + b == b;
    } else {
      assert (a + b)[1..] == a[1..] + b;
      ReplaceAllConcat(a[1..], b, c, sub);
    }
  }

  lemma ReplaceAllByte(x: char, c: char, sub: string)
    ensures ReplaceAll([x], c, sub) == if x == c then sub else [x]
  {
    assert [x][1..] == [];
  }

  lemma ReplaceAllPair(x: char, y: char, c: char, sub: string)
    requires x != c && y != c
    ensures ReplaceAll([x, y], c, sub) == [x, y]
  {
    ReplaceAllByte(y, c, sub);
    assert [x, y][1..] == [y];
  }

  /** All four passes on one byte. */
  lemma PassesOnByte(x: char)
    ensures EscapeInPasses([x]) == EscapeByte(x)
  {
    ReplaceAllByte(x, '\\', "\\\\");
    ReplaceAllByte(x, '\n', "\\n");
    ReplaceAllByte(x, ';', "\\;");
    ReplaceAllByte(x, ',', "\\,");
    ReplaceAllPair('\\', '\\', '\n', "\\n");
    ReplaceAllPair('\\', '\\', ';', "\\;");
    ReplaceAllPair('\\', '\\', ',', "\\,");
    ReplaceAllPair('\\', 'n', ';', "\\;");
    ReplaceAllPair('\\', 'n', ',', "\\,");
    ReplaceAllPair('\\', ';', ',', "\\,");
  }

  lemma PassesConcat(a: string, b: string)
    ensures EscapeInPasses(a + b) == EscapeInPasses(a) + EscapeInPasses(b)
  {
    ReplaceAllConcat(a, b, '\\', "\\\\");
    var a1, b1 := ReplaceAll(a, '\\', "\\\\"), ReplaceAll(b, '\\', "\\\\");
    ReplaceAllConcat(a1, b1, '\n', "\\n");
    var a2, b2 := ReplaceAll(a1, '\n', "\\n"), ReplaceAll(b1, '\n', "\\n");
    ReplaceAllConcat(a2, b2, ';', "\\;");
    ReplaceAllConcat(ReplaceAll(a2, ';', "\\;"), ReplaceAll(b2, ';', "\\;"), ',', "\\,");
  }

  /** The four whole-text passes are one byte-by-byte pass. */
  lemma {:induction false} PassesAreOnePass(s: string)
    ensures EscapeInPasses(s) == Escape(s)
  {
    if s == [] {
    } else {
      PassesConcat([s[0]], s[1..]);
      PassesOnByte(s[0]);
      PassesAreOnePass(s[1..]);
      assert s == [s[0]] + s[1..];
    }
  }

  lemma UnescapeHead(c: char, rest: string)
    ensures Unescape(EscapeByte(c) + rest) == [c] + Unescape(rest)
  {
    var head, all := EscapeByte(c), EscapeByte(c) + rest;
    if |head| == 2 {
      assert all[0] == '\\' && all[1] == head[1] && all[2..] == rest;
    } else {
      assert all[0] == c && all[1..] == rest;
    }
  }

  /** Reading back what was escaped gives the text, whatever backslashes it holds. */
  lemma {:induction false} UnescapeEscape(s: string)
    ensures Unescape(Escape(s)) == s
  {
    if s == [] {
    } else {
      UnescapeHead(s[0], Escape(s[1..]));
      UnescapeEscape(s[1..]);
    }
  }

  /** An escaped text has no line feed, whatever the text; a carriage return is neither made nor lost. */
  lemma {:induction false} EscapedIsPlain(s: string)
    ensures '\n' !in Escape(s) && ('\r' in Escape(s) <==> '\r' in s)
  {
    if s == [] {
    } else {
      assert s == [s[0]] + s[1..];
      EscapedIsPlain(s[1..]);
      assert '\n' !in EscapeByte(s[0]) && ('\r' in EscapeByte(s[0]) <==> s[0] == '\r');
    }
  }

  // ---------- content lines ----------

  /** bufio.MaxScanTokenSize: a line must fit with its line feed. */
  const LIMIT := 65536

  function CrlfToLf(s: string): string {
    if s == [] then []
    else if |s| >= 2 && s[0] == '\r' && s[1] == '\n' then ['\n'] + CrlfToLf(s[2..])
    else [s[0]] + CrlfToLf(s[1..])
  }

  predicate EndsInCr(s: string) {
    s != [] && s[|s| - 1] == '\r'
  }

  function DropCr(line: string): string {
    if EndsInCr(line) then line[..|line| - 1] else line
  }

  /** bufio.ScanLines; a line over the limit ends the scan. */
  function ScanLines(s: string): seq<string> {
    if s == [] then []
    else
      var end := IndexByte(s, '\n');
      if end < 0 then if |s| < LIMIT then [DropCr(s)] else []
      else if end < LIMIT then [DropCr(s[..end])] + ScanLines(s[end + 1..]) else []
  }

  function PhysicalLines(raw: string): seq<string> {
    ScanLines(CrlfToLf(raw))
  }

  predicate StartsBlank(s: string) {
    s != [] && (s[0] == ' ' || s[0] == '\t')
  }

  function TrimBlanks(s: string): (r: string)
    ensures |r| <= |s| && (|r| == |s| <==> !StartsBlank(s)) && (|r| == |s| ==> r == s)
  {
    if StartsBlank(s) then TrimBlanks(s[1..]) else s
  }

  /** One more physical line: a continuation of the last logical line, or a new one. */
  function AddLine(lines: seq<string>, line: string): seq<string> {
    if lines != [] && StartsBlank(line)
    then lines[..|lines| - 1] + [lines[|lines| - 1] + TrimBlanks(line)]
    else lines + [line]
  }

  function AddLines(lines: seq<string>, more: seq<string>): seq<string>
    decreases |more|
  {
    if more == [] then lines else AddLines(AddLine(lines, more[0]), more[1..])
  }

  function Unfold(physical: seq<string>): seq<string> {
    AddLines([], physical)
  }

  /** unfoldICS. */
  method UnfoldIcs(raw: string) returns (lines: seq<string>)
    ensures lines == Unfold(PhysicalLines(raw))
  {
    var physical := PhysicalLines(raw);
    lines := [];
    for i := 0 to |physical|
      invariant AddLines(lines, physical[i..]) == AddLines([], physical)
    {
      var line := physical[i];
      assert physical[i..][0] == line && physical[i..][1..] == physical[i + 1..];
      if |lines| > 0 && StartsBlank(line) {
        lines := lines[..|lines| - 1] + [lines[|lines| - 1] + TrimBlanks(line)];
      } else {
        lines := lines + [line];
      }
    }
  }

  function JoinLines(lines: seq<string>): string {
    if lines == [] then [] else lines[0] + "\r\n" + JoinLines(lines[1..])
  }

  /** Lines that a scan finds again: no line feed in them, and short enough. */
  predicate Framed(lines: seq<string>) {
    forall i :: 0 <= i < |lines| ==> '\n' !in lines[i] && |lines[i]| < LIMIT
  }

  /** A line's last carriage return is taken for part of its break. */
  function Chomped(lines: seq<string>): seq<string> {
    if lines == [] then [] else [DropCr(lines[0])] + Chomped(lines[1..])
  }

  lemma {:induction false} CrlfAfterLine(a: string, b: string)
    requires '\n' !in a
    ensures CrlfToLf(a + "\r\n" + b) == a + "\n" + CrlfToLf(b)
  {
    var s := a + "\r\n" + b;
    if a == [] {
      assert s[2..] == b;
    } else {
      assert a[0] in a && (forall c :: c in a[1..] ==> c in a);
      assert s[0] == a[0] && s[1..] == a[1..] + "\r\n" + b;
      assert s[1] == if |a| > 1 then a[1] else '\r';
      CrlfAfterLine(a[1..], b);
    }
  }

  lemma ScanOneLine(a: string, b: string)
    requires '\n' !in a && |a| < LIMIT
    ensures ScanLines(a + "\n" + b) == [DropCr(a)] + ScanLines(b)
  {
    var s := a + "\n" + b;
    assert s == a + ['\n'] + b;
    IndexByteOf(a, '\n', b);
    assert s[..|a|] == a && s[|a| + 1..] == b;
  }

  /** The lines before the first that is too long; an overlong line ends the scan. */
  function ShortCount(lines: seq<string>): (n: nat)
    ensures n <= |lines|
    ensures n == |lines| <==> AllShort(lines)
    ensures n < |lines| ==> |lines[n]| >= LIMIT
  {
    if lines == [] then 0
    else if |lines[0]| >= LIMIT then 0
    else
      assert lines == [lines[0]] + lines[1..];
      1 + ShortCount(lines[1..])
  }

  predicate AllShort(lines: seq<string>) {
    forall i :: 0 <= i < |lines| ==> |lines[i]| < LIMIT
  }

  lemma OverlongEndsScan(a: string, b: string)
    requires '\n' !in a && |a| >= LIMIT
    ensures ScanLines(a + "\n" + b) == []
  {
    var s := a + "\n" + b;
    assert s == a + ['\n'] + b;
    IndexByteOf(a, '\n', b);
  }

  /** The first line is scanned, or is too long and ends the scan. */
  lemma FirstLine(line: string, rest: seq<string>)
    requires '\n' !in line
    ensures PhysicalLines(line + "\r\n" + JoinLines(rest))
            == if |line| < LIMIT then [DropCr(line)] + PhysicalLines(JoinLines(rest)) else []
  {
    CrlfAfterLine(line, JoinLines(rest));
    if |line| < LIMIT {
      ScanOneLine(line, CrlfToLf(JoinLines(rest)));
    } else {
      OverlongEndsScan(line, CrlfToLf(JoinLines(rest)));
    }
  }

  lemma ReachedFirst(lines: seq<string>)
    requires lines != [] && |lines[0]| < LIMIT
    ensures Chomped(lines[..ShortCount(lines)])
            == [DropCr(lines[0])] + Chomped(lines[1..][..ShortCount(lines[1..])])
  {
    var n := ShortCount(lines);
    assert lines[..n][0] == lines[0] && lines[..n][1..] == lines[1..][..n - 1];
  }

  /** Joined lines without line feeds are scanned up to the first overlong one, but for a last carriage return each. */
  lemma {:induction false} LinesReach(lines: seq<string>)
    requires forall i :: 0 <= i < |lines| ==> '\n' !in lines[i]
    ensures PhysicalLines(JoinLines(lines)) == Chomped(lines[..ShortCount(lines)])
  {
    if lines == [] {
    } else {
      FirstLine(lines[0], lines[1..]);
      if |lines[0]| < LIMIT {
        LinesReach(lines[1..]);
        ReachedFirst(lines);
      }
    }
  }

  /** Lines without line feeds, within the limit, survive being joined and scanned, but for a last carriage return. */
  lemma LinesSurvive(lines: seq<string>)
    requires Framed(lines)
    ensures PhysicalLines(JoinLines(lines)) == Chomped(lines)
  {
    LinesReach(lines);
    assert lines[..|lines|] == lines;
  }

  lemma {:induction false} ShortCountConcat(a: seq<string>, b: seq<string>)
    ensures ShortCount(a + b) == if AllShort(a) then |a| + ShortCount(b) else ShortCount(a)
  {
    if a == [] {
      assert a + b == b;
    } else {
      assert (a + b)[0] == a[0] && (a + b)[1..] == a[1..] + b;
      ShortCountConcat(a[1..], b);
      assert AllShort(a) <==> |a[0]| < LIMIT && AllShort(a[1..]) by { assert a == [a[0]] + a[1..]; }
    }
  }

  /** The lines a scan reaches of two texts in a row. */
  lemma ReachedConcat(a: seq<string>, b: seq<string>)
    ensures (a + b)[..ShortCount(a + b)] == if AllShort(a) then a + b[..ShortCount(b)] else a[..ShortCount(a)]
  {
    ShortCountConcat(a, b);
  }

  lemma {:induction false} ChompedSame(lines: seq<string>)
    ensures Chomped(lines) == lines <==> forall i :: 0 <= i < |lines| ==> !EndsInCr(lines[i])
    ensures |Chomped(lines)| == |lines|
    ensures forall i :: 0 <= i < |lines| ==> Chomped(lines)[i] == DropCr(lines[i])
  {
    if lines == [] {
    } else {
      ChompedSame(lines[1..]);
      assert lines == [lines[0]] + lines[1..];
      assert Chomped(lines)[0] == DropCr(lines[0]) && Chomped(lines)[1..] == Chomped(lines[1..]);
      assert DropCr(lines[0]) == lines[0] <==> !EndsInCr(lines[0]);
    }
  }

  lemma {:induction false} ChompedConcat(a: seq<string>, b: seq<string>)
    ensures Chomped(a + b) == Chomped(a) + Chomped(b)
  {
    if a == [] {
      assert a + b == b;
    } else {
      assert (a + b)[0] == a[0] && (a + b)[1..] == a[1..] + b;
      ChompedConcat(a[1..], b);
    }
  }

  lemma {:induction false} AddUnfolded(before: seq<string>, lines: seq<string>)
    requires forall i :: 0 <= i < |lines| ==> !StartsBlank(lines[i])
    ensures AddLines(before, lines) == before + lines
    decreases |lines|
  {
    if lines != [] {
      AddUnfolded(before + [lines[0]], lines[1..]);
      assert before + [lines[0]] + lines[1..] == before + lines;
    } else {
      assert before + lines == before;
    }
  }

  // ---------- folding ----------

  /** A logical line folded into a first part and continuations, each led by one blank. */
  datatype Folded = Folded(first: string, rest: seq<Continuation>)
  datatype Continuation = Continuation(tab: bool, part: string) {
    function Physical(): string {
      [if tab then '\t' else ' '] + part
    }
  }

  function Parts(rest: seq<Continuation>): string {
    if rest == [] then [] else rest[0].part + Parts(rest[1..])
  }

  function Logical(f: Folded): string {
    f.first + Parts(f.rest)
  }

  function PhysicalRest(rest: seq<Continuation>): seq<string> {
    if rest == [] then [] else [rest[0].Physical()] + PhysicalRest(rest[1..])
  }

  function FoldedLines(fs: seq<Folded>): seq<string> {
    if fs == [] then [] else [fs[0].first] + (PhysicalRest(fs[0].rest) + FoldedLines(fs[1..]))
  }

  function LogicalLines(fs: seq<Folded>): seq<string> {
    if fs == [] then [] else [Logical(fs[0])] + LogicalLines(fs[1..])
  }

  predicate NoBlankPart(rest: seq<Continuation>) {
    forall i :: 0 <= i < |rest| ==> !StartsBlank(rest[i].part)
  }

  /** The continuations as unfolding reads them: every leading blank is gone. */
  function TrimmedParts(rest: seq<Continuation>): string {
    if rest == [] then [] else TrimBlanks(rest[0].part) + TrimmedParts(rest[1..])
  }

  function TrimmedLines(fs: seq<Folded>): seq<string> {
    if fs == [] then [] else [fs[0].first + TrimmedParts(fs[0].rest)] + TrimmedLines(fs[1..])
  }

  lemma AddContinuation(before: seq<string>, line: string, c: Continuation)
    ensures AddLine(before + [line], c.Physical()) == before + [line + TrimBlanks(c.part)]
  {
    var p, lines := c.Physical(), before + [line];
    assert p[1..] == c.part && TrimBlanks(p) == TrimBlanks(p[1..]);
    assert lines[..|lines| - 1] == before && lines[|lines| - 1] == line;
  }

  lemma AddFirst(lines: seq<string>, first: string, rest: seq<string>, more: seq<string>)
    ensures AddLines(lines, ([first] + rest) + more) == AddLines(AddLine(lines, first), rest + more)
  {
    var all := ([first] + rest) + more;
    assert all[0] == first && all[1..] == rest + more;
  }

  lemma AddNext(before: seq<string>, line: string, c: Continuation, others: seq<string>, more: seq<string>)
    ensures AddLines(before + [line], ([c.Physical()] + others) + more)
            == AddLines(before + [line + TrimBlanks(c.part)], others + more)
  {
    AddFirst(before + [line], c.Physical(), others, more);
    AddContinuation(before, line, c);
  }

  lemma TrimmedNext(line: string, rest: seq<Continuation>)
    requires rest != []
    ensures PhysicalRest(rest) == [rest[0].Physical()] + PhysicalRest(rest[1..])
    ensures line + TrimmedParts(rest) == (line + TrimBlanks(rest[0].part)) + TrimmedParts(rest[1..])
  {
  }

  lemma {:induction false} AddRest(before: seq<string>, line: string, rest: seq<Continuation>, more: seq<string>)
    ensures AddLines(before + [line], PhysicalRest(rest) + more) == AddLines(before + [line + TrimmedParts(rest)], more)
    decreases |rest|
  {
    if rest == [] {
      assert PhysicalRest(rest) + more == more && line + TrimmedParts(rest) == line;
    } else {
      TrimmedNext(line, rest);
      AddNext(before, line, rest[0], PhysicalRest(rest[1..]), more);
      AddRest(before, line + TrimBlanks(rest[0].part), rest[1..], more);
    }
  }

  lemma AddOneFolded(before: seq<string>, f: Folded, more: seq<string>)
    requires !StartsBlank(f.first)
    ensures AddLines(before, [f.first] + (PhysicalRest(f.rest) + more))
            == AddLines(before + [f.first + TrimmedParts(f.rest)], more)
  {
    var all := [f.first] + (PhysicalRest(f.rest) + more);
    assert all[0] == f.first && all[1..] == PhysicalRest(f.rest) + more;
    AddRest(before, f.first, f.rest, more);
  }

  lemma {:induction false} AddFolded(before: seq<string>, fs: seq<Folded>)
    requires forall i :: 0 <= i < |fs| ==> !StartsBlank(fs[i].first)
    ensures AddLines(before, FoldedLines(fs)) == before + TrimmedLines(fs)
    decreases |fs|
  {
    if fs == [] {
      assert before + TrimmedLines(fs) == before;
    } else {
      var line := fs[0].first + TrimmedParts(fs[0].rest);
      var more, trimmed := fs[1..], TrimmedLines(fs[1..]);
      AddOneFolded(before, fs[0], FoldedLines(more));
      AddFolded(before + [line], more);
      assert (before + [line]) + trimmed == before + ([line] + trimmed);
    }
  }

  lemma {:induction false} TrimmedPartsLength(rest: seq<Continuation>)
    ensures |TrimmedParts(rest)| <= |Parts(rest)|
    ensures |TrimmedParts(rest)| == |Parts(rest)| <==> NoBlankPart(rest)
    ensures NoBlankPart(rest) ==> TrimmedParts(rest) == Parts(rest)
  {
    if rest == [] {
    } else {
      TrimmedPartsLength(rest[1..]);
      assert NoBlankPart(rest) <==> !StartsBlank(rest[0].part) && NoBlankPart(rest[1..]);
    }
  }

  lemma {:induction false} TrimmedIsLogical(fs: seq<Folded>)
    ensures TrimmedLines(fs) == LogicalLines(fs) <==> forall i :: 0 <= i < |fs| ==> NoBlankPart(fs[i].rest)
    ensures |TrimmedLines(fs)| == |LogicalLines(fs)| == |fs|
  {
    if fs == [] {
    } else {
      TrimmedIsLogical(fs[1..]);
      TrimmedPartsLength(fs[0].rest);
      var t, l := TrimmedLines(fs), LogicalLines(fs);
      assert t[0] == fs[0].first + TrimmedParts(fs[0].rest) && l[0] == Logical(fs[0]);
      assert t[1..] == TrimmedLines(fs[1..]) && l[1..] == LogicalLines(fs[1..]);
      assert t == l <==> t[0] == l[0] && t[1..] == l[1..];
      assert t[0] == l[0] <==> |TrimmedParts(fs[0].rest)| == |Parts(fs[0].rest)|;
      assert (forall i :: 0 <= i < |fs| ==> NoBlankPart(fs[i].rest))
        <==> NoBlankPart(fs[0].rest) && forall i :: 0 <= i < |fs[1..]| ==> NoBlankPart(fs[1..][i].rest);
    }
  }

  /**
   Unfolding undoes folding exactly when no continuation begins with a blank of its own:
   the parser strips every leading blank where section 3.1 of RFC 5545 removes one.
   */
  lemma UnfoldInvertsFolding(fs: seq<Folded>)
    requires Framed(FoldedLines(fs)) && forall i :: 0 <= i < |FoldedLines(fs)| ==> !EndsInCr(FoldedLines(fs)[i])
    requires forall i :: 0 <= i < |fs| ==> !StartsBlank(fs[i].first)
    ensures Unfold(PhysicalLines(JoinLines(FoldedLines(fs)))) == LogicalLines(fs)
            <==> forall i :: 0 <= i < |fs| ==> NoBlankPart(fs[i].rest)
  {
    LinesSurvive(FoldedLines(fs));
    ChompedSame(FoldedLines(fs));
    AddFolded([], fs);
    assert [] + TrimmedLines(fs) == TrimmedLines(fs);
    TrimmedIsLogical(fs);
  }
}
