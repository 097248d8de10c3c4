/**
 Byte strings as the program handles them: a Go string is a sequence of bytes, and one
 `char` stands for one byte. The module holds the few string operations the other modules
 share, the binary text order SQLite compares with, and fixed-width decimal digits.
 */
module Text {

  datatype Option<+T> = None | Some(value: T)

  predicate IsDigit(c: char) {
    '0' <= c <= '9'
  }

  function Digit(d: int): (c: char)
    requires 0 <= d < 10
    ensures IsDigit(c) && DigitValue(c) == d
  {
    ('0' as int + d) as char
  }

  function DigitValue(c: char): (d: int)
    requires IsDigit(c)
    ensures 0 <= d < 10
  {
    c as int - '0' as int
  }

  function LowerByte(c: char): char {
    if 'A' <= c <= 'Z' then (c as int + 32) as char else c
  }

  function ToLower(s: string): (r: string)
    ensures |r| == |s|
    ensures forall i :: 0 <= i < |r| ==> !('A' <= r[i] <= 'Z')
  {
    seq(|s|, i requires 0 <= i < |s| => LowerByte(s[i]))
  }

  function UpperByte(c: char): char {
    if 'a' <= c <= 'z' then (c as int - 32) as char else c
  }

  function ToUpper(s: string): (r: string)
    ensures |r| == |s|
  {
    seq(|s|, i requires 0 <= i < |s| => UpperByte(s[i]))
  }

  /** The ASCII part of the white space that strings.TrimSpace removes. */
  predicate IsSpace(c: char) {
    c == ' ' || '\t' <= c <= '\r'
  }

  function TrimLeft(s: string): string {
    if s != [] && IsSpace(s[0]) then TrimLeft(s[1..]) else s
  }

  function TrimRight(s: string): string {
    if s != [] && IsSpace(s[|s| - 1]) then TrimRight(s[..|s| - 1]) else s
  }

  function TrimSpace(s: string): string {
    TrimRight(TrimLeft(s))
  }

  /** Trimmed and lower-cased, the form in which titles and locations enter a fingerprint. */
  function Normalise(s: string): string {
    ToLower(TrimSpace(s))
  }

  // ---------- what trimming and lower-casing ignore ----------

  /** The same letter in either case, or the same byte. */
  predicate SameLetter(c: char, d: char) {
    || c == d
    || ('A' <= c <= 'Z' && d as int - c as int == 'a' as int - 'A' as int)
    || ('A' <= d <= 'Z' && c as int - d as int == 'a' as int - 'A' as int)
  }

  predicate SameButForCase(a: string, b: string) {
    |a| == |b| && forall i :: 0 <= i < |a| ==> SameLetter(a[i], b[i])
  }

  lemma LowerExactly(a: string, b: string)
    ensures ToLower(a) == ToLower(b) <==> SameButForCase(a, b)
  {
    if ToLower(a) == ToLower(b) {
      forall i | 0 <= i < |a| ensures SameLetter(a[i], b[i]) {
        assert ToLower(a)[i] == ToLower(b)[i];
      }
    }
  }

  lemma UpperExactly(a: string, b: string)
    ensures ToUpper(a) == ToUpper(b) <==> SameButForCase(a, b)
  {
    if ToUpper(a) == ToUpper(b) {
      forall i | 0 <= i < |a| ensures SameLetter(a[i], b[i]) {
        assert ToUpper(a)[i] == ToUpper(b)[i];
      }
    }
  }

  /** Space, tab, line feed, vertical tab, form feed and carriage return. */
  predicate IsPadding(c: char) {
    c as int in {32, 9, 10, 11, 12, 13}
  }

  predicate Padding(s: string) {
    forall i :: 0 <= i < |s| ==> IsPadding(s[i])
  }

  /** The part of a text that begins and ends without padding, with nothing but padding around it. */
  predicate IsCoreAt(s: string, i: nat, j: nat) {
    && i <= j <= |s| && Padding(s[..i]) && Padding(s[j..])
    && (i < j ==> !IsPadding(s[i]) && !IsPadding(s[j - 1]))
  }

  ghost predicate IsCore(core: string, s: string) {
    exists i: nat, j: nat :: IsCoreAt(s, i, j) && core == s[i..j]
  }

  lemma {:induction false} TrimLeftStops(s: string) returns (i: nat)
    ensures i <= |s| && TrimLeft(s) == s[i..] && Padding(s[..i]) && (i < |s| ==> !IsPadding(s[i]))
  {
    if s != [] && IsSpace(s[0]) {
      var k := TrimLeftStops(s[1..]);
      i := k + 1;
      assert s[..i] == [s[0]] + s[1..][..k] && s[i..] == s[1..][k..];
    } else {
      i := 0;
    }
  }

  lemma {:induction false} TrimRightStops(s: string) returns (j: nat)
    ensures j <= |s| && TrimRight(s) == s[..j] && Padding(s[j..]) && (j > 0 ==> !IsPadding(s[j - 1]))
  {
    if s != [] && IsSpace(s[|s| - 1]) {
      var t := s[..|s| - 1];
      j := TrimRightStops(t);
      assert s[j..] == t[j..] + [s[|s| - 1]] && s[..j] == t[..j];
    } else {
      j := |s|;
    }
  }

  lemma TrimIsCore(s: string)
    ensures IsCore(TrimSpace(s), s)
  {
    var i := TrimLeftStops(s);
    var k := TrimRightStops(s[i..]);
    assert s[i..][..k] == s[i..i + k] && s[i..][k..] == s[i + k..];
    assert IsCoreAt(s, i, i + k);
  }

  /** Outside the core there is padding only. */
  lemma AroundCore(s: string, i: nat, j: nat)
    requires IsCoreAt(s, i, j)
    ensures forall p :: 0 <= p < |s| && (p < i || p >= j) ==> IsPadding(s[p])
  {
    assert forall p :: 0 <= p < i ==> s[..i][p] == s[p];
    assert forall p :: j <= p < |s| ==> s[j..][p - j] == s[p];
  }

  lemma CoreIsUnique(s: string, i: nat, j: nat, k: nat, l: nat)
    requires IsCoreAt(s, i, j) && IsCoreAt(s, k, l)
    ensures s[i..j] == s[k..l]
  {
    AroundCore(s, i, j);
    AroundCore(s, k, l);
  }

  /** Trimming takes all the padding at both ends and nothing else. */
  lemma TrimExactly(core: string, s: string)
    ensures TrimSpace(s) == core <==> IsCore(core, s)
  {
    TrimIsCore(s);
    if IsCore(core, s) {
      var i: nat, j: nat :| IsCoreAt(s, i, j) && core == s[i..j];
      var k: nat, l: nat :| IsCoreAt(s, k, l) && TrimSpace(s) == s[k..l];
      CoreIsUnique(s, i, j, k, l);
    }
  }

  /** Two texts have one normal form exactly when they differ in padding at the ends and in case only. */
  lemma NormaliseExactly(s: string, t: string)
    ensures Normalise(s) == Normalise(t)
            <==> exists c, d :: IsCore(c, s) && IsCore(d, t) && SameButForCase(c, d)
  {
    LowerExactly(TrimSpace(s), TrimSpace(t));
    TrimIsCore(s);
    TrimIsCore(t);
    if c, d :| IsCore(c, s) && IsCore(d, t) && SameButForCase(c, d) {
      TrimExactly(c, s);
      TrimExactly(d, t);
    }
  }

  /** Index of the first occurrence of c, or -1, as strings.IndexByte. */
  function IndexByte(s: string, c: char): (i: int)
    ensures -1 <= i < |s|
    ensures i >= 0 ==> s[i] == c && c !in s[..i]
    ensures i < 0 ==> c !in s
  {
    if s == [] then -1
    else if s[0] == c then 0
    else
      var rest := IndexByte(s[1..], c);
      assert s == [s[0]] + s[1..];
      if rest < 0 then -1 else
        assert s[..rest + 1] == [s[0]] + s[1..][..rest];
        rest + 1
  }

  lemma IndexByteOf(p: string, c: char, q: string)
    requires c !in p
    ensures IndexByte(p + [c] + q, c) == |p|
  {
    var s := p + [c] + q;
    assert s[..|p|] == p && s[|p|] == c;
  }

  // ---------- the text order ----------

  predicate TextLt(a: string, b: string) {
    b != [] && (a == [] || a[0] < b[0] || (a[0] == b[0] && TextLt(a[1..], b[1..])))
  }

  predicate TextLe(a: string, b: string) {
    a == b || TextLt(a, b)
  }

  lemma {:induction false} TextLtAsymmetric(a: string, b: string)
    requires TextLt(a, b)
    ensures !TextLt(b, a) && a != b
  {
    if a == [] || a[0] != b[0] {
    } else {
      TextLtAsymmetric(a[1..], b[1..]);
    }
  }

  lemma {:induction false} TextLtExtend(p: string, p': string, q: string, q': string)
    requires |p| == |p'| && TextLt(p, p')
    ensures TextLt(p + q, p' + q')
  {
    var a, b := p + q, p' + q';
    assert a[0] == p[0] && b[0] == p'[0];
    if p[0] != p'[0] {
    } else {
      assert a[1..] == p[1..] + q && b[1..] == p'[1..] + q';
      TextLtExtend(p[1..], p'[1..], q, q');
    }
  }

  lemma {:induction false} TextLtAfter(p: string, q: string, q': string)
    requires TextLt(q, q')
    ensures TextLt(p + q, p + q')
  {
    if p == [] {
      assert p + q == q && p + q' == q';
    } else {
      var a, b := p + q, p + q';
      assert a[0] == p[0] == b[0];
      assert a[1..] == p[1..] + q && b[1..] == p[1..] + q';
      TextLtAfter(p[1..], q, q');
    }
  }

  /** The byte order: at the first difference the smaller byte, or the end of the text, comes first. */
  lemma {:induction false} TextLtExactly(a: string, b: string)
    ensures TextLt(a, b)
            <==> exists i :: 0 <= i <= |a| && i < |b| && a[..i] == b[..i] && (i == |a| || a[i] < b[i])
  {
    if a != [] && b != [] && a[0] == b[0] {
      TextLtExactly(a[1..], b[1..]);
      var p, q := a[1..], b[1..];
      if i :| 0 <= i <= |p| && i < |q| && p[..i] == q[..i] && (i == |p| || p[i] < q[i]) {
        assert a[..i + 1] == [a[0]] + p[..i] && b[..i + 1] == [b[0]] + q[..i];
      }
      if i :| 0 <= i <= |a| && i < |b| && a[..i] == b[..i] && (i == |a| || a[i] < b[i]) {
        assert i > 0 && p[..i - 1] == a[..i][1..] && q[..i - 1] == b[..i][1..];
      }
    } else if a != [] && b != [] {
      assert a[..0] == b[..0];
      forall i | 0 < i <= |a| && i < |b| ensures a[..i] != b[..i] { assert a[..i][0] != b[..i][0]; }
    } else if b != [] {
      assert a[..0] == b[..0];
    }
  }

  // ---------- fixed-width decimals ----------

  function Pad2(n: int): (s: string)
    requires 0 <= n < 100
    ensures |s| == 2 && IsDigit(s[0]) && IsDigit(s[1])
  {
    [Digit(n / 10), Digit(n % 10)]
  }

  function Pad4(n: int): (s: string)
    requires 0 <= n < 10000
    ensures |s| == 4 && forall i :: 0 <= i < 4 ==> IsDigit(s[i])
  {
    Pad2(n / 100) + Pad2(n % 100)
  }

  predicate AllDigits(s: string) {
    forall i :: 0 <= i < |s| ==> IsDigit(s[i])
  }

  /** The value of a digit string, most significant digit first. */
  function Number(s: string): (n: int)
    requires AllDigits(s)
    ensures n >= 0
  {
    if s == [] then 0 else Number(s[..|s| - 1]) * 10 + DigitValue(s[|s| - 1])
  }

  lemma NumberPad2(n: int)
    requires 0 <= n < 100
    ensures Number(Pad2(n)) == n
  {
    var s := Pad2(n);
    assert s[..1] == [Digit(n / 10)];
    assert s[..1][..0] == [];
    assert Number(s[..1]) == n / 10;
  }

  lemma NumberPad4(n: int)
    requires 0 <= n < 10000
    ensures Number(Pad4(n)) == n
  {
    var s := Pad4(n);
    assert s[..2] == Pad2(n / 100);
    NumberPad2(n / 100);
    assert s[..3][..2] == s[..2] && s[..4] == s;
    assert Number(s[..3]) == Number(s[..2]) * 10 + DigitValue(s[2]);
    assert Number(s) == Number(s[..3]) * 10 + DigitValue(s[3]);
  }

  lemma Pad2Order(a: int, b: int)
    requires 0 <= a < b < 100
    ensures TextLt(Pad2(a), Pad2(b))
  {
    var p, q := Pad2(a), Pad2(b);
    assert p[1..] == [Digit(a % 10)] && q[1..] == [Digit(b % 10)];
    assert DigitValue(p[0]) == a / 10 && DigitValue(q[0]) == b / 10;
    if a / 10 == b / 10 {
      assert a % 10 < b % 10;
      assert TextLt(p[1..], q[1..]);
    }
  }

  lemma Pad4Order(a: int, b: int)
    requires 0 <= a < b < 10000
    ensures TextLt(Pad4(a), Pad4(b))
  {
    if a / 100 == b / 100 {
      Pad2Order(a % 100, b % 100);
      TextLtAfter(Pad2(a / 100), Pad2(a % 100), Pad2(b % 100));
    } else {
      Pad2Order(a / 100, b / 100);
      TextLtExtend(Pad2(a / 100), Pad2(b / 100), Pad2(a % 100), Pad2(b % 100));
    }
  }

  /** The decimal numeral of n, without leading zeros. */
  function Decimal(n: int): (s: string)
    requires n >= 0
    ensures AllDigits(s) && |s| >= 1
    ensures (n >= 10 ==> |s| >= 2) && (n >= 100 ==> |s| >= 3)
    ensures (n >= 1000 ==> |s| >= 4) && (n >= 10000 ==> |s| >= 5)
  {
    if n < 10 then [Digit(n)] else Decimal(n / 10) + [Digit(n % 10)]
  }

  lemma {:induction false} NumberDecimal(n: int)
    requires n >= 0
    ensures Number(Decimal(n)) == n
  {
    var s := Decimal(n);
    if n < 10 {
      assert s[..0] == [];
    } else {
      NumberDecimal(n / 10);
      assert s[..|s| - 1] == Decimal(n / 10);
    }
  }

  /** A separator that both right-hand parts avoid splits a text in one way only. */
  lemma SplitLast(a: string, b: string, a': string, b': string, sep: char)
    requires sep !in b && sep !in b' && a + [sep] + b == a' + [sep] + b'
    ensures a == a' && b == b'
  {
    var s := a + [sep] + b;
    assert s[|s| - 1 - |b|] == sep && s[|s| - 1 - |b'|] == sep;
    assert forall i :: |s| - |b| <= i < |s| ==> s[i] == b[i - (|s| - |b|)];
    assert forall i :: |s| - |b'| <= i < |s| ==> s[i] == b'[i - (|s| - |b'|)];
    assert |a| == |a'|;
    assert a == s[..|a|] && a' == s[..|a|] && b == s[|a| + 1..] && b' == s[|a| + 1..];
  }

  /** And one that both left-hand parts avoid. */
  lemma SplitFirst(a: string, b: string, a': string, b': string, sep: char)
    requires sep !in a && sep !in a' && a + [sep] + b == a' + [sep] + b'
    ensures a == a' && b == b'
  {
    var s := a + [sep] + b;
    IndexByteOf(a, sep, b);
    IndexByteOf(a', sep, b');
    assert a == s[..|a|] && a' == s[..|a|] && b == s[|a| + 1..] && b' == s[|a| + 1..];
  }
}
