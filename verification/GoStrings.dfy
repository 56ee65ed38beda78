/** The string functions of Go's standard library that the parsers and builders
    use, on sequences of characters, and what is true of them. */
module GoStrings {

  // ------------------------------------------------------------ numerals

  predicate IsDigit(c: char) { '0' <= c <= '9' }

  predicate IsHexDigit(c: char) { IsDigit(c) || 'a' <= c <= 'f' }

  predicate Numeral(s: string) { |s| > 0 && forall c | c in s :: IsDigit(c) }

  function DigitChar(d: nat): (c: char)
    requires d < 16
    ensures IsHexDigit(c) && DigitValue(c) == d
    ensures d < 10 ==> IsDigit(c)
  {
    if d < 10 then '0' + d as char else 'a' + (d - 10) as char
  }

  function DigitValue(c: char): (d: nat)
    requires IsHexDigit(c)
    ensures d < 16 && (IsDigit(c) ==> d < 10)
  {
    if IsDigit(c) then (c - '0') as nat else (c - 'a') as nat + 10
  }

  /** n in base ten without leading zeros: strconv.Itoa and str(). */
  function Itoa(n: nat): (s: string)
    ensures |s| > 0 && forall c | c in s :: IsDigit(c)
  {
    if n < 10 then [DigitChar(n)] else Itoa(n / 10) + [DigitChar(n % 10)]
  }

  /** n in base sixteen without leading zeros: %x. */
  function Hex(n: nat): (s: string)
    ensures |s| > 0 && forall c | c in s :: IsHexDigit(c)
  {
    if n < 16 then [DigitChar(n)] else Hex(n / 16) + [DigitChar(n % 16)]
  }

  /** The number a string of decimal digits denotes. */
  function Value(s: string): nat
    requires forall c | c in s :: IsDigit(c)
  {
    if s == [] then 0 else Value(s[..|s| - 1]) * 10 + DigitValue(s[|s| - 1])
  }

  function HexValue(s: string): nat
    requires forall c | c in s :: IsHexDigit(c)
  {
    if s == [] then 0 else HexValue(s[..|s| - 1]) * 16 + DigitValue(s[|s| - 1])
  }

  lemma {:induction false} ItoaValue(n: nat)
    ensures Value(Itoa(n)) == n
    ensures |Itoa(n)| > 1 ==> Itoa(n)[0] != '0'
  {
    if n >= 10 {
      ItoaValue(n / 10);
      var s := Itoa(n / 10);
      assert (s + [DigitChar(n % 10)])[..|s|] == s;
    }
  }

  lemma ItoaInjective(m: nat, n: nat)
    requires Itoa(m) == Itoa(n)
    ensures m == n
  {
    ItoaValue(m);
    ItoaValue(n);
  }

  // ------------------------------------------------------------ separators

  /** A field that does not contain the separator ends at its first occurrence. */
  lemma {:induction false} FirstSeparator(a: string, r: string, b: string, s: string, sep: char)
    requires sep !in a && sep !in b
    requires a + [sep] + r == b + [sep] + s
    ensures a == b && r == s
  {
    var x := a + [sep] + r;
    assert x[|a|] == sep && x[|b|] == sep;
    assert forall i | 0 <= i < |a| :: x[i] != sep;
    assert forall i | 0 <= i < |b| :: x[i] != sep;
    assert |a| == |b|;
    assert x[|a| + 1..] == r && x[|b| + 1..] == s;
    assert x[..|a|] == a && x[..|b|] == b;
  }

  /** A field that does not contain the separator starts after its last occurrence. */
  lemma {:induction false} LastSeparator(a: string, r: string, b: string, s: string, sep: char)
    requires sep !in r && sep !in s
    requires a + [sep] + r == b + [sep] + s
    ensures a == b && r == s
  {
    var x := a + [sep] + r;
    assert x[|a|] == sep && x[|b|] == sep;
    assert forall i | |a| < i < |x| :: x[i] == r[i - |a| - 1] && x[i] != sep;
    assert forall i | |b| < i < |x| :: x[i] == s[i - |b| - 1] && x[i] != sep;
    assert |a| == |b|;
    assert x[|a| + 1..] == r && x[|b| + 1..] == s;
    assert x[..|a|] == a && x[..|b|] == b;
  }

  /** What is before and after the first separator; all of s and nothing if it has none. */
  function CutFirst(s: string, sep: char): (string, string) {
    if s == "" then ("", "")
    else if s[0] == sep then ("", s[1..])
    else var (before, after) := CutFirst(s[1..], sep); ([s[0]] + before, after)
  }

  /** The same for the last separator. */
  function CutLast(s: string, sep: char): (string, string) {
    if s == "" then ("", "")
    else if s[|s| - 1] == sep then (s[..|s| - 1], "")
    else
      var (before, after) := CutLast(s[..|s| - 1], sep);
      if sep in s then (before, after + [s[|s| - 1]]) else (s, "")
  }

  lemma {:induction false} CutFirstAt(a: string, r: string, sep: char)
    requires sep !in a
    ensures CutFirst(a + [sep] + r, sep) == (a, r)
  {
    var s := a + [sep] + r;
    if a == "" {
      assert s[1..] == r;
    } else {
      assert s[1..] == a[1..] + [sep] + r;
      CutFirstAt(a[1..], r, sep);
      assert [a[0]] + a[1..] == a;
    }
  }

  lemma {:induction false} CutLastAt(a: string, r: string, sep: char)
    requires sep !in r
    ensures CutLast(a + [sep] + r, sep) == (a, r)
  {
    var s := a + [sep] + r;
    assert s[|a|] == sep;
    if r == "" {
      assert s[..|s| - 1] == a;
    } else {
      var last := |r| - 1;
      assert s[..|s| - 1] == a + [sep] + r[..last];
      CutLastAt(a, r[..last], sep);
      assert r[..last] + [r[last]] == r;
    }
  }

  /** strings.TrimPrefix. */
  function TrimPrefix(s: string, prefix: string): string {
    if prefix <= s then s[|prefix|..] else s
  }

  /** strings.Join. */
  function Join(xs: seq<string>, sep: string): string {
    if xs == [] then "" else if |xs| == 1 then xs[0] else xs[0] + sep + Join(xs[1..], sep)
  }

  /** strings.Split on one character: always at least one piece. */
  function Split(s: string, sep: char): (pieces: seq<string>)
    ensures |pieces| >= 1
  {
    if s == "" then [""]
    else
      var rest := Split(s[1..], sep);
      if s[0] == sep then [""] + rest else [[s[0]] + rest[0]] + rest[1..]
  }

  lemma {:induction false} SplitPiece(a: string, s: string, sep: char)
    requires sep !in a
    ensures Split(a + [sep] + s, sep) == [a] + Split(s, sep)
    ensures Split(a, sep) == [a]
  {
    if a == "" {
      assert a + [sep] + s == [sep] + s;
      assert ([sep] + s)[1..] == s;
    } else {
      SplitPiece(a[1..], s, sep);
      assert (a + [sep] + s)[1..] == a[1..] + [sep] + s;
      assert [a[0]] + a[1..] == a;
    }
  }

  /** Splitting what was joined gives the pieces back. */
  lemma {:induction false} SplitJoin(xs: seq<string>, sep: char)
    requires |xs| >= 1
    requires forall i | 0 <= i < |xs| :: sep !in xs[i]
    ensures Split(Join(xs, [sep]), sep) == xs
  {
    if |xs| == 1 {
      SplitPiece(xs[0], "", sep);
    } else {
      assert forall i | 0 <= i < |xs[1..]| :: xs[1..][i] == xs[i + 1];
      SplitJoin(xs[1..], sep);
      SplitPiece(xs[0], Join(xs[1..], [sep]), sep);
    }
  }

  /** Joining what was split gives the string back. */
  lemma {:induction false} JoinSplit(s: string, sep: char)
    ensures Join(Split(s, sep), [sep]) == s
    ensures forall i | 0 <= i < |Split(s, sep)| :: sep !in Split(s, sep)[i]
  {
    if s != "" {
      JoinSplit(s[1..], sep);
      var rest := Split(s[1..], sep);
      var all := Split(s, sep);
      if s[0] == sep {
        assert all[1..] == rest;
      } else {
        assert all[1..] == rest[1..];
        assert [s[0]] + s[1..] == s;
      }
    }
  }

  // ------------------------------------------------------------ dotted numerals

  /** The numbers a list of numerals denotes. */
  function Values(pieces: seq<string>): (r: seq<nat>)
    requires forall i | 0 <= i < |pieces| :: Numeral(pieces[i])
    ensures |r| == |pieces| && forall i | 0 <= i < |r| :: Numeral(pieces[i]) && r[i] == Value(pieces[i])
  {
    if pieces == [] then []
    else
      assert Numeral(pieces[0]);
      [Value(pieces[0])] + Values(pieces[1..])
  }

  lemma FourValues(a: string, b: string, c: string, d: string)
    requires Numeral(a) && Numeral(b) && Numeral(c) && Numeral(d)
    ensures Values([a, b, c, d]) == [Value(a), Value(b), Value(c), Value(d)]
  {
    var pieces := [a, b, c, d];
    assert pieces[0] == a && pieces[1] == b && pieces[2] == c && pieces[3] == d;
  }

  /** A numeral has no separators in it. */
  lemma NoSeparators(s: string)
    requires Numeral(s)
    ensures '.' !in s && '/' !in s
  {
  }

  lemma JoinFour(a: string, b: string, c: string, d: string)
    ensures Join([a, b, c, d], ".") == a + "." + (b + "." + (c + "." + d))
  {
    assert [a, b, c, d][1..] == [b, c, d] && [b, c, d][1..] == [c, d] && [c, d][1..] == [d];
    assert Join([c, d], ".") == c + "." + d;
    assert Join([b, c, d], ".") == b + "." + (c + "." + d);
  }

  // ------------------------------------------------------------ white space

  /** unicode.IsSpace. */
  predicate IsSpace(c: char) {
    || '\t' <= c <= '\r' || c == ' ' || c == '\U{0085}' || c == '\U{00A0}' || c == '\U{1680}'
    || '\U{2000}' <= c <= '\U{200a}' || c == '\U{2028}' || c == '\U{2029}'
    || c == '\U{202f}' || c == '\U{205f}' || c == '\U{3000}'
  }

  predicate Blank(s: string) { forall c | c in s :: IsSpace(c) }

  /** A non-empty string without white space. */
  predicate Word(s: string) { |s| > 0 && forall c | c in s :: !IsSpace(c) }

  function WordLength(s: string): (k: nat)
    ensures k <= |s|
    ensures forall i | 0 <= i < k :: !IsSpace(s[i])
    ensures k < |s| ==> IsSpace(s[k])
  {
    if s == "" || IsSpace(s[0]) then 0 else 1 + WordLength(s[1..])
  }

  /** strings.Fields: the maximal runs of characters that are not white space. */
  function Fields(s: string): (fs: seq<string>)
    ensures forall i | 0 <= i < |fs| :: Word(fs[i])
    decreases |s|
  {
    if s == "" then []
    else if IsSpace(s[0]) then Fields(s[1..])
    else
      var k := WordLength(s);
      [s[..k]] + Fields(s[k..])
  }

  lemma FieldsOfWord(w: string)
    requires Word(w)
    ensures Fields(w) == [w]
  {
    assert WordLength(w) == |w|;
    assert w[..|w|] == w;
  }

  lemma {:induction false} FieldsOfBlank(s: string)
    requires Blank(s)
    ensures Fields(s) == []
  {
    if s != "" {
      assert IsSpace(s[0]);
      FieldsOfBlank(s[1..]);
    }
  }

  /** The end of the first word is where the first white space is. */
  lemma WordLengthIs(s: string, k: nat)
    requires k <= |s|
    requires forall i | 0 <= i < k :: !IsSpace(s[i])
    requires k < |s| ==> IsSpace(s[k])
    ensures WordLength(s) == k
  {
  }

  /** White space after a string leaves its first word as it is. */
  lemma FirstWordKept(a: string, b: string)
    requires b == "" || IsSpace(b[0])
    ensures var k := WordLength(a);
      WordLength(a + b) == k && (a + b)[..k] == a[..k] && (a + b)[k..] == a[k..] + b
  {
    WordLengthIs(a + b, WordLength(a));
  }

  /** White space between two strings separates their fields. */
  lemma {:induction false} FieldsConcat(a: string, b: string)
    requires b == "" || IsSpace(b[0])
    ensures Fields(a + b) == Fields(a) + Fields(b)
    decreases |a|
  {
    if a == "" {
      assert a + b == b;
    } else if IsSpace(a[0]) {
      assert (a + b)[1..] == a[1..] + b;
      FieldsConcat(a[1..], b);
    } else {
      var k := WordLength(a);
      FirstWordKept(a, b);
      FieldsConcat(a[k..], b);
      assert Fields(a + b) == [a[..k]] + Fields(a[k..] + b);
    }
  }

  lemma FieldsSpace(c: char, s: string)
    requires IsSpace(c)
    ensures Fields([c] + s) == Fields(s)
  {
    assert ([c] + s)[1..] == s;
  }

  /** Two strings with a space between them. */
  lemma FieldsSpaced(a: string, b: string)
    ensures Fields(a + " " + b) == Fields(a) + Fields(b)
  {
    FieldsConcat(a, " " + b);
    FieldsSpace(' ', b);
    assert a + " " + b == a + (" " + b);
  }

  /** Words joined by single spaces. */
  lemma {:induction false} FieldsJoin(ws: seq<string>)
    requires forall i | 0 <= i < |ws| :: Word(ws[i])
    ensures Fields(Join(ws, " ")) == ws
  {
    if |ws| == 1 {
      FieldsOfWord(ws[0]);
    } else if |ws| > 1 {
      assert forall i | 0 <= i < |ws[1..]| :: ws[1..][i] == ws[i + 1];
      FieldsJoin(ws[1..]);
      FieldsOfWord(ws[0]);
      FieldsSpaced(ws[0], Join(ws[1..], " "));
      assert ws[0] + " " + Join(ws[1..], " ") == Join(ws, " ");
    }
  }

  // ------------------------------------------------------------ order

  /** Go's < on strings: lexicographic by character. */
  predicate Less(a: string, b: string) {
    if b == "" then false
    else if a == "" then true
    else a[0] < b[0] || (a[0] == b[0] && Less(a[1..], b[1..]))
  }

  lemma {:induction false} LessIrreflexive(a: string)
    ensures !Less(a, a)
  {
    if a != "" {
      LessIrreflexive(a[1..]);
    }
  }

  lemma {:induction false} LessTotal(a: string, b: string)
    ensures Less(a, b) || a == b || Less(b, a)
  {
    if a != "" && b != "" && a[0] == b[0] {
      LessTotal(a[1..], b[1..]);
      assert [a[0]] + a[1..] == a && [b[0]] + b[1..] == b;
    }
  }

  lemma {:induction false} LessTransitive(a: string, b: string, c: string)
    requires Less(a, b) && Less(b, c)
    ensures Less(a, c)
  {
    if a != "" && a[0] == b[0] == c[0] {
      LessTransitive(a[1..], b[1..], c[1..]);
    }
  }

  /** Which is: at the first place they differ a has the smaller character, or a ends there. */
  lemma {:induction false} LessExactly(a: string, b: string)
    ensures Less(a, b) <==> exists k | 0 <= k < |b| :: Differ(a, b, k)
  {
    if a != "" && b != "" && a[0] == b[0] {
      LessExactly(a[1..], b[1..]);
      forall k | 0 <= k < |b[1..]| ensures Differ(a[1..], b[1..], k) <==> Differ(a, b, k + 1) {
        DifferLater(a, b, k);
      }
      assert !Differ(a, b, 0);
      if k :| 0 <= k < |b| && Differ(a, b, k) {
        assert Differ(a[1..], b[1..], k - 1);
      }
    } else if b != "" {
      assert Less(a, b) ==> Differ(a, b, 0);
    }
  }

  /** a and b agree before place k, where b goes on and a ends or is smaller. */
  predicate Differ(a: string, b: string, k: nat) {
    k <= |a| && k < |b| && a[..k] == b[..k] && (k == |a| || a[k] < b[k])
  }

  lemma DifferLater(a: string, b: string, k: nat)
    requires a != "" && b != "" && a[0] == b[0]
    ensures Differ(a[1..], b[1..], k) <==> Differ(a, b, k + 1)
  {
    if k < |a| && k + 1 < |b| {
      assert a[..k + 1] == [a[0]] + a[1..][..k] && b[..k + 1] == [b[0]] + b[1..][..k];
    }
  }
}
