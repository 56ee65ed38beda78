/** The two VyOS back ends of executor/vyos.go: configure lines as a herestring in
    dollar-single quotes for vbash, and as operations for the HTTP API. */
module Vyos {
  import opened Options
  import opened GoStrings
  import opened GoNumbers

  const SOURCE := "source " + "/opt/vyatta" + "/etc/functions" + "/script-template"
  const HEADER: seq<string> := [SOURCE, "configure"]
  const TRAILER: seq<string> := ["commit", "exit"]
  const OPENING := "ssh_qemu /bin/vbash -s <<< $'"

  /** strings.ReplaceAll(a, "'", `\'`). */
  function Escape(a: string): string {
    if a == "" then "" else (if a[0] == '\'' then "\\'" else [a[0]]) + Escape(a[1..])
  }

  function EscapeAll(args: seq<string>): (escaped: seq<string>)
    ensures |escaped| == |args| && forall i | 0 <= i < |args| :: escaped[i] == Escape(args[i])
  {
    seq(|args|, i requires 0 <= i < |args| => Escape(args[i]))
  }

  /** The text between the quotes. */
  function Body(args: seq<string>): string {
    Join(HEADER + EscapeAll(args) + TRAILER, "\\n")
  }

  /** dispatchAsVyOSApply; argsKind says the command is of the args kind. */
  method DispatchAsVyOSApply(argsKind: bool, args: seq<string>) returns (r: Result<seq<string>>)
    ensures r.Ok? <==> argsKind
    ensures r.Ok? ==> r.value == ["ssh_qemu /bin/vbash -s <<< $'" + Body(args) + "'"]
  {
    if !argsKind {
      return Err("executor expects args commands");
    }
    var escaped := new string[|args|];
    for i := 0 to |args|
      invariant forall k | 0 <= k < i :: escaped[k] == Escape(args[k])
    {
      escaped[i] := Escape(args[i]);
    }
    assert escaped[..] == EscapeAll(args);
    var lines := HEADER;
    lines := lines + escaped[..];
    lines := lines + TRAILER;
    var inner := Join(lines, "\\n");
    r := Ok([OPENING + inner + "'"]);
  }

  // ------------------------------------------------------------ reading it back

  // The script runs under bash -c, so what vbash is given is what bash makes of the
  // text between $' and the closing quote (section 2.2.4 of POSIX.1-2024 XCU, and
  // bash where POSIX leaves it open).

  /** Where the closing quote is: a backslash takes the next character with it. */
  function EndQuote(s: string): Option<nat> {
    if s == "" then None
    else if s[0] == '\'' then Some(0)
    else if s[0] != '\\' then Further(1, EndQuote(s[1..]))
    else if |s| == 1 then None
    else Further(2, EndQuote(s[2..]))
  }

  function Further(n: nat, at: Option<nat>): Option<nat> {
    match at case None => None case Some(k) => Some(n + k)
  }

  /** The character an escape of one letter stands for. */
  function OneLetter(c: char): Option<char> {
    match c
    case '\'' => Some('\'')
    case '\"' => Some('\"')
    case '\\' => Some('\\')
    case '?' => Some('?')
    case 'a' => Some('\U{07}')
    case 'b' => Some('\U{08}')
    case 'e' => Some('\U{1B}')
    case 'E' => Some('\U{1B}')
    case 'f' => Some('\U{0C}')
    case 'n' => Some('\n')
    case 'r' => Some('\r')
    case 't' => Some('\t')
    case 'v' => Some('\U{0B}')
    case _ => None
  }

  predicate Octal(c: char) { AnyDigit(c) < 8 }

  predicate Hexadecimal(c: char) { AnyDigit(c) < 16 }

  /** bash keeps a backslash together with a character that makes no escape: t is what
      follows the backslash. */
  predicate Kept(t: string)
    requires t != ""
  {
    && OneLetter(t[0]).None? && !Octal(t[0])
    && (t[0] == 'c' ==> |t| == 1)
    && (t[0] in "xuU" ==> |t| == 1 || !Hexadecimal(t[1]))
    && (t[0] == 'x' ==> |t| == 1 || t[1] != '{')
  }

  /** How many of the characters at the start of s, up to most, are digits. */
  function Leading(s: string, radix: nat, most: nat): (k: nat)
    ensures k <= |s| && k <= most
  {
    if s == "" || most == 0 || AnyDigit(s[0]) >= radix then 0 else 1 + Leading(s[1..], radix, most - 1)
  }

  /** How many characters after the backslash belong to its escape. */
  function EscapeLength(t: string): (k: nat)
    requires t != ""
    ensures 1 <= k <= |t|
  {
    if Octal(t[0]) then 1 + Leading(t[1..], 8, 2)
    else if t[0] == 'x' && |t| > 1 && t[1] == '{' then
      var k := 2 + Leading(t[2..], 16, |t|);
      if k < |t| && t[k] == '}' then k + 1 else k
    else if t[0] == 'x' then 1 + Leading(t[1..], 16, 2)
    else if t[0] == 'u' then 1 + Leading(t[1..], 16, 4)
    else if t[0] == 'U' then 1 + Leading(t[1..], 16, 8)
    else if t[0] == 'c' && |t| > 1 then (if |t| > 2 && t[1] == '\\' == t[2] then 3 else 2)
    else 1
  }

  /** What a numeric or control escape stands for: a character, nothing, or the
      character zero, where the text ends. */
  datatype Code = Character(c: char) | Nothing | TheEnd

  /** The text between the quotes with its escapes replaced.  Which character each
      numeric or control escape is does not matter here: codes is any function. */
  function Expand(codes: string -> Code, s: string): string {
    if s == "" then ""
    else if s[0] != '\\' || |s| == 1 then [s[0]] + Expand(codes, s[1..])
    else
      var t := s[1..];
      var k := EscapeLength(t);
      if Kept(t) then ['\\', t[0]] + Expand(codes, t[1..])
      else if OneLetter(t[0]).Some? then [OneLetter(t[0]).value] + Expand(codes, t[1..])
      else
        match codes(t[..k])
        case Character(c) => [c] + Expand(codes, t[k..])
        case Nothing => Expand(codes, t[k..])
        case TheEnd => ""
  }

  function EncChar(c: char): string {
    if c == '\'' then "\\'" else if c == '\n' then "\\n" else [c]
  }

  /** The text with each quote escaped and each newline written as an escape. */
  function Enc(s: string): string {
    if s == "" then "" else EncChar(s[0]) + Enc(s[1..])
  }

  lemma {:induction false} EncConcat(a: string, b: string)
    ensures Enc(a + b) == Enc(a) + Enc(b)
  {
    if a == "" {
      assert a + b == b;
    } else {
      assert (a + b)[1..] == a[1..] + b;
      EncConcat(a[1..], b);
    }
  }

  lemma {:induction false} EncOfLine(a: string)
    requires '\n' !in a
    ensures Enc(a) == Escape(a)
  {
    if a != "" {
      EncOfLine(a[1..]);
    }
  }

  /** Escaping line by line and joining with written newlines is encoding the joined
      text, when no line has a newline of its own. */
  lemma {:induction false} JoinEscaped(xs: seq<string>)
    requires forall i | 0 <= i < |xs| :: '\n' !in xs[i]
    ensures Join(EscapeAll(xs), "\\n") == Enc(Join(xs, "\n"))
  {
    if |xs| == 1 {
      EncOfLine(xs[0]);
    } else if |xs| > 1 {
      assert EscapeAll(xs)[1..] == EscapeAll(xs[1..]);
      JoinEscaped(xs[1..]);
      EncOfLine(xs[0]);
      EncConcat(xs[0] + "\n", Join(xs[1..], "\n"));
      EncConcat(xs[0], "\n");
      assert Enc("\n") == "\\n";
    }
  }

  /** A quote put after the text closes it, and not before. */
  predicate Closes(e: string) { EndQuote(e + "'") == Some(|e|) }

  lemma ClosesPlain(c: char, e: string)
    requires c != '\\' && c != '\''
    ensures Closes([c] + e) <==> Closes(e)
  {
    assert ([c] + e + "'")[1..] == e + "'";
  }

  lemma ClosesPair(c: char, e: string)
    ensures Closes(['\\', c] + e) <==> Closes(e)
  {
    assert (['\\', c] + e + "'")[2..] == e + "'";
  }

  lemma ExpandPlain(codes: string -> Code, c: char, e: string)
    requires c != '\\'
    ensures Expand(codes, [c] + e) == [c] + Expand(codes, e)
  {
    assert ([c] + e)[1..] == e;
  }

  lemma ExpandLetter(codes: string -> Code, c: char, e: string)
    requires OneLetter(c).Some?
    ensures Expand(codes, ['\\', c] + e) == [OneLetter(c).value] + Expand(codes, e)
  {
    var s := ['\\', c] + e;
    assert s[1..] == [c] + e;
    assert ([c] + e)[1..] == e;
  }

  lemma ExpandKept(codes: string -> Code, c: char, e: string)
    requires Kept([c] + e)
    ensures Expand(codes, ['\\', c] + e) == ['\\', c] + Expand(codes, e)
  {
    var s := ['\\', c] + e;
    assert s[1..] == [c] + e;
    assert ([c] + e)[1..] == e;
  }

  /** An escape leaves at most one character of its own. */
  lemma ExpandEscape(codes: string -> Code, c: char, e: string)
    requires !Kept([c] + e)
    ensures exists j | 0 <= j <= |e| :: |Expand(codes, ['\\', c] + e)| <= 1 + |Expand(codes, e[j..])|
  {
    var s, t := ['\\', c] + e, [c] + e;
    var k := EscapeLength(t);
    assert s[1..] == t;
    assert t[k..] == e[k - 1..] && t[1..] == e[0..];
    assert |Expand(codes, s)| <= 1 + |Expand(codes, e[k - 1..])| || |Expand(codes, s)| <= 1 + |Expand(codes, e[0..])|;
  }

  lemma EncStep(s: string, tail: string)
    requires s != "" && tail == s[1..]
    ensures Enc(s) == EncChar(s[0]) + Enc(tail)
  {
  }

  /** A character written as an escape. */
  lemma WrittenStep(codes: string -> Code, s: string, c: char)
    requires s != "" && EncChar(s[0]) == ['\\', c] && OneLetter(c) == Some(s[0])
    ensures Expand(codes, Enc(s)) == [s[0]] + Expand(codes, Enc(s[1..]))
    ensures Closes(Enc(s)) <==> Closes(Enc(s[1..]))
  {
    var e := Enc(s[1..]);
    EncStep(s, s[1..]);
    ExpandLetter(codes, c, e);
    ClosesPair(c, e);
  }

  /** One character that is not a backslash. */
  lemma PlainStep(codes: string -> Code, s: string)
    requires s != "" && s[0] != '\\'
    ensures Expand(codes, Enc(s)) == [s[0]] + Expand(codes, Enc(s[1..]))
    ensures Closes(Enc(s)) <==> Closes(Enc(s[1..]))
  {
    if s[0] == '\'' {
      WrittenStep(codes, s, '\'');
    } else if s[0] == '\n' {
      WrittenStep(codes, s, 'n');
    } else {
      var e := Enc(s[1..]);
      EncStep(s, s[1..]);
      ExpandPlain(codes, s[0], e);
      ClosesPlain(s[0], e);
    }
  }

  /** A backslash and the character after it. */
  lemma EncTwo(s: string, t: string, u: string)
    requires |s| > 1 && s[0] == '\\' && t == s[1..] && u == s[2..]
    ensures Enc(s) == ['\\'] + (EncChar(s[1]) + Enc(u))
  {
    assert t[1..] == u;
    EncStep(t, u);
    EncStep(s, t);
  }

  predicate Pair(s: string) { |s| > 1 && s[0] == '\\' && s[1] != '\'' && s[1] != '\n' }

  lemma EncPair(s: string)
    requires Pair(s)
    ensures Enc(s) == ['\\', s[1]] + Enc(s[2..])
  {
    EncTwo(s, s[1..], s[2..]);
  }

  /** What follows a character, as far as it makes an escape, is not changed by encoding. */
  lemma FirstOfEnc(s: string)
    ensures Enc(s) == "" <==> s == ""
    ensures s != "" ==> Enc(s)[0] == (if s[0] == '\'' || s[0] == '\n' then '\\' else s[0])
  {
    if s != "" {
      EncStep(s, s[1..]);
    }
  }

  lemma KeptByNext(c: char, x: string, y: string)
    requires x == "" <==> y == ""
    requires x != "" ==> (Hexadecimal(x[0]) <==> Hexadecimal(y[0])) && (x[0] == '{' <==> y[0] == '{')
    ensures Kept([c] + x) <==> Kept([c] + y)
  {
    assert x != "" ==> ([c] + x)[1] == x[0] && ([c] + y)[1] == y[0];
  }

  lemma KeptEncoded(c: char, s: string)
    ensures Kept([c] + Enc(s)) <==> Kept([c] + s)
  {
    FirstOfEnc(s);
    KeptByNext(c, Enc(s), s);
  }

  lemma KeptHere(s: string, rest: string)
    requires Pair(s) && rest == s[2..]
    ensures Kept([s[1]] + Enc(rest)) <==> Kept(s[1..])
  {
    assert s[1..] == [s[1]] + rest;
    KeptEncoded(s[1], rest);
  }

  lemma KeptStep(codes: string -> Code, s: string)
    requires Pair(s) && Kept(s[1..])
    ensures Expand(codes, Enc(s)) == ['\\', s[1]] + Expand(codes, Enc(s[2..]))
    ensures Closes(Enc(s)) <==> Closes(Enc(s[2..]))
  {
    var e := Enc(s[2..]);
    EncPair(s);
    KeptHere(s, s[2..]);
    ExpandKept(codes, s[1], e);
    ClosesPair(s[1], e);
  }

  lemma EscapeStep(codes: string -> Code, s: string)
    requires Pair(s) && !Kept(s[1..])
    ensures exists j | 0 <= j <= |Enc(s[2..])| :: |Expand(codes, Enc(s))| <= 1 + |Expand(codes, Enc(s[2..])[j..])|
  {
    EncPair(s);
    KeptHere(s, s[2..]);
    ExpandEscape(codes, s[1], Enc(s[2..]));
  }

  /** A backslash that meets the backslash put in before c. */
  lemma Turned(codes: string -> Code, c: char, e: string)
    requires c != '\\'
    ensures var turned := ['\\'] + (['\\', c] + e);
      Expand(codes, turned) == ['\\', c] + Expand(codes, e) && (c == '\'' ==> !Closes(turned))
  {
    var rest := [c] + e;
    assert ['\\'] + (['\\', c] + e) == ['\\', '\\'] + rest;
    ExpandLetter(codes, '\\', rest);
    ExpandPlain(codes, c, e);
    ClosesPair('\\', rest);
    assert (rest + "'")[0] == c;
  }

  /** A backslash before a quote or a newline turns on the backslash put in for it. */
  lemma TurnedStep(codes: string -> Code, s: string, c: char)
    requires |s| > 1 && s[0] == '\\' && EncChar(s[1]) == ['\\', c] && c != '\\'
    ensures Expand(codes, Enc(s)) == ['\\', c] + Expand(codes, Enc(s[2..]))
    ensures c == '\'' ==> !Closes(Enc(s))
  {
    EncTwo(s, s[1..], s[2..]);
    Turned(codes, c, Enc(s[2..]));
  }

  lemma DropConcat(w: string, tail: string, j: nat)
    requires |w| <= j <= |w| + |tail|
    ensures (w + tail)[j..] == tail[j - |w|..]
  {
  }

  lemma DropOne(codes: string -> Code, c: char, tail: string)
    requires c != '\\'
    ensures Expand(codes, (['\\', c] + tail)[1..]) == [c] + Expand(codes, tail[0..])
  {
    ExpandPlain(codes, c, tail);
    assert (['\\', c] + tail)[1..] == [c] + tail && tail[0..] == tail;
  }

  /** No part of an encoded text expands to more characters than were encoded. */
  lemma {:induction false} NeverLonger(codes: string -> Code, s: string, j: nat)
    requires j <= |Enc(s)|
    ensures |Expand(codes, Enc(s)[j..])| <= |s|
    decreases |s|, 2
  {
    if s != "" && j == 0 {
      assert Enc(s)[0..] == Enc(s);
      NeverLongerWhole(codes, s);
    } else if s != "" {
      var t, w := s[1..], EncChar(s[0]);
      EncStep(s, t);
      if j >= |w| {
        DropConcat(w, Enc(t), j);
        NeverLonger(codes, t, j - |w|);
      } else {
        DropOne(codes, w[1], Enc(t));
        NeverLonger(codes, t, 0);
      }
    }
  }

  lemma {:induction false} NeverLongerWhole(codes: string -> Code, s: string)
    requires s != ""
    ensures |Expand(codes, Enc(s))| <= |s|
    decreases |s|, 1
  {
    if s[0] != '\\' {
      PlainStep(codes, s);
      WholeTail(codes, s[1..]);
    } else if |s| == 1 {
      assert Enc(s) == "\\";
    } else if s[1] == '\'' || s[1] == '\n' {
      TurnedStep(codes, s, if s[1] == '\n' then 'n' else '\'');
      WholeTail(codes, s[2..]);
    } else if Kept(s[1..]) {
      KeptStep(codes, s);
      WholeTail(codes, s[2..]);
    } else {
      EscapeIsLost(codes, s);
    }
  }

  lemma {:induction false} WholeTail(codes: string -> Code, s: string)
    ensures |Expand(codes, Enc(s))| <= |s|
    decreases |s|, 3
  {
    NeverLonger(codes, s, 0);
    assert Enc(s)[0..] == Enc(s);
  }

  /** An escape makes the text shorter than it was. */
  lemma {:induction false} EscapeIsLost(codes: string -> Code, s: string)
    requires Pair(s) && !Kept(s[1..])
    ensures |Expand(codes, Enc(s))| < |s|
    decreases |s|, 0
  {
    EscapeStep(codes, s);
    var j :| 0 <= j <= |Enc(s[2..])| && |Expand(codes, Enc(s))| <= 1 + |Expand(codes, Enc(s[2..])[j..])|;
    NeverLonger(codes, s[2..], j);
  }

  /** If there is a backslash at i, it is kept with what follows. */
  predicate Mends(s: string, i: nat)
    requires i < |s|
  {
    s[i] == '\\' ==> i + 1 < |s| && s[i + 1] != '\n' && Kept(s[i + 1..])
  }

  predicate Safe(s: string) { forall i | 0 <= i < |s| :: Mends(s, i) }

  /** The text after a character that is no backslash, or after a kept pair. */
  lemma SafeTail(s: string, k: nat)
    requires s != "" && if s[0] == '\\' then k == 2 <= |s| && s[1] != '\n' && Kept(s[1..]) else k == 1
    ensures Safe(s) <==> Safe(s[k..])
  {
    var tail := s[k..];
    forall i | k <= i < |s| ensures Mends(s, i) <==> Mends(tail, i - k) {
      assert s[i] == tail[i - k] && s[i + 1..] == tail[i - k + 1..];
    }
    assert forall i | 0 <= i < k :: Mends(s, i);
    if Safe(s) {
      forall i | 0 <= i < |tail| ensures Mends(tail, i) {
        assert Mends(s, i + k);
      }
    }
    if Safe(tail) {
      forall i | k <= i < |s| ensures Mends(s, i) {
        assert Mends(tail, i - k);
      }
    }
  }

  /** An encoded text closes at its own quote and expands to itself exactly when it is
      safe. */
  lemma {:induction false} ExpandsBackExactly(codes: string -> Code, s: string)
    ensures Closes(Enc(s)) && Expand(codes, Enc(s)) == s <==> Safe(s)
    decreases |s|
  {
    if s == "" {
    } else if s[0] != '\\' {
      PlainStep(codes, s);
      ExpandsBackExactly(codes, s[1..]);
      SafeTail(s, 1);
      assert [s[0]] + s[1..] == s;
    } else if |s| == 1 {
      assert Enc(s) == "\\" && !Mends(s, 0);
    } else if s[1] == '\'' || s[1] == '\n' {
      TurnedStep(codes, s, if s[1] == '\n' then 'n' else '\'');
      assert !Mends(s, 0);
    } else if Kept(s[1..]) {
      KeptStep(codes, s);
      ExpandsBackExactly(codes, s[2..]);
      SafeTail(s, 2);
      assert ['\\', s[1]] + s[2..] == s;
    } else {
      EscapeIsLost(codes, s);
      assert !Mends(s, 0);
    }
  }

  /** The lines read from just after the opening quote, when the quotes close at the
      very end. */
  function LinesRead(codes: string -> Code, quoted: string): Option<seq<string>> {
    match EndQuote(quoted)
    case None => None
    case Some(k) => if 0 <= k == |quoted| - 1 then Some(Split(Expand(codes, quoted[..k]), '\n')) else None
  }

  /** A line that reads back: without a newline, every backslash followed in the line by
      a character with which it is kept.  After a \c that ends a line comes the written
      newline, so that one is an escape too. */
  predicate Readable(line: string) {
    '\n' !in line
    && forall i | 0 <= i < |line| :: MendsLine(line, i)
  }

  predicate MendsLine(line: string, i: nat)
    requires i < |line|
  {
    line[i] == '\\' ==> i + 1 < |line| && line[i + 1] != 'c' && Kept(line[i + 1..])
  }

  predicate AllReadable(lines: seq<string>) { forall i | 0 <= i < |lines| :: Readable(lines[i]) }

  /** Whether a backslash is kept can be told within its line. */
  lemma KeptInLine(t: string, rest: string)
    requires t != "" && t[0] != '\n'
    ensures Kept(t + "\n" + rest) <==> Kept(t) && t[0] != 'c'
  {
    var s := t + "\n" + rest;
    assert s[0] == t[0] && s[1] == if |t| > 1 then t[1] else '\n';
  }

  lemma SafeLine(a: string, rest: string)
    requires '\n' !in a
    ensures Safe(a + "\n" + rest) <==> Readable(a) && Safe(rest)
  {
    var s, n := a + "\n" + rest, |a| + 1;
    assert s[n..] == rest && s[|a|] == '\n';
    forall i | 0 <= i < |s| ensures Mends(s, i) <==> if i < |a| then MendsLine(a, i) else i == |a| || Mends(rest, i - n) {
      if i + 1 < |a| {
        assert s[i + 1..] == a[i + 1..] + "\n" + rest;
        KeptInLine(a[i + 1..], rest);
      } else if i > |a| {
        assert s[i + 1..] == rest[i - n + 1..];
      }
    }
    if Safe(s) {
      forall i | 0 <= i < |a| ensures MendsLine(a, i) {
        assert Mends(s, i);
      }
      forall i | 0 <= i < |rest| ensures Mends(rest, i) {
        assert Mends(s, i + n);
      }
    }
    if Readable(a) && Safe(rest) {
      forall i | 0 <= i < |s| ensures Mends(s, i) {
        assert i < |a| ==> MendsLine(a, i);
        assert i > |a| ==> Mends(rest, i - n);
      }
    }
  }

  /** No lines but the last may end the text: it has no backslash. */
  lemma {:induction false} SafeJoin(lines: seq<string>, last: string)
    requires '\\' !in last && forall i | 0 <= i < |lines| :: '\n' !in lines[i]
    ensures Safe(Join(lines + [last], "\n")) <==> AllReadable(lines)
  {
    var all := lines + [last];
    if lines != [] {
      assert all[1..] == lines[1..] + [last] && all[0] == lines[0];
      SafeJoin(lines[1..], last);
      SafeLine(lines[0], Join(all[1..], "\n"));
      assert AllReadable(lines) <==> Readable(lines[0]) && AllReadable(lines[1..]) by {
        assert forall i | 1 <= i < |lines| :: lines[i] == lines[1..][i - 1];
        assert forall i | 0 <= i < |lines[1..]| :: lines[1..][i] == lines[i + 1];
      }
    }
  }

  /** Lines that were split off have no newline, and splitting undoes joining. */
  lemma SplitIsJoin(text: string, lines: seq<string>)
    requires lines != [] && forall i | 0 <= i < |lines| :: '\n' !in lines[i]
    ensures Split(text, '\n') == lines <==> text == Join(lines, "\n")
  {
    JoinSplit(text, '\n');
    SplitJoin(lines, '\n');
  }

  /** Lines escaped, joined and quoted read back as they were exactly when each is
      readable; the line at the end is one without backslash or newline. */
  lemma QuotedLinesReadBackExactly(codes: string -> Code, lines: seq<string>, last: string)
    requires '\\' !in last && '\n' !in last
    ensures LinesRead(codes, Join(EscapeAll(lines + [last]), "\\n") + "'") == Some(lines + [last]) <==> AllReadable(lines)
  {
    var all := lines + [last];
    var quoted := Join(EscapeAll(all), "\\n") + "'";
    if forall i | 0 <= i < |lines| :: '\n' !in lines[i] {
      var text := Join(all, "\n");
      assert forall i | 0 <= i < |all| :: '\n' !in all[i];
      JoinEscaped(all);
      assert quoted == Enc(text) + "'" && quoted[..|Enc(text)|] == Enc(text);
      ExpandsBackExactly(codes, text);
      SplitIsJoin(Expand(codes, Enc(text)), all);
      SafeJoin(lines, last);
    } else {
      var i :| 0 <= i < |lines| && '\n' in lines[i];
      assert !Readable(lines[i]) && '\n' in all[i];
      NewlineIsLost(codes, quoted, all, i);
    }
  }

  lemma NewlineIsLost(codes: string -> Code, quoted: string, lines: seq<string>, i: nat)
    requires i < |lines| && '\n' in lines[i]
    ensures LinesRead(codes, quoted) != Some(lines)
  {
    if LinesRead(codes, quoted).Some? {
      JoinSplit(Expand(codes, quoted[..|quoted| - 1]), '\n');
    }
  }

  // ------------------------------------------------------------ the script

  /** No character of the text means anything between the quotes. */
  predicate Literal(s: string) { forall c | c in s :: c != '\'' && c != '\\' && c != '\n' }

  lemma LiteralConcat(a: string, b: string)
    requires Literal(a) && Literal(b)
    ensures Literal(a + b)
  {
  }

  lemma SourceIsLiteral()
    ensures Literal(SOURCE)
  {
    assert Literal("source ") && Literal("/opt/vyatta") && Literal("/etc/functions") && Literal("/script-template");
    LiteralConcat("source ", "/opt/vyatta");
    LiteralConcat("source " + "/opt/vyatta", "/etc/functions");
    LiteralConcat("source " + "/opt/vyatta" + "/etc/functions", "/script-template");
  }

  lemma FixedLinesAreLiteral()
    ensures AllReadable(HEADER) && Readable("commit")
    ensures EscapeAll(HEADER) == HEADER && EscapeAll(TRAILER) == TRAILER
  {
    SourceIsLiteral();
    ShortLinesAreLiteral();
    LiteralPair(SOURCE, "configure");
    LiteralPair("commit", "exit");
    LiteralIsReadable("commit");
  }

  /** What the script puts before and after the lines, and the operations the API knows. */
  lemma FixedTexts(line: string)
    ensures HEADER == ["source /opt/vyatta/etc/functions/script-template", "configure"] && TRAILER == ["commit", "exit"]
    ensures Problem(line).None? <==> |Fields(line)| >= 2 && Fields(line)[0] in {"set", "delete", "comment"}
    ensures |Fields(line)| < 2 ==> Problem(line) == Some(TooShort(line))
    ensures |Fields(line)| >= 2 && Problem(line).Some? ==> Problem(line) == Some(Unsupported(Fields(line)[0], line))
  {
    SourceText();
  }

  lemma SourceText()
    ensures SOURCE == "source /opt/vyatta/etc/functions/script-template"
  {
    assert "source " + "/opt/vyatta" == "source /opt/vyatta";
    assert "/etc/functions" + "/script-template" == "/etc/functions/script-template";
    assert "source /opt/vyatta" + "/etc/functions/script-template" == "source /opt/vyatta/etc/functions/script-template";
  }

  lemma ShortLinesAreLiteral()
    ensures Literal("configure") && Literal("commit") && Literal("exit")
  {
  }

  lemma LiteralPair(a: string, b: string)
    requires Literal(a) && Literal(b)
    ensures AllReadable([a, b]) && EscapeAll([a, b]) == [a, b]
  {
    EscapePlain(a);
    EscapePlain(b);
    LiteralIsReadable(a);
    LiteralIsReadable(b);
  }

  lemma LiteralIsReadable(a: string)
    requires Literal(a)
    ensures Readable(a)
  {
    assert forall i | 0 <= i < |a| :: a[i] in a;
  }

  lemma {:induction false} EscapePlain(a: string)
    requires '\'' !in a
    ensures Escape(a) == a
  {
    if a != "" {
      EscapePlain(a[1..]);
      assert [a[0]] + a[1..] == a;
    }
  }

  lemma EscapeAllConcat(xs: seq<string>, ys: seq<string>)
    ensures EscapeAll(xs + ys) == EscapeAll(xs) + EscapeAll(ys)
  {
    var both := EscapeAll(xs) + EscapeAll(ys);
    assert forall i | 0 <= i < |xs + ys| :: both[i] == Escape((xs + ys)[i]);
    assert |EscapeAll(xs + ys)| == |both|;
  }

  lemma ReadableConcat(xs: seq<string>, ys: seq<string>)
    ensures AllReadable(xs + ys) <==> AllReadable(xs) && AllReadable(ys)
  {
    var all := xs + ys;
    assert forall i | 0 <= i < |xs| :: all[i] == xs[i];
    assert forall i | 0 <= i < |ys| :: all[|xs| + i] == ys[i];
  }

  /** The script gives vbash exactly the configure lines, between its own first and
      last two, if and only if every line is readable. */
  lemma ScriptReadsBackExactly(codes: string -> Code, args: seq<string>)
    ensures LinesRead(codes, Body(args) + "'") == Some(HEADER + args + TRAILER) <==> AllReadable(args)
  {
    var lines := HEADER + args + ["commit"];
    FixedLinesAreLiteral();
    ShortLinesAreLiteral();
    var all := HEADER + args + TRAILER;
    assert all == lines + ["exit"];
    EscapeAllConcat(HEADER + args, TRAILER);
    EscapeAllConcat(HEADER, args);
    assert Body(args) == Join(EscapeAll(all), "\\n");
    ReadableConcat(HEADER + args, ["commit"]);
    ReadableConcat(HEADER, args);
    QuotedLinesReadBackExactly(codes, lines, "exit");
  }

  /** Of two lines with a backslash, one reads back and one does not. */
  lemma BackslashesEitherWay()
    ensures Readable("x\\.y") && !Readable("x\\ny")
  {
    var kept, lost := "x\\.y", "x\\ny";
    assert kept[2..] == ".y" && lost[2..] == "ny";
    assert !MendsLine(lost, 1);
  }

  // ------------------------------------------------------------ the API

  datatype Op = Op(op: string, path: seq<string>)

  const OPS: set<string> := {"set", "delete", "comment"}

  datatype OpsError = TooShort(line: string) | Unsupported(op: string, line: string) | EmptyBatch

  /** Why a line cannot be an operation, if it cannot. */
  function Problem(line: string): Option<OpsError> {
    var fields := Fields(line);
    if |fields| < 2 then Some(TooShort(line))
    else if fields[0] !in OPS then Some(Unsupported(fields[0], line))
    else None
  }

  datatype OpsResult = Ops(ops: seq<Op>) | Refused(error: OpsError)

  function OpsFrom(lines: seq<string>): OpsResult {
    if lines == [] then Ops([])
    else
      var last := lines[|lines| - 1];
      var before := OpsFrom(lines[..|lines| - 1]);
      if before.Refused? then before
      else if Problem(last).Some? then Refused(Problem(last).value)
      else Ops(before.ops + [OpOf(last)])
  }

  function OpOf(line: string): Op
    requires Problem(line).None?
    ensures [OpOf(line).op] + OpOf(line).path == Fields(line)
  {
    Op(Fields(line)[0], Fields(line)[1..])
  }

  /** The request for a batch of lines. */
  function OpsOf(lines: seq<string>): OpsResult { if lines == [] then Refused(EmptyBatch) else OpsFrom(lines) }

  lemma {:induction false} AcceptedExactly(lines: seq<string>)
    ensures OpsFrom(lines).Ops? <==> forall i | 0 <= i < |lines| :: Problem(lines[i]).None?
  {
    if lines != [] {
      var n := |lines| - 1;
      AcceptedExactly(lines[..n]);
      assert forall i | 0 <= i < n :: lines[..n][i] == lines[i];
    }
  }

  lemma {:induction false} AcceptedWords(lines: seq<string>)
    requires OpsFrom(lines).Ops?
    ensures var ops := OpsFrom(lines).ops;
      |ops| == |lines| && forall i | 0 <= i < |lines| :: [ops[i].op] + ops[i].path == Fields(lines[i])
  {
    if lines != [] {
      AcceptedWords(lines[..|lines| - 1]);
    }
  }

  lemma {:induction false} FirstProblem(lines: seq<string>)
    requires OpsFrom(lines).Refused?
    ensures exists k | 0 <= k < |lines| ::
      Problem(lines[k]) == Some(OpsFrom(lines).error) && forall j | 0 <= j < k :: Problem(lines[j]).None?
  {
    var n := |lines| - 1;
    var most := lines[..n];
    assert forall i | 0 <= i < n :: most[i] == lines[i];
    if OpsFrom(most).Refused? {
      FirstProblem(most);
      var k :| 0 <= k < n && Problem(most[k]) == Some(OpsFrom(most).error) && forall j | 0 <= j < k :: Problem(most[j]).None?;
      assert Problem(lines[k]) == Some(OpsFrom(most).error);
    } else {
      AcceptedExactly(most);
      assert Problem(lines[n]) == Some(OpsFrom(lines).error);
    }
  }

  /** A batch is a request exactly when it is not empty and every line is an operation;
      the operations are the words of the lines, and a refusal is about the first line
      that is none. */
  lemma OpsAreTheWords(lines: seq<string>)
    ensures var r := OpsFrom(lines);
      && (r.Ops? <==> forall i | 0 <= i < |lines| :: Problem(lines[i]).None?)
      && (r.Ops? ==> |r.ops| == |lines| && forall i | 0 <= i < |lines| :: [r.ops[i].op] + r.ops[i].path == Fields(lines[i]))
      && (r.Refused? ==> exists k | 0 <= k < |lines| ::
            Problem(lines[k]) == Some(r.error) && forall j | 0 <= j < k :: Problem(lines[j]).None?)
  {
    AcceptedExactly(lines);
    if OpsFrom(lines).Ops? {
      AcceptedWords(lines);
    } else {
      FirstProblem(lines);
    }
  }

  /** The rest of a batch makes no difference after a line that is not an operation. */
  lemma {:induction false} RefusalStays(lines: seq<string>, i: nat)
    requires i <= |lines| && OpsFrom(lines[..i]).Refused?
    ensures OpsFrom(lines) == OpsFrom(lines[..i])
  {
    if i == |lines| {
      assert lines[..i] == lines;
    } else {
      assert lines[..|lines| - 1][..i] == lines[..i];
      RefusalStays(lines[..|lines| - 1], i);
    }
  }

  /** VyOSConfigureOpsJSON up to the marshalling: it stops at the first line that is
      not an operation, and an empty batch is refused. */
  method VyOSConfigureOps(lines: seq<string>) returns (r: OpsResult)
    ensures r == OpsOf(lines)
    ensures r.Ops? <==> lines != [] && forall i | 0 <= i < |lines| :: Problem(lines[i]).None?
    ensures r.Ops? ==> |r.ops| == |lines|
    ensures r.Ops? ==> forall i | 0 <= i < |lines| :: [r.ops[i].op] + r.ops[i].path == Fields(lines[i])
    ensures r.Refused? ==>
      if lines == [] then r.error == EmptyBatch
      else exists k | 0 <= k < |lines| :: Problem(lines[k]) == Some(r.error) && forall j | 0 <= j < k :: Problem(lines[j]).None?
  {
    var ops: seq<Op> := [];
    for i := 0 to |lines|
      invariant OpsFrom(lines[..i]) == Ops(ops) && |ops| == i
    {
      assert lines[..i + 1][..i] == lines[..i];
      var fields := Fields(lines[i]);
      if |fields| < 2 {
        RefusalStays(lines, i + 1);
        OpsAreTheWords(lines);
        return Refused(TooShort(lines[i]));
      }
      if fields[0] !in OPS {
        RefusalStays(lines, i + 1);
        OpsAreTheWords(lines);
        return Refused(Unsupported(fields[0], lines[i]));
      }
      ops := ops + [Op(fields[0], fields[1..])];
    }
    assert lines[..|lines|] == lines;
    OpsAreTheWords(lines);
    if |ops| == 0 {
      return Refused(EmptyBatch);
    }
    r := Ops(ops);
  }

  /** The back ends agree: what vbash executes between the first and last two lines of
      its own is the same request, or the same refusal, as the API is sent. */
  lemma BackEndsAgree(codes: string -> Code, args: seq<string>)
    requires AllReadable(args)
    ensures LinesRead(codes, Body(args) + "'").Some?
    ensures var read := LinesRead(codes, Body(args) + "'").value;
      && |read| >= 4 && read[..2] == HEADER && read[|read| - 2..] == TRAILER
      && OpsOf(read[2..|read| - 2]) == OpsOf(args)
  {
    ScriptReadsBackExactly(codes, args);
    var read := HEADER + args + TRAILER;
    assert read[..2] == HEADER && read[|read| - 2..] == TRAILER && read[2..|read| - 2] == args;
  }
}
