/** Datapath ids (capabilities/openflow.go): the text a bridge stores. */
module DatapathId {
  import opened Options
  import opened GoStrings
  import opened GoNumbers

  predicate AnyCaseHex(c: char) { IsHexDigit(c) || 'A' <= c <= 'F' }

  predicate AllHex(s: string) { forall c | c in s :: AnyCaseHex(c) }

  /** The language of datapathIDRe: an optional 0x and one to sixteen hex digits. */
  predicate Accepted(id: string) {
    (1 <= |id| <= 16 && AllHex(id)) || (3 <= |id| <= 18 && id[..2] == "0x" && AllHex(id[2..]))
  }

  function LowerChar(c: char): char { if 'A' <= c <= 'Z' then c - 'A' + 'a' else c }

  /** strings.ToLower on the ASCII texts the expression accepts. */
  function ToLower(s: string): (t: string)
    ensures |t| == |s| && forall i | 0 <= i < |s| :: t[i] == LowerChar(s[i])
  {
    seq(|s|, i requires 0 <= i < |s| => LowerChar(s[i]))
  }

  function Zeros(n: nat): (z: string)
    ensures |z| == n && forall c | c in z :: c == '0'
  {
    seq(n, _ => '0')
  }

  /** DatapathID; None is the panic of strings.Repeat on a negative count. */
  function DatapathID(id: string): Option<string> {
    var digits := ToLower(TrimPrefix(ToLower(id), "0x"));
    if |digits| > 16 then None else Some(Zeros(16 - |digits|) + digits)
  }

  /** Among accepted ids, those written with the prefix. */
  predicate Prefixed(id: string) { |id| >= 2 && id[1] == 'x' }

  lemma PrefixedExactly(id: string)
    requires Accepted(id)
    ensures Prefixed(id) <==> "0x" <= id
    ensures Prefixed(id) <==> "0x" <= ToLower(id)
    ensures Prefixed(id) ==> 1 <= |id| - 2 <= 16 && AllHex(id[2..])
    ensures !Prefixed(id) ==> 1 <= |id| <= 16 && AllHex(id)
  {
    if Prefixed(id) {
      assert id[1] in id && !AnyCaseHex(id[1]);
      assert id[..2] == "0x" && ToLower(id)[..2] == "0x";
    } else if |id| >= 2 {
      assert id[..2][1] == id[1] && ToLower(id)[..2][1] == ToLower(id)[1];
      assert id[1] in id && AnyCaseHex(id[1]);
    }
  }

  lemma LowerHex(s: string)
    requires AllHex(s)
    ensures forall c | c in ToLower(s) :: IsHexDigit(c)
  {
    forall i | 0 <= i < |s| ensures IsHexDigit(ToLower(s)[i]) {
      assert s[i] in s;
    }
  }

  /** The digits of an accepted id, without prefix and in lower case. */
  function Digits(id: string): (d: string)
    requires Accepted(id)
    ensures 1 <= |d| <= 16 && forall c | c in d :: IsHexDigit(c)
  {
    PrefixedExactly(id);
    var body := if Prefixed(id) then id[2..] else id;
    LowerHex(body);
    ToLower(body)
  }

  /** The number a text of hexadecimal digits of either case denotes. */
  function HexNumber(s: string): nat {
    if s == "" then 0 else HexNumber(s[..|s| - 1]) * 16 + AnyDigit(s[|s| - 1])
  }

  /** The number an accepted id denotes. */
  function Number(id: string): nat {
    HexNumber(if "0x" <= id then id[2..] else id)
  }

  /** Lower case denotes the same number. */
  lemma {:induction false} LowerKeepsNumber(s: string)
    requires AllHex(s) && forall c | c in ToLower(s) :: IsHexDigit(c)
    ensures HexValue(ToLower(s)) == HexNumber(s)
  {
    if s != "" {
      var last := |s| - 1;
      assert ToLower(s)[..last] == ToLower(s[..last]);
      assert s[last] in s;
      LowerHex(s[..last]);
      LowerKeepsNumber(s[..last]);
    }
  }

  lemma DigitsKeepNumber(id: string)
    requires Accepted(id)
    ensures HexValue(Digits(id)) == Number(id)
  {
    PrefixedExactly(id);
    var body := if Prefixed(id) then id[2..] else id;
    LowerHex(body);
    LowerKeepsNumber(body);
  }

  lemma {:induction false} LeadingZeros(n: nat, s: string)
    requires forall c | c in s :: IsHexDigit(c)
    ensures HexValue(Zeros(n) + s) == HexValue(s)
    decreases n + |s|
  {
    if s == "" {
      assert Zeros(n) + s == Zeros(n);
      ZerosValue(n);
    } else {
      var last := |s| - 1;
      LeadingZeros(n, s[..last]);
      assert (Zeros(n) + s)[..n + last] == Zeros(n) + s[..last];
    }
  }

  lemma {:induction false} ZerosValue(n: nat)
    ensures HexValue(Zeros(n)) == 0
  {
    if n > 0 {
      ZerosValue(n - 1);
      assert Zeros(n)[..n - 1] == Zeros(n - 1);
    }
  }

  lemma {:induction false} FixedWidthInjective(s: string, t: string)
    requires |s| == |t| && (forall c | c in s :: IsHexDigit(c)) && forall c | c in t :: IsHexDigit(c)
    requires HexValue(s) == HexValue(t)
    ensures s == t
  {
    if s != "" {
      var last := |s| - 1;
      FixedWidthInjective(s[..last], t[..last]);
      DigitDetermines(s[last], t[last]);
      assert s == s[..last] + [s[last]] && t == t[..last] + [t[last]];
    }
  }

  lemma DigitDetermines(c: char, d: char)
    requires IsHexDigit(c) && IsHexDigit(d) && DigitValue(c) == DigitValue(d)
    ensures c == d
  {
  }

  lemma DigitsAreWhatIsKept(id: string)
    requires Accepted(id)
    ensures ToLower(TrimPrefix(ToLower(id), "0x")) == Digits(id)
  {
    PrefixedExactly(id);
    if Prefixed(id) {
      assert ToLower(ToLower(id)[2..]) == ToLower(id[2..]);
    } else {
      assert ToLower(ToLower(id)) == ToLower(id);
    }
  }

  /** Sixteen lower-case digits are what normalising leaves alone. */
  lemma CanonicalKept(d: string)
    requires |d| == 16 && forall c | c in d :: IsHexDigit(c)
    ensures Accepted(d) && Digits(d) == d && DatapathID(d) == Some(d)
    ensures HexValue(d) == Number(d)
  {
    assert AllHex(d);
    assert d[1] in d;
    assert ToLower(d) == d by {
      forall i | 0 <= i < 16 ensures LowerChar(d[i]) == d[i] {
        assert d[i] in d;
      }
    }
    DigitsAreWhatIsKept(d);
    DigitsKeepNumber(d);
    assert Zeros(0) + d == d;
  }

  /** On an accepted id: never the panic, always sixteen lower-case digits, again an
      accepted id, the same number, and nothing left to normalise. */
  lemma Normalises(id: string)
    requires Accepted(id)
    ensures DatapathID(id).Some?
    ensures var d := DatapathID(id).value;
      && |d| == 16 && (forall c | c in d :: IsHexDigit(c))
      && Accepted(d) && Number(d) == Number(id)
      && DatapathID(d) == Some(d)
  {
    PaddedDigits(id);
    CanonicalKept(DatapathID(id).value);
  }

  lemma PaddedDigits(id: string)
    requires Accepted(id)
    ensures var d := DatapathID(id);
      d.Some? && |d.value| == 16 && (forall c | c in d.value :: IsHexDigit(c)) && HexValue(d.value) == Number(id)
  {
    DigitsAreWhatIsKept(id);
    DigitsKeepNumber(id);
    PadTo16(Digits(id));
  }

  lemma PadTo16(d: string)
    requires |d| <= 16 && forall c | c in d :: IsHexDigit(c)
    ensures var p := Zeros(16 - |d|) + d;
      |p| == 16 && (forall c | c in p :: IsHexDigit(c)) && HexValue(p) == HexValue(d)
  {
    LeadingZeros(16 - |d|, d);
  }

  /** Two accepted ids get the same text exactly when they denote the same number. */
  lemma SameTextExactlySameNumber(id: string, other: string)
    requires Accepted(id) && Accepted(other)
    ensures DatapathID(id) == DatapathID(other) <==> Number(id) == Number(other)
  {
    Normalises(id);
    Normalises(other);
    if Number(id) == Number(other) {
      CanonicalKept(DatapathID(id).value);
      CanonicalKept(DatapathID(other).value);
      FixedWidthInjective(DatapathID(id).value, DatapathID(other).value);
    }
  }
}
