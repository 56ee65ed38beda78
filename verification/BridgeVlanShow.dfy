/** The reader of `bridge vlan show` (capabilities/vlan_base.go:63-106) on the
    listings that command prints. */
module BridgeVlanShow {
  import opened GoStrings
  import opened BridgeVlan

  // ------------------------------------------------------------ the reader

  /** A port while its lines are read; native is empty until one was found. */
  datatype Seen = Seen(name: string, tagged: seq<string>, native: string)

  datatype Row = Row(port: string, mode: string, vlans: string, native: string)

  predicate HasPrefix(s: string, p: string) { |p| <= |s| && s[..|p|] == p }

  predicate At(s: string, i: nat, sub: string) { i + |sub| <= |s| && s[i..i + |sub|] == sub }

  predicate Contains(s: string, sub: string) { exists i | 0 <= i <= |s| :: At(s, i, sub) }

  const HEADER := "port"

  predicate Skipped(line: string) { Blank(line) || HasPrefix(line, HEADER) }

  predicate Opens(line: string) { !HasPrefix(line, " ") && !HasPrefix(line, "\t") }

  predicate IsNative(flags: seq<string>) {
    Contains(Join(flags, " "), "PVID") && Contains(Join(flags, " "), "Untagged")
  }

  /** One VLAN with its flags. */
  function Entered(s: Seen, tokens: seq<string>): Seen {
    if tokens == [] then s
    else if IsNative(tokens[1..]) then s.(native := tokens[0])
    else s.(tagged := s.tagged + [tokens[0]])
  }

  /** The effect of one line on the ports seen so far. */
  function Feed(ports: seq<Seen>, line: string): seq<Seen> {
    if Skipped(line) then ports
    else
      var tokens := Fields(line);
      if Opens(line) then
        if tokens == [] then ports else ports + [Entered(Seen(tokens[0], [], ""), tokens[1..])]
      else if ports == [] then ports
      else ports[..|ports| - 1] + [Entered(ports[|ports| - 1], tokens)]
  }

  function FeedAll(ports: seq<Seen>, lines: seq<string>): seq<Seen>
    decreases |lines|
  {
    if lines == [] then ports else Feed(FeedAll(ports, lines[..|lines| - 1]), lines[|lines| - 1])
  }

  function RowOf(s: Seen): Row {
    if s.tagged != [] then Row(s.name, "trunk", Join(s.tagged, ","), s.native)
    else if s.native == "" then Row(s.name, "none", "", "")
    else Row(s.name, "access", s.native, s.native)
  }

  function Rows(ports: seq<Seen>): (rows: seq<Row>)
    ensures |rows| == |ports| && forall i | 0 <= i < |rows| :: rows[i] == RowOf(ports[i])
  {
    if ports == [] then [] else Rows(ports[..|ports| - 1]) + [RowOf(ports[|ports| - 1])]
  }

  /** The record the loop fills in place. */
  class PortVlans {
    var name: string
    var tagged: seq<string>
    var native: string

    constructor (name: string)
      ensures this.name == name && tagged == [] && native == ""
    {
      this.name, tagged, native := name, [], "";
    }

    function Value(): Seen reads this { Seen(name, tagged, native) }

    method Enter(tokens: seq<string>)
      modifies this
      ensures Value() == Entered(old(Value()), tokens)
    {
      if tokens == [] {
        return;
      }
      if IsNative(tokens[1..]) {
        native := tokens[0];
      } else {
        tagged := tagged + [tokens[0]];
      }
    }
  }

  ghost function Values(ports: seq<PortVlans>): (vs: seq<Seen>)
    reads ports
    ensures |vs| == |ports| && forall i | 0 <= i < |vs| :: vs[i] == ports[i].Value()
  {
    seq(|ports|, i requires 0 <= i < |ports| reads ports => ports[i].Value())
  }

  lemma NotBlankHasFields(line: string)
    requires !Blank(line)
    ensures Fields(line) != []
  {
    if IsSpace(line[0]) {
      assert [line[0]] + line[1..] == line;
      NotBlankHasFields(line[1..]);
    }
  }

  lemma FeedAllOne(ports: seq<Seen>, line: string)
    ensures FeedAll(ports, [line]) == Feed(ports, line)
  {
    assert [line][..0] == [];
  }

  lemma {:induction false} FeedAllConcat(ports: seq<Seen>, xs: seq<string>, ys: seq<string>)
    ensures FeedAll(ports, xs + ys) == FeedAll(FeedAll(ports, xs), ys)
  {
    if ys == [] {
      assert xs + ys == xs;
    } else {
      var k := |ys| - 1;
      assert (xs + ys)[..|xs + ys| - 1] == xs + ys[..k];
      FeedAllConcat(ports, xs, ys[..k]);
    }
  }

  /** The ports are different objects, and `cur` is the last of them. */
  ghost predicate Current(ports: seq<PortVlans>, cur: PortVlans?) {
    && (ports == [] <==> cur == null)
    && (ports != [] ==> cur == ports[|ports| - 1])
    && forall i, j | 0 <= i < j < |ports| :: ports[i] != ports[j]
  }

  /** One line: opens a port or works on the last one, which `cur` aliases. */
  method ReadLine(line: string, ports: seq<PortVlans>, cur: PortVlans?)
      returns (ports': seq<PortVlans>, cur': PortVlans?)
    requires Current(ports, cur)
    modifies cur
    ensures Current(ports', cur')
    ensures cur' == null || cur' == cur || fresh(cur')
    ensures Values(ports') == Feed(old(Values(ports)), line)
  {
    ports', cur' := ports, cur;
    if Skipped(line) {
      return;
    }
    var tokens := Fields(line);
    NotBlankHasFields(line);
    if Opens(line) {
      cur' := new PortVlans(tokens[0]);
      ports' := ports + [cur'];
      tokens := tokens[1..];
    }
    if cur' == null {
      return;
    }
    cur'.Enter(tokens);
    assert forall i | 0 <= i < |ports'| - 1 :: ports'[i].Value() == old(ports[i].Value());
  }

  /** The walk over the lines. */
  method ReadPorts(lines: seq<string>) returns (ports: seq<PortVlans>)
    ensures Values(ports) == FeedAll([], lines)
  {
    var cur: PortVlans? := null;
    ports := [];
    for n := 0 to |lines|
      invariant Current(ports, cur)
      invariant cur != null ==> fresh(cur)
      invariant Values(ports) == FeedAll([], lines[..n])
    {
      assert lines[..n + 1][..n] == lines[..n];
      ports, cur := ReadLine(lines[n], ports, cur);
    }
    assert lines[..|lines|] == lines;
  }

  method ParseBridgeVLAN(text: string) returns (rows: seq<Row>)
    ensures rows == Rows(FeedAll([], Split(text, '\n')))
  {
    var ports := ReadPorts(Split(text, '\n'));
    rows := RowsOf(ports);
  }

  method RowsOf(ports: seq<PortVlans>) returns (rows: seq<Row>)
    ensures rows == Rows(Values(ports))
  {
    rows := [];
    for n := 0 to |ports|
      invariant |rows| == n && forall i | 0 <= i < n :: rows[i] == RowOf(ports[i].Value())
    {
      var p := ports[n];
      var mode, vlans := "trunk", Join(p.tagged, ",");
      if |p.tagged| == 0 && p.native == "" {
        mode := "none";
      } else if |p.tagged| == 0 {
        mode, vlans := "access", p.native;
      }
      rows := rows + [Row(p.name, mode, vlans, p.native)];
    }
  }

  // ------------------------------------------------------------ what is printed

  /** One VLAN of a port as it is listed. */
  datatype Entry = Entry(vid: nat, pvid: bool, untagged: bool)

  function EntryWords(e: Entry): seq<string> {
    [Itoa(e.vid)] + (if e.pvid then ["PVID"] else []) + if e.untagged then ["Egress", "Untagged"] else []
  }

  datatype Listed = Listed(name: string, entries: seq<Entry>)

  /** A line that starts with a space or a tab. */
  predicate Indents(line: string) { line != "" && (line[0] == ' ' || line[0] == '\t') }

  lemma IndentsExactly(line: string)
    ensures Indents(line) <==> !Opens(line)
  {
  }

  /** The lines of a port: its name at the start of a line with its first VLAN, if it
      has one, and each other VLAN on an indented line of its own, with any spacing. */
  predicate Shows(lines: seq<string>, p: Listed) {
    && Word(p.name)
    && |lines| == (if p.entries == [] then 1 else |p.entries|)
    && WordLength(lines[0]) == |p.name|
    && Fields(lines[0]) == [p.name] + (if p.entries == [] then [] else EntryWords(p.entries[0]))
    && forall i | 1 <= i < |lines| :: Indents(lines[i]) && Fields(lines[i]) == EntryWords(p.entries[i])
  }

  /** The lines of several ports, one after the other. */
  ghost predicate ShowsAll(lines: seq<string>, ps: seq<Listed>)
    decreases |ps|
  {
    if ps == [] then lines == []
    else
      exists k | 0 <= k <= |lines| ::
        ShowsAll(lines[..k], ps[..|ps| - 1]) && Shows(lines[k..], ps[|ps| - 1])
  }

  /** A listing: a header, the ports, and a newline at the end. */
  ghost predicate Prints(text: string, ps: seq<Listed>) {
    var lines := Split(text, '\n');
    && |lines| >= 2
    && HasPrefix(lines[0], HEADER)
    && lines[|lines| - 1] == ""
    && ShowsAll(lines[1..|lines| - 1], ps)
  }

  // ------------------------------------------------------------ one port

  predicate NativeEntry(e: Entry) { e.pvid && e.untagged }

  lemma NeedsFirst(s: string, sub: string)
    requires sub != "" && sub[0] !in s
    ensures !Contains(s, sub)
  {
    if i :| 0 <= i <= |s| && At(s, i, sub) {
      AtFirst(s, i, sub);
    }
  }

  lemma AtFirst(s: string, i: nat, sub: string)
    requires sub != "" && At(s, i, sub)
    ensures sub[0] in s
  {
    assert s[i] == s[i..i + |sub|][0];
  }

  lemma IsThere(a: string, sub: string, b: string)
    ensures Contains(a + sub + b, sub)
  {
    assert (a + sub + b)[|a|..|a| + |sub|] == sub;
    assert At(a + sub + b, |a|, sub);
  }

  /** The flags of an entry name the native VLAN exactly when it is PVID and untagged. */
  lemma FlagsOfEntry(e: Entry)
    ensures IsNative(EntryWords(e)[1..]) <==> NativeEntry(e)
  {
    var flags := EntryWords(e)[1..];
    var text := Join(flags, " ");
    assert flags == (if e.pvid then ["PVID"] else []) + if e.untagged then ["Egress", "Untagged"] else [];
    if !e.untagged {
      assert text == if e.pvid then "PVID" else "";
      NeedsFirst(text, "Untagged");
    } else if e.pvid {
      assert flags == ["PVID", "Egress", "Untagged"];
      FlagsOfNative();
    } else {
      assert flags == ["Egress", "Untagged"];
      JoinTwo("Egress", "Untagged", " ");
      NeedsFirst(text, "PVID");
    }
  }

  lemma JoinTwo(a: string, b: string, sep: string)
    ensures Join([a, b], sep) == a + sep + b
  {
    assert [a, b][1..] == [b];
  }

  lemma FlagsOfNative()
    ensures IsNative(["PVID", "Egress", "Untagged"])
  {
    var text := "PVID" + " " + "Egress" + " " + "Untagged";
    JoinThree("PVID", "Egress", "Untagged", " ");
    IsThere("", "PVID", " " + "Egress" + " " + "Untagged");
    assert "" + "PVID" + (" " + "Egress" + " " + "Untagged") == text;
    IsThere("PVID" + " " + "Egress" + " ", "Untagged", "");
    assert text + "" == text;
  }

  function AddEntry(s: Seen, e: Entry): Seen {
    if NativeEntry(e) then s.(native := Itoa(e.vid)) else s.(tagged := s.tagged + [Itoa(e.vid)])
  }

  function AddEntries(s: Seen, es: seq<Entry>): Seen {
    if es == [] then s else AddEntry(AddEntries(s, es[..|es| - 1]), es[|es| - 1])
  }

  lemma EntryEntered(s: Seen, e: Entry)
    ensures Entered(s, EntryWords(e)) == AddEntry(s, e)
  {
    FlagsOfEntry(e);
  }

  /** A line with only an entry's words adds the entry to the last port. */
  function ToLast(ports: seq<Seen>, es: seq<Entry>): seq<Seen> {
    if ports == [] then [] else ports[..|ports| - 1] + [AddEntries(ports[|ports| - 1], es)]
  }

  lemma AddOne(s: Seen, e: Entry)
    ensures AddEntries(s, [e]) == AddEntry(s, e)
  {
    assert [e][..0] == [];
    assert AddEntries(s, [e][..0]) == s;
  }

  lemma ToLastSnoc(ports: seq<Seen>, es: seq<Entry>, e: Entry)
    ensures ToLast(ToLast(ports, es), [e]) == ToLast(ports, es + [e])
  {
    if ports != [] {
      assert (es + [e])[..|es|] == es;
      AddOne(AddEntries(ports[|ports| - 1], es), e);
    }
  }

  lemma FeedEntry(ports: seq<Seen>, line: string, e: Entry)
    requires Indents(line) && Fields(line) == EntryWords(e)
    ensures Feed(ports, line) == ToLast(ports, [e])
  {
    IndentsExactly(line);
    if Blank(line) {
      FieldsOfBlank(line);
    }
    if ports != [] {
      EntryEntered(ports[|ports| - 1], e);
      AddOne(ports[|ports| - 1], e);
    }
  }

  /** The first line of a port: skipped when its name begins like the header. */
  lemma FeedFirst(ports: seq<Seen>, line: string, p: Listed)
    requires Word(p.name) && WordLength(line) == |p.name|
    requires Fields(line) == [p.name] + (if p.entries == [] then [] else EntryWords(p.entries[0]))
    ensures HasPrefix(p.name, HEADER) ==> Feed(ports, line) == ports
    ensures !HasPrefix(p.name, HEADER) ==>
      Feed(ports, line)
      == ports + [AddEntries(Seen(p.name, [], ""), if p.entries == [] then [] else [p.entries[0]])]
  {
    var k := |p.name|;
    assert !IsSpace(line[0]);
    assert Fields(line)[0] == line[..k];
    assert line[..k] == p.name;
    NameDecidesPrefix(line, k);
    if !HasPrefix(p.name, HEADER) {
      assert !Blank(line) && Opens(line);
      if p.entries != [] {
        var e := p.entries[0];
        assert Fields(line)[1..] == EntryWords(e);
        EntryEntered(Seen(p.name, [], ""), e);
        AddOne(Seen(p.name, [], ""), e);
      }
    }
  }

  lemma NameDecidesPrefix(line: string, k: nat)
    requires WordLength(line) == k
    ensures HasPrefix(line, HEADER) <==> HasPrefix(line[..k], HEADER)
  {
    var n := |HEADER|;
    if n <= k {
      assert line[..k][..n] == line[..n];
    } else if n <= |line| {
      assert IsSpace(line[k]);
      assert !IsSpace(HEADER[k]);
      assert line[..n][k] != HEADER[k];
    }
  }

  lemma {:induction false} FeedRest(ports: seq<Seen>, lines: seq<string>, es: seq<Entry>)
    requires |lines| == |es|
    requires forall i | 0 <= i < |lines| :: Indents(lines[i]) && Fields(lines[i]) == EntryWords(es[i])
    ensures FeedAll(ports, lines) == ToLast(ports, es)
  {
    if lines == [] {
      assert ToLast(ports, es) == ports;
    } else {
      var k := |lines| - 1;
      FeedRest(ports, lines[..k], es[..k]);
      FeedEntry(ToLast(ports, es[..k]), lines[k], es[k]);
      ToLastSnoc(ports, es[..k], es[k]);
      assert es[..k] + [es[k]] == es;
    }
  }

  lemma {:induction false} AddInTurn(s: Seen, xs: seq<Entry>, ys: seq<Entry>)
    ensures AddEntries(s, xs + ys) == AddEntries(AddEntries(s, xs), ys)
  {
    if ys == [] {
      assert xs + ys == xs;
    } else {
      var k := |ys| - 1;
      assert (xs + ys)[..|xs + ys| - 1] == xs + ys[..k];
      AddInTurn(s, xs, ys[..k]);
    }
  }

  /** Where the VLANs of a port end up. */
  function Attributed(ports: seq<Seen>, p: Listed): seq<Seen> {
    if HasPrefix(p.name, HEADER) then ToLast(ports, if p.entries == [] then [] else p.entries[1..])
    else ports + [AddEntries(Seen(p.name, [], ""), p.entries)]
  }

  function AttributedAll(ps: seq<Listed>): seq<Seen> {
    if ps == [] then [] else Attributed(AttributedAll(ps[..|ps| - 1]), ps[|ps| - 1])
  }

  lemma FeedPort(ports: seq<Seen>, lines: seq<string>, p: Listed)
    requires Shows(lines, p)
    ensures FeedAll(ports, lines) == Attributed(ports, p)
  {
    var es := if p.entries == [] then [] else p.entries[1..];
    FeedCut(ports, lines, 1);
    assert lines[..1] == [lines[0]];
    FeedAllOne(ports, lines[0]);
    FeedFirst(ports, lines[0], p);
    FeedRest(Feed(ports, lines[0]), lines[1..], es);
    if !HasPrefix(p.name, HEADER) && p.entries != [] {
      FirstThenRest(Seen(p.name, [], ""), p.entries);
    }
  }

  lemma FirstThenRest(s: Seen, es: seq<Entry>)
    requires es != []
    ensures AddEntries(AddEntries(s, [es[0]]), es[1..]) == AddEntries(s, es)
  {
    AddInTurn(s, [es[0]], es[1..]);
    assert [es[0]] + es[1..] == es;
  }

  lemma {:induction false} FeedPorts(lines: seq<string>, ps: seq<Listed>)
    requires ShowsAll(lines, ps)
    ensures FeedAll([], lines) == AttributedAll(ps)
  {
    if ps != [] {
      var n := |ps| - 1;
      var k :| 0 <= k <= |lines| && ShowsAll(lines[..k], ps[..n]) && Shows(lines[k..], ps[n]);
      FeedPorts(lines[..k], ps[..n]);
      FeedPort(AttributedAll(ps[..n]), lines[k..], ps[n]);
      FeedCut([], lines, k);
    }
  }

  lemma FeedCut(ports: seq<Seen>, lines: seq<string>, k: nat)
    requires k <= |lines|
    ensures FeedAll(ports, lines) == FeedAll(FeedAll(ports, lines[..k]), lines[k..])
  {
    FeedAllConcat(ports, lines[..k], lines[k..]);
    assert lines[..k] + lines[k..] == lines;
  }

  // ------------------------------------------------------------ whole listings

  /** What the reader makes of any listing. */
  lemma ListingAttributed(text: string, ps: seq<Listed>)
    requires Prints(text, ps)
    ensures FeedAll([], Split(text, '\n')) == AttributedAll(ps)
  {
    var lines := Split(text, '\n');
    var n := |lines| - 1;
    FeedAllConcat([], lines[..n], [""]);
    assert lines == lines[..n] + [""];
    FeedAllConcat([], [lines[0]], lines[1..n]);
    assert lines[..n] == [lines[0]] + lines[1..n];
    FeedAllOne([], lines[0]);
    FeedPorts(lines[1..n], ps);
    FeedAllOne(AttributedAll(ps), "");
  }

  /** One row for each port, from its own VLANs. */
  function Faithful(ps: seq<Listed>): (r: seq<Seen>)
    ensures |r| == |ps|
    ensures forall i | 0 <= i < |r| :: r[i] == AddEntries(Seen(ps[i].name, [], ""), ps[i].entries)
  {
    if ps == [] then []
    else
      var p := ps[|ps| - 1];
      Faithful(ps[..|ps| - 1]) + [AddEntries(Seen(p.name, [], ""), p.entries)]
  }

  predicate Named(ps: seq<Listed>) { forall i | 0 <= i < |ps| :: !HasPrefix(ps[i].name, HEADER) }

  lemma {:induction false} AttributedFaithful(ps: seq<Listed>)
    requires Named(ps)
    ensures AttributedAll(ps) == Faithful(ps)
  {
    if ps != [] {
      AttributedFaithful(ps[..|ps| - 1]);
      assert !HasPrefix(ps[|ps| - 1].name, HEADER);
    }
  }

  lemma {:induction false} AttributedFewer(ps: seq<Listed>)
    ensures |AttributedAll(ps)| <= |ps|
    ensures !Named(ps) ==> |AttributedAll(ps)| < |ps|
  {
    if ps != [] {
      var n := |ps| - 1;
      var most := ps[..n];
      AttributedFewer(most);
      if Named(most) && !HasPrefix(ps[n].name, HEADER) {
        assert forall i | 0 <= i < n :: ps[i] == most[i];
        assert Named(ps);
      }
    }
  }

  /** A listing reads back, one row for each port with its own VLANs, exactly when no
      port has a name that begins like the header. */
  lemma ListingReadsBackExactly(text: string, ps: seq<Listed>)
    requires Prints(text, ps)
    ensures Rows(FeedAll([], Split(text, '\n'))) == Rows(Faithful(ps)) <==> Named(ps)
  {
    ListingAttributed(text, ps);
    if Named(ps) {
      AttributedFaithful(ps);
    } else {
      AttributedFewer(ps);
    }
  }

  /** What happens otherwise: the VLANs on the indented lines of such a port are counted
      for the port before it, and it has no row of its own. */
  lemma SwallowedPort(text: string, a: Listed, b: Listed)
    requires Prints(text, [a, b])
    requires !HasPrefix(a.name, HEADER) && HasPrefix(b.name, HEADER) && b.entries != []
    ensures FeedAll([], Split(text, '\n'))
         == [AddEntries(Seen(a.name, [], ""), a.entries + b.entries[1..])]
  {
    ListingAttributed(text, [a, b]);
    assert [a, b][..1] == [a] && [a][..0] == [];
    var first := AddEntries(Seen(a.name, [], ""), a.entries);
    assert AttributedAll([a]) == [first] by {
      assert AttributedAll([a][..0]) == [];
    }
    AddInTurn(Seen(a.name, [], ""), a.entries, b.entries[1..]);
  }

  /** For one: VLAN 20 of port1 shows as VLAN 20 of eth0. */
  lemma SwallowedPortForOne(text: string)
    requires Prints(text, [Listed("eth0", [Entry(1, true, true)]),
                           Listed("port1", [Entry(1, true, true), Entry(20, false, false)])])
    ensures Rows(FeedAll([], Split(text, '\n'))) == [Row("eth0", "trunk", "20", "1")]
  {
    var one, twenty := Entry(1, true, true), Entry(20, false, false);
    PrefixesForOne();
    SwallowedPort(text, Listed("eth0", [one]), Listed("port1", [one, twenty]));
    assert [one, twenty][1..] == [twenty];
    var s := Seen("eth0", [], "");
    AddInTurn(s, [one], [twenty]);
    AddOne(s, one);
    AddOne(AddEntry(s, one), twenty);
    NumeralsForOne();
    assert [] + [Itoa(20)] == ["20"];
  }

  lemma PrefixesForOne()
    ensures !HasPrefix("eth0", HEADER) && HasPrefix("port1", HEADER)
  {
    assert "eth0"[0] != HEADER[0];
  }

  lemma NumeralsForOne()
    ensures Itoa(1) == "1" && Itoa(20) == "20"
  {
  }

  // ------------------------------------------------------------ a printer

  function EntryLine(e: Entry): string { Join(EntryWords(e), " ") }

  function LinesOf(p: Listed): (lines: seq<string>)
    ensures |lines| == if p.entries == [] then 1 else |p.entries|
  {
    if p.entries == [] then [p.name] else [p.name + " " + EntryLine(p.entries[0])] + Indented(p.entries[1..])
  }

  function Indented(es: seq<Entry>): (lines: seq<string>)
    ensures |lines| == |es| && forall i | 0 <= i < |es| :: lines[i] == "\t" + EntryLine(es[i])
  {
    if es == [] then [] else ["\t" + EntryLine(es[0])] + Indented(es[1..])
  }

  function AllLines(ps: seq<Listed>): seq<string> {
    if ps == [] then [] else AllLines(ps[..|ps| - 1]) + LinesOf(ps[|ps| - 1])
  }

  function Print(ps: seq<Listed>): string { Join([HEADER] + AllLines(ps) + [""], "\n") }

  predicate Whole(lines: seq<string>) { forall i | 0 <= i < |lines| :: '\n' !in lines[i] }

  lemma EntryWordsAreWords(e: Entry)
    ensures forall i | 0 <= i < |EntryWords(e)| :: Word(EntryWords(e)[i])
    ensures '\n' !in EntryLine(e)
  {
    assert forall c | c in Itoa(e.vid) :: IsDigit(c);
    JoinLacks(EntryWords(e), " ", '\n');
  }

  lemma LinesShow(p: Listed)
    requires Word(p.name)
    ensures Shows(LinesOf(p), p) && Whole(LinesOf(p))
  {
    var lines := LinesOf(p);
    FieldsOfWord(p.name);
    if p.entries == [] {
      WordLengthIs(p.name, |p.name|);
    } else {
      var e := p.entries[0];
      EntryWordsAreWords(e);
      FieldsJoin(EntryWords(e));
      FieldsSpaced(p.name, EntryLine(e));
      WordLengthIs(lines[0], |p.name|);
      forall i | 1 <= i < |lines| ensures Indents(lines[i]) && Fields(lines[i]) == EntryWords(p.entries[i]) && '\n' !in lines[i] {
        EntryWordsAreWords(p.entries[i]);
        FieldsJoin(EntryWords(p.entries[i]));
        FieldsSpace('\t', EntryLine(p.entries[i]));
        assert lines[i] == ['\t'] + EntryLine(p.entries[i]);
      }
    }
  }

  lemma {:induction false} AllLinesShow(ps: seq<Listed>)
    requires forall i | 0 <= i < |ps| :: Word(ps[i].name)
    ensures ShowsAll(AllLines(ps), ps) && Whole(AllLines(ps))
  {
    if ps != [] {
      var n := |ps| - 1;
      AllLinesShow(ps[..n]);
      LinesShow(ps[n]);
      var before, last := AllLines(ps[..n]), LinesOf(ps[n]);
      assert (before + last)[..|before|] == before && (before + last)[|before|..] == last;
    }
  }

  /** So every list of ports has a listing. */
  lemma PrintPrints(ps: seq<Listed>)
    requires forall i | 0 <= i < |ps| :: Word(ps[i].name)
    ensures Prints(Print(ps), ps)
  {
    AllLinesShow(ps);
    var lines := [HEADER] + AllLines(ps) + [""];
    Framed(AllLines(ps));
    SplitJoin(lines, '\n');
  }

  lemma Framed(all: seq<string>)
    requires Whole(all)
    ensures var lines := [HEADER] + all + [""];
      && |lines| == |all| + 2 && lines[0] == HEADER && lines[|lines| - 1] == ""
      && lines[1..|lines| - 1] == all && forall i | 0 <= i < |lines| :: '\n' !in lines[i]
  {
  }

  // ------------------------------------------------------------ what a row says of a port

  /** The entries list the VLANs of the port, each once. */
  predicate Lists(es: seq<Entry>, p: Port) {
    && (forall i, j | 0 <= i < j < |es| :: es[i].vid != es[j].vid)
    && (forall i | 0 <= i < |es| :: es[i].vid in p.vids
          && es[i].untagged == p.vids[es[i].vid] && es[i].pvid == (es[i].vid == p.pvid))
    && forall v | v in p.vids :: exists i | 0 <= i < |es| :: es[i].vid == v
  }

  /** The VLAN a row calls native, 0 for none. */
  function Native(p: Port): nat { if p.pvid in p.vids && p.vids[p.pvid] then p.pvid else 0 }

  /** The VLANs that are not native, in the order listed. */
  function Others(es: seq<Entry>): seq<nat> {
    if es == [] then []
    else
      var e := es[|es| - 1];
      Others(es[..|es| - 1]) + if NativeEntry(e) then [] else [e.vid]
  }

  function Itoas(vs: seq<nat>): (r: seq<string>)
    ensures |r| == |vs| && forall i | 0 <= i < |r| :: r[i] == Itoa(vs[i])
    ensures forall i | 0 <= i < |r| :: ',' !in r[i]
  {
    if vs == [] then [] else Itoas(vs[..|vs| - 1]) + [Itoa(vs[|vs| - 1])]
  }

  lemma {:induction false} TaggedAreOthers(s: Seen, es: seq<Entry>)
    ensures AddEntries(s, es).name == s.name
    ensures AddEntries(s, es).tagged == s.tagged + Itoas(Others(es))
  {
    if es != [] {
      var n := |es| - 1;
      TaggedAreOthers(s, es[..n]);
      var most := Others(es[..n]);
      if !NativeEntry(es[n]) {
        assert (most + [es[n].vid])[..|most|] == most;
        assert Itoas(most + [es[n].vid]) == Itoas(most) + [Itoa(es[n].vid)];
      } else {
        assert Others(es) == most;
      }
    }
  }

  lemma {:induction false} NativeIsLast(s: Seen, es: seq<Entry>, k: nat)
    requires k < |es| && NativeEntry(es[k])
    requires forall i | k < i < |es| :: !NativeEntry(es[i])
    ensures AddEntries(s, es).native == Itoa(es[k].vid)
  {
    var n := |es| - 1;
    if k < n {
      NativeIsLast(s, es[..n], k);
    }
  }

  lemma {:induction false} NoNative(s: Seen, es: seq<Entry>)
    requires forall i | 0 <= i < |es| :: !NativeEntry(es[i])
    ensures AddEntries(s, es).native == s.native
  {
    if es != [] {
      NoNative(s, es[..|es| - 1]);
    }
  }

  lemma {:induction false} OthersHas(es: seq<Entry>, v: nat)
    ensures v in Others(es) <==> TaggedAt(es, v)
  {
    if es != [] {
      var n := |es| - 1;
      OthersHas(es[..n], v);
      TaggedSnoc(es, v);
    }
  }

  predicate TaggedAt(es: seq<Entry>, v: nat) { exists i | 0 <= i < |es| :: es[i].vid == v && !NativeEntry(es[i]) }

  lemma TaggedSnoc(es: seq<Entry>, v: nat)
    requires es != []
    ensures TaggedAt(es, v) <==>
      TaggedAt(es[..|es| - 1], v) || (es[|es| - 1].vid == v && !NativeEntry(es[|es| - 1]))
  {
    var n := |es| - 1;
    if i :| 0 <= i < n && es[i].vid == v && !NativeEntry(es[i]) {
      assert es[..n][i] == es[i];
    }
  }

  lemma OthersOfPort(es: seq<Entry>, p: Port, v: nat)
    requires Lists(es, p) && ValidPort(p)
    ensures v in Others(es) <==> v in p.vids && v != Native(p)
  {
    OthersHas(es, v);
    if v in p.vids {
      var i :| 0 <= i < |es| && es[i].vid == v;
      assert NativeEntry(es[i]) <==> v == Native(p);
    }
  }

  lemma NativeOfPort(s: Seen, es: seq<Entry>, p: Port)
    requires Lists(es, p) && ValidPort(p) && s.native == ""
    ensures AddEntries(s, es).native == if Native(p) == 0 then "" else Itoa(Native(p))
  {
    if Native(p) == 0 {
      NoNative(s, es);
    } else {
      var k :| 0 <= k < |es| && es[k].vid == Native(p);
      NativeIsLast(s, es, k);
    }
  }

  /** The row of a port: its native VLAN, and the mode trunk exactly when some VLAN
      differs from the native one. */
  lemma RowSaysMode(name: string, es: seq<Entry>, p: Port)
    requires Lists(es, p) && ValidPort(p)
    ensures var r := RowOf(AddEntries(Seen(name, [], ""), es));
      && r.port == name
      && r.native == (if Native(p) == 0 then "" else Itoa(Native(p)))
      && (r.mode == "trunk" <==> exists v :: v in p.vids && v != Native(p))
      && (r.mode == "access" <==> p.vids.Keys == {Native(p)})
      && (r.mode == "none" <==> p.vids == map[])
  {
    var s := Seen(name, [], "");
    TaggedAreOthers(s, es);
    NativeOfPort(s, es, p);
    var others := Others(es);
    ModesApart(AddEntries(s, es));
    forall v: nat ensures v in others <==> v in p.vids && v != Native(p) {
      OthersOfPort(es, p, v);
    }
    if others != [] {
      assert others[0] in p.vids && others[0] != Native(p);
    }
  }

  lemma ModesApart(s: Seen)
    ensures RowOf(s).mode == "trunk" <==> s.tagged != []
    ensures RowOf(s).mode == "access" <==> s.tagged == [] && s.native != ""
    ensures RowOf(s).mode == "none" <==> s.tagged == [] && s.native == ""
  {
    assert |"trunk"| == 5 && |"access"| == 6 && |"none"| == 4;
  }

  // ------------------------------------------------------------ the port back

  ghost function Numbers(ss: seq<string>): set<nat> { set s | s in ss && Numeral(s) :: Value(s) }

  function NativeOf(r: Row): nat { if Numeral(r.native) then Value(r.native) else 0 }

  /** The port a row describes: its VLANs, of which only the native one is untagged. */
  ghost function PortOf(r: Row): Port {
    Port(map v | v in Numbers(Split(r.vlans, ',')) + Numbers([r.native]) :: v == NativeOf(r), NativeOf(r))
  }

  lemma NumbersOfItoas(vs: seq<nat>)
    ensures Numbers(Itoas(vs)) == set v | v in vs
  {
    forall v | v in vs ensures v in Numbers(Itoas(vs)) {
      var i :| 0 <= i < |vs| && vs[i] == v;
      ItoaValue(v);
      assert Itoas(vs)[i] == Itoa(v);
    }
    forall v | v in Numbers(Itoas(vs)) ensures v in vs {
      var s :| s in Itoas(vs) && Numeral(s) && Value(s) == v;
      var i :| 0 <= i < |vs| && Itoas(vs)[i] == s;
      ItoaValue(vs[i]);
    }
  }

  lemma NumbersOfOne(s: string)
    ensures Numbers([s]) == if Numeral(s) then {Value(s)} else {}
  {
    assert forall x | x in [s] :: x == s;
    assert [s][0] in [s];
  }

  lemma NumbersListed(vs: seq<nat>)
    ensures vs != [] ==> Numbers(Split(Join(Itoas(vs), ","), ',')) == set v | v in vs
  {
    if vs != [] {
      SplitJoin(Itoas(vs), ',');
      NumbersOfItoas(vs);
    }
  }

  lemma NativeReadBack(r: Row, n: nat)
    requires r.native == if n == 0 then "" else Itoa(n)
    ensures NativeOf(r) == n
    ensures Numbers([r.native]) == if n == 0 then {} else {n}
    ensures Numbers(Split(r.native, ',')) == Numbers([r.native])
  {
    ItoaValue(n);
    NumbersOfOne(r.native);
    SplitPiece(r.native, "", ',');
  }

  lemma RowNumbers(s: Seen, vs: seq<nat>, n: nat)
    requires s.tagged == Itoas(vs) && s.native == (if n == 0 then "" else Itoa(n))
    ensures NativeOf(RowOf(s)) == n
    ensures PortOf(RowOf(s)).vids.Keys == (set v | v in vs) + if n == 0 then {} else {n}
    ensures forall v | v in PortOf(RowOf(s)).vids :: PortOf(RowOf(s)).vids[v] == (v == n)
    ensures PortOf(RowOf(s)).pvid == n
  {
    var r := RowOf(s);
    NativeReadBack(r, n);
    NumbersListed(vs);
    if vs == [] {
      assert s.tagged == [];
      assert r.vlans == s.native;
    } else {
      assert r.vlans == Join(Itoas(vs), ",");
    }
  }

  /** Every VLAN of a port is in its row, and nothing else is. */
  lemma RowHasEveryVlan(name: string, es: seq<Entry>, p: Port)
    requires Lists(es, p) && ValidPort(p)
    ensures var q := PortOf(RowOf(AddEntries(Seen(name, [], ""), es)));
      q.vids.Keys == p.vids.Keys && q.pvid == Native(p) && forall v | v in q.vids :: q.vids[v] == (v == Native(p))
  {
    var s := Seen(name, [], "");
    var others := Others(es);
    TaggedAreOthers(s, es);
    NativeOfPort(s, es, p);
    RowNumbers(AddEntries(s, es), others, Native(p));
    forall v: nat ensures v in others <==> v in p.vids && v != Native(p) {
      OthersOfPort(es, p, v);
    }
    AllButNative(others, p);
  }

  lemma AllButNative(others: seq<nat>, p: Port)
    requires ValidPort(p)
    requires forall v: nat :: v in others <==> v in p.vids && v != Native(p)
    ensures (set v | v in others) + (if Native(p) == 0 then {} else {Native(p)}) == p.vids.Keys
  {
    assert Native(p) == 0 || Native(p) in p.vids;
  }

  /** The row gives the port back whole exactly when the PVID is the one VLAN that
      egresses untagged. */
  lemma RowGivesPortBackExactly(name: string, es: seq<Entry>, p: Port)
    requires Lists(es, p) && ValidPort(p)
    ensures PortOf(RowOf(AddEntries(Seen(name, [], ""), es))) == p
       <==> forall v | v in p.vids :: p.vids[v] <==> v == p.pvid
  {
    RowHasEveryVlan(name, es, p);
    SameExactly(PortOf(RowOf(AddEntries(Seen(name, [], ""), es))), p);
  }

  lemma SameExactly(q: Port, p: Port)
    requires ValidPort(p) && q.vids.Keys == p.vids.Keys && q.pvid == Native(p)
    requires forall v | v in q.vids :: q.vids[v] == (v == Native(p))
    ensures q == p <==> forall v | v in p.vids :: p.vids[v] <==> v == p.pvid
  {
    if forall v | v in p.vids :: p.vids[v] <==> v == p.pvid {
      assert q.pvid == p.pvid;
      assert forall v | v in p.vids :: v in q.vids && q.vids[v] == p.vids[v];
      assert q.vids == p.vids;
    }
  }

  /** What an operation asks for is such a port. */
  lemma WantedIsReadable(o: Operation, v: nat)
    requires ValidOperation(o) && v in Wanted(o).vids
    ensures Wanted(o).vids[v] <==> v == Wanted(o).pvid
  {
  }

  predicate ListsTable(ps: seq<Listed>, t: Table) {
    forall j | 0 <= j < |ps| :: ps[j].name in t && Lists(ps[j].entries, t[ps[j].name])
  }

  /** Setting and reading: after any history of operations, the listing of the ports
      gives back, for each port, exactly what the last operation on it asked for. */
  lemma SetThenRead(h: Host, os: seq<Operation>, ps: seq<Listed>, text: string, i: nat)
    requires Possible(h, os) && Named(ps) && Prints(text, ps) && ListsTable(ps, ExecAll(h, os).ports)
    requires i < |ps| && ps[i].name in h.ports && !Untouched(os, 0, ps[i].name)
    ensures var rows := Rows(FeedAll([], Split(text, '\n')));
      |rows| == |ps| && rows[i].port == ps[i].name && Decided(h.ports, os, ps[i].name, PortOf(rows[i]))
  {
    var after := ExecAll(h, os).ports;
    LastSetWins(h, os);
    ListingReadsBackExactly(text, ps);
    RowAfterLast(h, os, ps[i], after[ps[i].name]);
  }

  lemma RowAfterLast(h: Host, os: seq<Operation>, l: Listed, p: Port)
    requires l.name in h.ports && Lists(l.entries, p) && ValidPort(p)
    requires Possible(h, os) && Decided(h.ports, os, l.name, p) && !Untouched(os, 0, l.name)
    ensures var r := RowOf(AddEntries(Seen(l.name, [], ""), l.entries));
      r.port == l.name && PortOf(r) == p
  {
    RowSaysMode(l.name, l.entries, p);
    RowGivesPortBackExactly(l.name, l.entries, p);
    var k :| 0 <= k < |os| && os[k].port == l.name && Untouched(os, k + 1, l.name) && p == Wanted(os[k]);
    forall v | v in p.vids ensures p.vids[v] <==> v == p.pvid {
      WantedIsReadable(os[k], v);
    }
  }

  /** For one port: whatever was on it, set to access, printed and read, it is an access
      port of that VLAN. */
  lemma AccessReadsBack(h: Host, port: string, vlan: nat)
    requires CleanWord(port) && !HasPrefix(port, HEADER)
    requires OnBridge(h, port) && ValidPort(h.ports[port]) && Vid(vlan)
    ensures var after := Exec(h, VLANSetAccess(port, vlan)).ports;
      port in after && Lists([Entry(vlan, true, true)], after[port])
    ensures ParsedAccess(port, vlan) == [Row(port, "access", Itoa(vlan), Itoa(vlan))]
  {
    OperationLeavesExactlyWanted(h, Access(port, vlan));
    ListedAccess(port, vlan);
  }

  function ParsedAccess(port: string, vlan: nat): seq<Row> {
    Rows(FeedAll([], Split(Print([Listed(port, [Entry(vlan, true, true)])]), '\n')))
  }

  lemma ListedAccess(port: string, vlan: nat)
    requires Word(port) && !HasPrefix(port, HEADER)
    ensures ParsedAccess(port, vlan) == [Row(port, "access", Itoa(vlan), Itoa(vlan))]
  {
    var l := Listed(port, [Entry(vlan, true, true)]);
    PrintPrints([l]);
    OnePortReadsBack(Print([l]), l);
    RowOfAccess(port, vlan);
  }

  /** A listing of one port. */
  lemma OnePortReadsBack(text: string, l: Listed)
    requires Prints(text, [l]) && !HasPrefix(l.name, HEADER)
    ensures Rows(FeedAll([], Split(text, '\n'))) == [RowOf(AddEntries(Seen(l.name, [], ""), l.entries))]
  {
    ListingReadsBackExactly(text, [l]);
    assert Named([l]);
    assert [l][..0] == [];
    assert Faithful([l]) == [AddEntries(Seen(l.name, [], ""), l.entries)];
  }

  lemma RowOfAccess(port: string, vlan: nat)
    ensures RowOf(AddEntries(Seen(port, [], ""), [Entry(vlan, true, true)]))
         == Row(port, "access", Itoa(vlan), Itoa(vlan))
  {
    var e := Entry(vlan, true, true);
    AddOne(Seen(port, [], ""), e);
    assert NativeEntry(e);
    assert AddEntry(Seen(port, [], ""), e) == Seen(port, [], Itoa(vlan));
    assert |Itoa(vlan)| > 0;
  }
}
