/** What the spanning tree reader (capabilities/stp_base.go:65-123) makes of the
    state of the bridges and ports of a host. */
module SpanningTreeState {
  import opened GoStrings
  import opened GoNumbers
  import opened SpanningTree

  // ------------------------------------------------------------ the state and its lines

  datatype Bridge = Bridge(name: string, on: bool, priority: string, id: string, rootId: string, rootPort: nat, cost: string)

  datatype Port = Port(name: string, bridge: string, state: nat, cost: string, priority: string, number: nat)

  datatype Item = OfBridge(b: Bridge) | OfPort(p: Port)

  function BridgeWords(b: Bridge): seq<string> {
    ["B", b.name, if b.on then "1" else "0", b.priority, b.id, b.rootId, Itoa(b.rootPort), b.cost]
  }

  function PortWords(p: Port): seq<string> {
    ["P", p.name, p.bridge, Itoa(p.state), p.cost, p.priority, "0x" + Hex(p.number)]
  }

  function Words(i: Item): seq<string> {
    match i
    case OfBridge(b) => BridgeWords(b)
    case OfPort(p) => PortWords(p)
  }

  predicate Shows(line: string, i: Item) { Fields(line) == Words(i) }

  /** The lines of the items in their order, with any spacing, and a newline at the end. */
  predicate Prints(text: string, items: seq<Item>) {
    var lines := Split(text, '\n');
    && |lines| == |items| + 1
    && lines[|items|] == ""
    && forall i | 0 <= i < |items| :: Shows(lines[i], items[i])
  }

  function BridgeOf(i: Item): seq<Bridge> { if i.OfBridge? then [i.b] else [] }

  function PortOf(i: Item): seq<Port> { if i.OfPort? then [i.p] else [] }

  function Bridges(items: seq<Item>): seq<Bridge> {
    if items == [] then [] else Bridges(items[..|items| - 1]) + BridgeOf(items[|items| - 1])
  }

  function Ports(items: seq<Item>): seq<Port> {
    if items == [] then [] else Ports(items[..|items| - 1]) + PortOf(items[|items| - 1])
  }

  /** Numbers in the range of the types they are read into; ports count from 1. */
  predicate Readable(i: Item) {
    match i
    case OfBridge(b) => b.rootPort < INT64_LIMIT
    case OfPort(p) => 0 < p.number < INT32_LIMIT
  }

  predicate InRange(items: seq<Item>) { forall i | 0 <= i < |items| :: Readable(items[i]) }

  // ------------------------------------------------------------ what is collected

  function StateOf(state: nat): string {
    if state == 0 then "disabled"
    else if state == 1 then "listening"
    else if state == 2 then "learning"
    else if state == 3 then "forwarding"
    else if state == 4 then "blocking"
    else ""
  }

  function LineOf(p: Port): PortLine {
    PortLine(p.name, p.bridge, StateOf(p.state), p.cost, p.priority, p.number)
  }

  function RowOfBridge(b: Bridge): BridgeRow {
    BridgeRow(b.name, if b.on then "stp" else "off", b.priority, b.id, b.rootId, if b.id == b.rootId then "yes" else "no", "")
  }

  function Info(bs: seq<Bridge>): map<string, BridgeInfo> {
    if bs == [] then map[]
    else
      var b := bs[|bs| - 1];
      Info(bs[..|bs| - 1])[b.name := BridgeInfo(b.on, b.rootPort)]
  }

  function BridgeRows(bs: seq<Bridge>): (r: seq<BridgeRow>)
    ensures |r| == |bs| && forall i | 0 <= i < |r| :: r[i] == RowOfBridge(bs[i])
  {
    if bs == [] then [] else BridgeRows(bs[..|bs| - 1]) + [RowOfBridge(bs[|bs| - 1])]
  }

  function PortNames(ps: seq<Port>): Names {
    if ps == [] then map[]
    else
      var p := ps[|ps| - 1];
      WithName(PortNames(ps[..|ps| - 1]), p.bridge, p.number, p.name)
  }

  function Lines(ps: seq<Port>): (r: seq<PortLine>)
    ensures |r| == |ps| && forall i | 0 <= i < |r| :: r[i] == LineOf(ps[i])
  {
    if ps == [] then [] else Lines(ps[..|ps| - 1]) + [LineOf(ps[|ps| - 1])]
  }

  function Collect(bs: seq<Bridge>, ps: seq<Port>): Collected {
    Collected(Info(bs), PortNames(ps), BridgeRows(bs), Lines(ps))
  }

  lemma StateNames(state: nat)
    ensures StateName(Itoa(state)) == StateOf(state)
  {
    ItoaValue(state);
    if state < 10 {
      assert Itoa(state) == [DigitChar(state)];
      SmallStates(DigitChar(state));
    } else {
      assert |Itoa(state)| >= 2;
      assert forall k | k in STATES :: |k| == 1;
    }
  }

  lemma SmallStates(c: char)
    ensures StateName([c]) == if IsDigit(c) then StateOf(DigitValue(c)) else ""
  {
    assert forall d: char | [c] == [d] :: [c][0] == [d][0];
  }

  lemma TrimHex(n: nat)
    ensures TrimPrefix("0x" + Hex(n), "0x") == Hex(n)
  {
  }

  lemma ReadBridgeLine(bs: seq<Bridge>, ps: seq<Port>, line: string, b: Bridge)
    requires Fields(line) == BridgeWords(b) && b.rootPort < INT64_LIMIT
    ensures ReadLine(Collect(bs, ps), line) == Collect(bs + [b], ps)
  {
    AtoiItoa(b.rootPort);
    assert (bs + [b])[..|bs|] == bs;
    assert b.on <==> (if b.on then "1" else "0") == "1";
  }

  lemma ReadPortLine(bs: seq<Bridge>, ps: seq<Port>, line: string, p: Port)
    requires Fields(line) == PortWords(p) && p.number < INT32_LIMIT
    ensures ReadLine(Collect(bs, ps), line) == Collect(bs, ps + [p])
  {
    TrimHex(p.number);
    ParseHex(p.number);
    StateNames(p.state);
    assert (ps + [p])[..|ps|] == ps;
  }

  lemma ReadItem(bs: seq<Bridge>, ps: seq<Port>, line: string, i: Item)
    requires Shows(line, i) && Readable(i)
    ensures ReadLine(Collect(bs, ps), line) == Collect(bs + BridgeOf(i), ps + PortOf(i))
  {
    match i {
      case OfBridge(b) =>
        ReadBridgeLine(bs, ps, line, b);
        assert ps + PortOf(i) == ps;
      case OfPort(p) =>
        ReadPortLine(bs, ps, line, p);
        assert bs + BridgeOf(i) == bs;
    }
  }

  lemma {:induction false} ReadItems(lines: seq<string>, items: seq<Item>)
    requires |lines| == |items| && InRange(items)
    requires forall i | 0 <= i < |items| :: Shows(lines[i], items[i])
    ensures ReadLines(lines) == Collect(Bridges(items), Ports(items))
  {
    if items != [] {
      var n := |items| - 1;
      ReadItems(lines[..n], items[..n]);
      ReadItem(Bridges(items[..n]), Ports(items[..n]), lines[n], items[n]);
    }
  }

  /** The reader gets back the bridges in their order and the ports in theirs, however
      their lines interleave. */
  lemma TextCollected(text: string, items: seq<Item>)
    requires Prints(text, items) && InRange(items)
    ensures ReadLines(Split(text, '\n')) == Collect(Bridges(items), Ports(items))
  {
    var lines := Split(text, '\n');
    var n := |items|;
    ReadItems(lines[..n], items);
    assert Fields(lines[n]) == [];
  }

  // ------------------------------------------------------------ order of the lines

  /** No interface has two ports, no bridge two ports of one number. */
  predicate Distinct(ps: seq<Port>) {
    forall i, j | 0 <= i < j < |ps| ::
      ps[i].name != ps[j].name && !(ps[i].bridge == ps[j].bridge && ps[i].number == ps[j].number)
  }

  lemma {:induction false} NameFound(ps: seq<Port>, k: nat)
    requires k < |ps| && Distinct(ps)
    ensures NameAt(PortNames(ps), ps[k].bridge, ps[k].number) == ps[k].name
  {
    var n := |ps| - 1;
    if k < n {
      NameFound(ps[..n], k);
    }
  }

  lemma {:induction false} NoName(ps: seq<Port>, bridge: string, number: int)
    requires forall i | 0 <= i < |ps| :: !(ps[i].bridge == bridge && ps[i].number == number)
    ensures NameAt(PortNames(ps), bridge, number) == ""
  {
    if ps != [] {
      NoName(ps[..|ps| - 1], bridge, number);
    }
  }

  predicate Reordered(ps: seq<Port>, qs: seq<Port>) { multiset(ps) == multiset(qs) }

  lemma ReorderedSame(ps: seq<Port>, qs: seq<Port>, p: Port)
    requires Reordered(ps, qs) && p in ps
    ensures p in qs
  {
    assert p in multiset(ps);
  }

  lemma NameWhateverOrder(ps: seq<Port>, qs: seq<Port>, bridge: string, number: int)
    requires Distinct(ps) && Distinct(qs) && Reordered(ps, qs)
    ensures NameAt(PortNames(ps), bridge, number) == NameAt(PortNames(qs), bridge, number)
  {
    if k :| 0 <= k < |ps| && ps[k].bridge == bridge && ps[k].number == number {
      ReorderedSame(ps, qs, ps[k]);
      var j :| 0 <= j < |qs| && qs[j] == ps[k];
      NameFound(ps, k);
      NameFound(qs, j);
    } else {
      NoName(ps, bridge, number);
      forall i | 0 <= i < |qs| ensures !(qs[i].bridge == bridge && qs[i].number == number) {
        ReorderedSame(qs, ps, qs[i]);
      }
      NoName(qs, bridge, number);
    }
  }

  function PortRows(bs: seq<Bridge>, ps: seq<Port>): seq<PortRow> { RowsOf(Info(bs), Lines(ps)) }

  lemma {:induction false} RowsReordered(bs: seq<Bridge>, ps: seq<Port>, qs: seq<Port>)
    requires Reordered(ps, qs)
    ensures multiset(PortRows(bs, ps)) == multiset(PortRows(bs, qs))
  {
    if ps == [] {
      assert qs == [];
    } else {
      var n := |ps| - 1;
      var p := ps[n];
      ReorderedSame(ps, qs, p);
      var j :| 0 <= j < |qs| && qs[j] == p;
      assert ps[..n] + ps[n + 1..] == ps[..n];
      Without(ps, n);
      Without(qs, j);
      Cancel(multiset(ps[..n]), multiset(qs[..j] + qs[j + 1..]), p);
      RowsReordered(bs, ps[..n], qs[..j] + qs[j + 1..]);
      RowsWithout(bs, qs, j);
      RowsWithout(bs, ps, n);
    }
  }

  lemma Without<T>(xs: seq<T>, j: nat)
    requires j < |xs|
    ensures multiset(xs) == multiset(xs[..j] + xs[j + 1..]) + multiset{xs[j]}
  {
    assert xs == xs[..j] + [xs[j]] + xs[j + 1..];
  }

  lemma Cancel<T>(a: multiset<T>, b: multiset<T>, x: T)
    requires a + multiset{x} == b + multiset{x}
    ensures a == b
  {
    assert a == (a + multiset{x}) - multiset{x};
    assert b == (b + multiset{x}) - multiset{x};
  }

  lemma SameTail(s: seq<PortRow>, t: seq<PortRow>)
    requires s != [] && t != [] && s[0] == t[0] && multiset(s) == multiset(t)
    ensures multiset(s[1..]) == multiset(t[1..])
  {
    FirstApart(s);
    FirstApart(t);
    Cancel(multiset(s[1..]), multiset(t[1..]), s[0]);
  }

  lemma FirstApart(s: seq<PortRow>)
    requires s != []
    ensures multiset(s) == multiset(s[1..]) + multiset{s[0]}
  {
    assert s == [s[0]] + s[1..];
  }

  lemma RowsWithout(bs: seq<Bridge>, ps: seq<Port>, j: nat)
    requires j < |ps|
    ensures multiset(PortRows(bs, ps))
         == multiset(PortRows(bs, ps[..j] + ps[j + 1..])) + multiset{RowOf(Info(bs), LineOf(ps[j]))}
  {
    var all, rest := PortRows(bs, ps), PortRows(bs, ps[..j] + ps[j + 1..]);
    Without(all, j);
    assert rest == all[..j] + all[j + 1..];
  }

  /** Two sorted lists of the same rows are the same list when no two rows share a key. */
  lemma {:induction false} SortedOnce(s: seq<PortRow>, t: seq<PortRow>)
    requires multiset(s) == multiset(t) && Sorted(s) && Sorted(t)
    requires forall x, y | x in s && y in s && Key(x) == Key(y) :: x == y
    ensures s == t
  {
    if s == [] {
      assert t == [];
    } else {
      SameFirst(s, t);
      SameTail(s, t);
      SortedOnce(s[1..], t[1..]);
      assert s == [s[0]] + s[1..] && t == [t[0]] + t[1..];
    }
  }

  lemma SameFirst(s: seq<PortRow>, t: seq<PortRow>)
    requires s != [] && multiset(s) == multiset(t) && Sorted(s) && Sorted(t)
    requires forall x, y | x in s && y in s && Key(x) == Key(y) :: x == y
    ensures t != [] && s[0] == t[0]
  {
    assert s[0] in multiset(t);
    assert t[0] in multiset(s);
    var i :| 0 <= i < |s| && s[i] == t[0];
    var j :| 0 <= j < |t| && t[j] == s[0];
    LessTotal(Key(s[0]), Key(t[0]));
  }

  /** Rows of distinct ports of bridges without spaces in their names have distinct keys. */
  lemma KeysDistinct(bs: seq<Bridge>, ps: seq<Port>, x: PortRow, y: PortRow)
    requires Distinct(ps) && forall i | 0 <= i < |ps| :: ' ' !in ps[i].bridge
    requires x in PortRows(bs, ps) && y in PortRows(bs, ps) && Key(x) == Key(y)
    ensures x == y
  {
    var i :| 0 <= i < |ps| && x == RowOf(Info(bs), LineOf(ps[i]));
    var j :| 0 <= j < |ps| && y == RowOf(Info(bs), LineOf(ps[j]));
    FirstSeparator(x.bridge, x.port, y.bridge, y.port, ' ');
  }

  lemma {:induction false} PortsAreWords(lines: seq<string>, items: seq<Item>)
    requires |lines| == |items|
    requires forall i | 0 <= i < |items| :: Shows(lines[i], items[i])
    ensures forall i | 0 <= i < |Ports(items)| :: Word(Ports(items)[i].bridge) && Word(Ports(items)[i].name)
    ensures forall i | 0 <= i < |Bridges(items)| :: Word(Bridges(items)[i].name)
  {
    if items != [] {
      var n := |items| - 1;
      PortsAreWords(lines[..n], items[..n]);
      assert Shows(lines[n], items[n]);
      WordsOfItem(lines[n], items[n]);
    }
  }

  lemma WordsOfItem(line: string, i: Item)
    requires Shows(line, i)
    ensures i.OfPort? ==> Word(i.p.bridge) && Word(i.p.name)
    ensures i.OfBridge? ==> Word(i.b.name)
  {
    var f := Fields(line);
    assert Word(f[1]) && Word(f[2]);
  }

  lemma TextWords(text: string, items: seq<Item>)
    requires Prints(text, items)
    ensures forall i | 0 <= i < |Ports(items)| :: Word(Ports(items)[i].bridge) && Word(Ports(items)[i].name)
    ensures forall i | 0 <= i < |Bridges(items)| :: Word(Bridges(items)[i].name)
  {
    PortsAreWords(Split(text, '\n')[..|items|], items);
  }

  lemma BridgeRowsWhateverOrder(bs: seq<Bridge>, ps: seq<Port>, qs: seq<Port>)
    requires Distinct(ps) && Distinct(qs) && Reordered(ps, qs)
    ensures AllPatched(Collect(bs, ps)) == AllPatched(Collect(bs, qs))
  {
    var r, s := AllPatched(Collect(bs, ps)), AllPatched(Collect(bs, qs));
    forall i | 0 <= i < |r| ensures r[i] == s[i] {
      var b := BridgeRows(bs)[i];
      if b.bridge in Info(bs) {
        NameWhateverOrder(ps, qs, b.bridge, Info(bs)[b.bridge].rootPort);
      }
    }
  }

  /** Whatever the order of the port lines, and however they interleave with the bridge
      lines, the reader returns the same rows in the same order. */
  lemma OrderIsIrrelevant(text: string, items: seq<Item>, text': string, items': seq<Item>,
      bridges: seq<BridgeRow>, ports: seq<PortRow>, bridges': seq<BridgeRow>, ports': seq<PortRow>)
    requires Prints(text, items) && Prints(text', items') && InRange(items) && InRange(items')
    requires Bridges(items) == Bridges(items') && Reordered(Ports(items), Ports(items'))
    requires Distinct(Ports(items)) && Distinct(Ports(items'))
    requires Returns(text, bridges, ports) && Returns(text', bridges', ports')
    ensures bridges == bridges' && ports == ports'
  {
    var bs, ps, qs := Bridges(items), Ports(items), Ports(items');
    TextCollected(text, items);
    TextCollected(text', items');
    BridgeRowsWhateverOrder(bs, ps, qs);
    RowsReordered(bs, ps, qs);
    TextWords(text, items);
    PortsSortedOnce(bs, ps, ports, ports');
  }

  lemma PortsSortedOnce(bs: seq<Bridge>, ps: seq<Port>, s: seq<PortRow>, t: seq<PortRow>)
    requires Distinct(ps) && forall i | 0 <= i < |ps| :: ' ' !in ps[i].bridge
    requires Sorted(s) && Sorted(t)
    requires multiset(s) == multiset(PortRows(bs, ps)) && multiset(t) == multiset(s)
    ensures s == t
  {
    forall x, y | x in s && y in s && Key(x) == Key(y) ensures x == y {
      assert x in multiset(s) && y in multiset(s);
      KeysDistinct(bs, ps, x, y);
    }
    SortedOnce(s, t);
  }

  // ------------------------------------------------------------ roles

  lemma {:induction false} InfoOf(bs: seq<Bridge>, k: nat)
    requires k < |bs| && forall i, j | 0 <= i < j < |bs| :: bs[i].name != bs[j].name
    ensures bs[k].name in Info(bs) && Info(bs)[bs[k].name] == BridgeInfo(bs[k].on, bs[k].rootPort)
  {
    var n := |bs| - 1;
    if k < n {
      InfoOf(bs[..n], k);
    }
  }

  lemma {:induction false} PortsPositive(items: seq<Item>)
    requires InRange(items)
    ensures forall i | 0 <= i < |Ports(items)| :: Ports(items)[i].number > 0
  {
    if items != [] {
      PortsPositive(items[..|items| - 1]);
      assert Readable(items[|items| - 1]);
    }
  }

  lemma NotNamed(ps: seq<Port>, bridge: string, number: int, j: nat)
    requires j < |ps| && Distinct(ps) && ps[j].bridge == bridge && ps[j].number != number && ps[j].name != ""
    ensures NameAt(PortNames(ps), bridge, number) != ps[j].name
  {
    if i :| 0 <= i < |ps| && ps[i].bridge == bridge && ps[i].number == number {
      NameFound(ps, i);
    } else {
      NoName(ps, bridge, number);
    }
  }

  lemma RootOfBridge(bs: seq<Bridge>, ps: seq<Port>, b: Bridge, j: nat)
    requires j < |ps| && ps[j].bridge == b.name
    requires Distinct(ps) && forall i | 0 <= i < |ps| :: ps[i].name != "" && ps[i].number > 0
    requires b.name in Info(bs) && Info(bs)[b.name] == BridgeInfo(b.on, b.rootPort)
    ensures var root := if b.rootPort == 0 then "" else NameAt(PortNames(ps), b.name, b.rootPort);
      RowRole(RowOf(Info(bs), LineOf(ps[j])), b.on, root)
  {
    var root := if b.rootPort == 0 then "" else NameAt(PortNames(ps), b.name, b.rootPort);
    if ps[j].number == b.rootPort {
      NameFound(ps, j);
    } else {
      NotNamed(ps, b.name, b.rootPort, j);
    }
    RolesApart();
  }

  lemma RolesApart()
    ensures "root" != "alternate" && "root" != "designated" && "alternate" != "designated"
    ensures "root" != "" && "alternate" != "" && "designated" != ""
  {
    assert |"root"| == 4 && |"alternate"| == 9 && |"designated"| == 10;
  }

  /** On a bridge that runs the protocol: the port named is the root port, of the others
      the blocking ones are alternates and the rest designated; no roles otherwise. */
  predicate RowRole(r: PortRow, on: bool, root: string) {
    && (on ==> (r.role == "root" <==> r.port == root))
    && (on ==> (r.role == "alternate" <==> r.port != root && r.state == "blocking"))
    && (on ==> (r.role == "designated" <==> r.port != root && r.state != "blocking"))
    && (!on ==> r.role == "")
  }

  /** The row of each bridge names its root port, and the roles of the ports of that
      bridge follow from the name. */
  lemma RootPortIsNamed(text: string, items: seq<Item>, bridges: seq<BridgeRow>, ports: seq<PortRow>, k: nat)
    requires Prints(text, items) && InRange(items) && Returns(text, bridges, ports)
    requires Distinct(Ports(items)) && k < |Bridges(items)|
    requires forall i, j | 0 <= i < j < |Bridges(items)| :: Bridges(items)[i].name != Bridges(items)[j].name
    ensures |bridges| == |Bridges(items)| && BridgeShown(bridges[k], Bridges(items)[k])
    ensures forall r | r in ports && r.bridge == bridges[k].bridge ::
      RowRole(r, Bridges(items)[k].on, bridges[k].rootPort)
  {
    var bs, ps := Bridges(items), Ports(items);
    var b := bs[k];
    TextCollected(text, items);
    TextWords(text, items);
    PortsPositive(items);
    InfoOf(bs, k);
    PatchedRow(bs, ps, k);
    RowsOfBridgeRoles(bs, ps, b, ports);
  }

  lemma RowsOfBridgeRoles(bs: seq<Bridge>, ps: seq<Port>, b: Bridge, ports: seq<PortRow>)
    requires multiset(ports) == multiset(PortRows(bs, ps))
    requires Distinct(ps) && forall i | 0 <= i < |ps| :: ps[i].name != "" && ps[i].number > 0
    requires b.name in Info(bs) && Info(bs)[b.name] == BridgeInfo(b.on, b.rootPort)
    ensures var root := if b.rootPort == 0 then "" else NameAt(PortNames(ps), b.name, b.rootPort);
      forall r | r in ports && r.bridge == b.name :: RowRole(r, b.on, root)
  {
    forall r | r in ports && r.bridge == b.name
      ensures RowRole(r, b.on, if b.rootPort == 0 then "" else NameAt(PortNames(ps), b.name, b.rootPort))
    {
      assert r in multiset(PortRows(bs, ps));
      RowOfBridgeRole(bs, ps, b, r);
    }
  }

  predicate BridgeShown(r: BridgeRow, b: Bridge) {
    && r.bridge == b.name && r.priority == b.priority && r.bridgeId == b.id && r.rootId == b.rootId
    && r.mode == (if b.on then "stp" else "off")
    && r.root == if b.id == b.rootId then "yes" else "no"
  }

  lemma PatchedRow(bs: seq<Bridge>, ps: seq<Port>, k: nat)
    requires k < |bs| && bs[k].name in Info(bs) && Info(bs)[bs[k].name] == BridgeInfo(bs[k].on, bs[k].rootPort)
    ensures var b, r := bs[k], AllPatched(Collect(bs, ps))[k];
      && BridgeShown(r, b)
      && r.rootPort == if b.rootPort == 0 then "" else NameAt(PortNames(ps), b.name, b.rootPort)
  {
  }

  lemma RowOfBridgeRole(bs: seq<Bridge>, ps: seq<Port>, b: Bridge, r: PortRow)
    requires r in PortRows(bs, ps) && r.bridge == b.name
    requires Distinct(ps) && forall i | 0 <= i < |ps| :: ps[i].name != "" && ps[i].number > 0
    requires b.name in Info(bs) && Info(bs)[b.name] == BridgeInfo(b.on, b.rootPort)
    ensures RowRole(r, b.on, if b.rootPort == 0 then "" else NameAt(PortNames(ps), b.name, b.rootPort))
  {
    var j :| 0 <= j < |ps| && r == RowOf(Info(bs), LineOf(ps[j]));
    RootOfBridge(bs, ps, b, j);
  }

  /** A port of a bridge without a line of its own has no role. */
  lemma {:induction false} NoBridgeNoRole(bs: seq<Bridge>, p: Port)
    requires forall i | 0 <= i < |bs| :: bs[i].name != p.bridge
    ensures RowOf(Info(bs), LineOf(p)).role == ""
  {
    if bs != [] {
      NoBridgeNoRole(bs[..|bs| - 1], p);
    }
  }

  // ------------------------------------------------------------ the sort key

  /** By bridge and then by port. */
  predicate PairLess(b: string, p: string, b': string, p': string) {
    Less(b, b') || (b == b' && Less(p, p'))
  }

  /** b' is b and then a character that sorts before a space. */
  predicate Undercuts(b: string, b': string) {
    |b| < |b'| && b'[..|b|] == b && b'[|b|] < ' '
  }

  /** Comparing the concatenated keys compares the pairs exactly when neither bridge is
      the other followed by a control character. */
  lemma {:induction false} KeyOrderExactly(b: string, p: string, b': string, p': string)
    requires ' ' !in b && ' ' !in b'
    ensures (Less(b + " " + p, b' + " " + p') <==> PairLess(b, p, b', p'))
       <==> !Undercuts(b, b') && !Undercuts(b', b)
  {
    var x, y := b + " " + p, b' + " " + p';
    if b == "" && b' == "" {
      assert x[1..] == p && y[1..] == p';
    } else if b == "" {
      assert x[0] == ' ' && y[0] == b'[0];
      assert b'[..0] == b;
    } else if b' == "" {
      assert y[0] == ' ' && x[0] == b[0];
      assert b[..0] == b';
      assert !Less(b, b');
    } else if b[0] == b'[0] {
      KeyOrderExactly(b[1..], p, b'[1..], p');
      assert x[1..] == b[1..] + " " + p && y[1..] == b'[1..] + " " + p';
      assert b == [b[0]] + b[1..] && b' == [b'[0]] + b'[1..];
      UndercutsTail(b, b');
      UndercutsTail(b', b);
    } else {
      assert x[0] == b[0] && y[0] == b'[0];
      if Undercuts(b, b') {
        UndercutsFirst(b, b');
      } else if Undercuts(b', b) {
        UndercutsFirst(b', b);
      }
    }
  }

  lemma UndercutsFirst(b: string, b': string)
    requires Undercuts(b, b') && b != ""
    ensures b[0] == b'[0]
  {
    assert b'[..|b|][0] == b'[0];
  }

  lemma UndercutsTail(b: string, b': string)
    requires b != "" && b' != "" && b[0] == b'[0]
    ensures Undercuts(b, b') <==> Undercuts(b[1..], b'[1..])
  {
    if |b| < |b'| {
      assert b'[..|b|] == [b'[0]] + b'[1..][..|b| - 1];
      assert b == [b[0]] + b[1..];
    }
  }

  /** A bridge called br and one called br, U+0001: the key puts the longer name first. */
  lemma ControlCharacterOutOfOrder(p: string, p': string)
    ensures PairLess("br", p, "br\U{0001}", p')
    ensures !Less("br" + " " + p, "br\U{0001}" + " " + p')
  {
    var b, b' := "br", "br\U{0001}";
    assert Undercuts(b, b');
    KeyOrderExactly(b, p, b', p');
    LessPrefix(b, b');
  }

  lemma {:induction false} LessPrefix(a: string, b: string)
    requires |a| < |b| && b[..|a|] == a
    ensures Less(a, b)
  {
    if a != "" {
      assert b[..|a|][0] == a[0];
      assert b[1..][..|a[1..]|] == a[1..];
      LessPrefix(a[1..], b[1..]);
    }
  }

  /** Sorted by bridge and then port. */
  predicate ByPair(ports: seq<PortRow>) {
    forall i, j | 0 <= i < j < |ports| :: !PairLess(ports[j].bridge, ports[j].port, ports[i].bridge, ports[i].port)
  }

  ghost predicate NoneUndercuts(bs: set<string>) { forall b, c | b in bs && c in bs :: !Undercuts(b, c) }

  function RowBridges(ports: seq<PortRow>): set<string> { set r | r in ports :: r.bridge }

  function PortBridges(ps: seq<Port>): set<string> { set p | p in ps :: p.bridge }

  /** Rows in the order of their keys, of two different bridges one of which undercuts
      the other, are out of order. */
  lemma UndercutIsOutOfOrder(x: PortRow, y: PortRow)
    requires ' ' !in x.bridge && ' ' !in y.bridge && !Less(Key(y), Key(x))
    requires Undercuts(x.bridge, y.bridge) || Undercuts(y.bridge, x.bridge)
    ensures PairLess(y.bridge, y.port, x.bridge, x.port)
  {
    KeyOrderExactly(y.bridge, y.port, x.bridge, x.port);
  }

  /** Rows sorted by key are sorted by bridge and port exactly when no bridge is another
      one followed by a control character. */
  lemma SortedByPairExactly(ports: seq<PortRow>)
    requires Sorted(ports) && forall i | 0 <= i < |ports| :: ' ' !in ports[i].bridge
    ensures ByPair(ports) <==> NoneUndercuts(RowBridges(ports))
  {
    if NoneUndercuts(RowBridges(ports)) {
      forall i, j | 0 <= i < j < |ports|
        ensures !PairLess(ports[j].bridge, ports[j].port, ports[i].bridge, ports[i].port)
      {
        assert ports[i].bridge in RowBridges(ports) && ports[j].bridge in RowBridges(ports);
        KeyOrderExactly(ports[j].bridge, ports[j].port, ports[i].bridge, ports[i].port);
      }
    } else {
      var b, c :| b in RowBridges(ports) && c in RowBridges(ports) && Undercuts(b, c);
      var i :| 0 <= i < |ports| && ports[i].bridge == b;
      var j :| 0 <= j < |ports| && ports[j].bridge == c;
      if i < j {
        UndercutIsOutOfOrder(ports[i], ports[j]);
      } else {
        UndercutIsOutOfOrder(ports[j], ports[i]);
      }
    }
  }

  lemma SameBridges(bs: seq<Bridge>, ps: seq<Port>, ports: seq<PortRow>)
    requires multiset(ports) == multiset(PortRows(bs, ps))
    ensures RowBridges(ports) == PortBridges(ps)
  {
    var rows := PortRows(bs, ps);
    forall b | b in RowBridges(ports) ensures b in PortBridges(ps) {
      var r :| r in ports && r.bridge == b;
      assert r in multiset(rows);
      var k :| 0 <= k < |rows| && rows[k] == r;
      assert ps[k] in ps && ps[k].bridge == b;
    }
    forall b | b in PortBridges(ps) ensures b in RowBridges(ports) {
      var k :| 0 <= k < |ps| && ps[k].bridge == b;
      assert rows[k] in multiset(ports) && rows[k].bridge == b;
    }
  }

  /** The rows of the ports are those of the state, and they are sorted by bridge and
      then port exactly when no bridge of a port is another one's followed by a control
      character. */
  lemma PortsSortedByPair(text: string, items: seq<Item>, bridges: seq<BridgeRow>, ports: seq<PortRow>)
    requires Prints(text, items) && InRange(items) && Returns(text, bridges, ports)
    ensures multiset(ports) == multiset(PortRows(Bridges(items), Ports(items)))
    ensures ByPair(ports) <==> NoneUndercuts(PortBridges(Ports(items)))
  {
    TextCollected(text, items);
    TextWords(text, items);
    SameBridges(Bridges(items), Ports(items), ports);
    SpaceFreeRows(ports, Ports(items));
    SortedByPairExactly(ports);
  }

  lemma SpaceFreeRows(ports: seq<PortRow>, ps: seq<Port>)
    requires RowBridges(ports) == PortBridges(ps) && forall k | 0 <= k < |ps| :: Word(ps[k].bridge)
    ensures forall i | 0 <= i < |ports| :: ' ' !in ports[i].bridge
  {
    forall i | 0 <= i < |ports| ensures ' ' !in ports[i].bridge {
      assert ports[i].bridge in PortBridges(ps);
    }
  }

  predicate Plain(s: string) { forall i | 0 <= i < |s| :: s[i] > ' ' }

  /** In particular, with names of characters above the space. */
  lemma PlainPortsSorted(text: string, items: seq<Item>, bridges: seq<BridgeRow>, ports: seq<PortRow>)
    requires Prints(text, items) && InRange(items) && Returns(text, bridges, ports)
    requires forall i | 0 <= i < |Ports(items)| :: Plain(Ports(items)[i].bridge)
    ensures ByPair(ports)
  {
    PortsSortedByPair(text, items, bridges, ports);
    PlainNoneUndercuts(Ports(items));
  }

  lemma PlainNoneUndercuts(ps: seq<Port>)
    requires forall i | 0 <= i < |ps| :: Plain(ps[i].bridge)
    ensures NoneUndercuts(PortBridges(ps))
  {
    forall b, c | b in PortBridges(ps) && c in PortBridges(ps) ensures !Undercuts(b, c) {
      assert Plain(c);
    }
  }

  predicate PortShown(r: PortRow, p: Port) {
    && r.bridge == p.bridge && r.port == p.name
    && r.state == (if p.state == 0 then "disabled" else if p.state == 1 then "listening" else if p.state == 2 then "learning"
                   else if p.state == 3 then "forwarding" else if p.state == 4 then "blocking" else "")
    && r.cost == p.cost && r.priority == p.priority
  }

  lemma RowsShowPorts(bs: seq<Bridge>, ps: seq<Port>)
    ensures |PortRows(bs, ps)| == |ps| && forall i | 0 <= i < |ps| :: PortShown(PortRows(bs, ps)[i], ps[i])
  {
  }

  /** Each port has its row and each row is of a port; as many of the ones as of the others. */
  lemma EveryPortIsShown(text: string, items: seq<Item>, bridges: seq<BridgeRow>, ports: seq<PortRow>)
    requires Prints(text, items) && InRange(items) && Returns(text, bridges, ports)
    ensures |ports| == |Ports(items)|
    ensures forall p | p in Ports(items) :: exists r | r in ports :: PortShown(r, p)
    ensures forall r | r in ports :: exists p | p in Ports(items) :: PortShown(r, p)
  {
    var bs, ps := Bridges(items), Ports(items);
    var rows := PortRows(bs, ps);
    TextCollected(text, items);
    RowsShowPorts(bs, ps);
    assert |ports| == |multiset(ports)| == |multiset(rows)| == |rows|;
    EachHasOther(rows, ps, ports);
  }

  lemma EachHasOther(rows: seq<PortRow>, ps: seq<Port>, ports: seq<PortRow>)
    requires |rows| == |ps| && multiset(ports) == multiset(rows)
    requires forall i | 0 <= i < |ps| :: PortShown(rows[i], ps[i])
    ensures forall p | p in ps :: exists r | r in ports :: PortShown(r, p)
    ensures forall r | r in ports :: exists p | p in ps :: PortShown(r, p)
  {
    forall p | p in ps ensures exists r | r in ports :: PortShown(r, p) {
      var i :| 0 <= i < |ps| && ps[i] == p;
      assert rows[i] in multiset(ports);
    }
    forall r | r in ports ensures exists p | p in ps :: PortShown(r, p) {
      assert r in multiset(rows);
      var i :| 0 <= i < |rows| && rows[i] == r;
      assert ps[i] in ps;
    }
  }

  // ------------------------------------------------------------ a printer

  function LinesFor(items: seq<Item>): (lines: seq<string>)
    ensures |lines| == |items| && forall i | 0 <= i < |items| :: lines[i] == Join(Words(items[i]), " ")
  {
    if items == [] then [] else [Join(Words(items[0]), " ")] + LinesFor(items[1..])
  }

  function Print(items: seq<Item>): string { Join(LinesFor(items) + [""], "\n") }

  predicate AllWords(i: Item) { forall k | 0 <= k < |Words(i)| :: Word(Words(i)[k]) }

  lemma {:induction false} JoinedWordsLack(ws: seq<string>)
    requires forall i | 0 <= i < |ws| :: Word(ws[i])
    ensures '\n' !in Join(ws, " ")
  {
    if |ws| > 1 {
      assert forall i | 0 <= i < |ws[1..]| :: ws[1..][i] == ws[i + 1];
      JoinedWordsLack(ws[1..]);
    }
  }

  /** Every state whose fields are words has such a text. */
  lemma PrintPrints(items: seq<Item>)
    requires forall i | 0 <= i < |items| :: AllWords(items[i])
    ensures Prints(Print(items), items)
  {
    var lines := LinesFor(items) + [""];
    forall i | 0 <= i < |items| ensures '\n' !in lines[i] && Shows(lines[i], items[i]) {
      assert AllWords(items[i]);
      JoinedWordsLack(Words(items[i]));
      FieldsJoin(Words(items[i]));
    }
    SplitJoin(lines, '\n');
  }
}
