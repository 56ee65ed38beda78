/** The reader of spanning tree state (capabilities/stp_base.go): one line for each
    bridge and each port, read in any order. */
module SpanningTree {
  import opened GoStrings
  import opened GoNumbers

  datatype BridgeInfo = BridgeInfo(stp: bool, rootPort: int)

  datatype PortLine = PortLine(name: string, bridge: string, state: string, cost: string, priority: string, number: int)

  datatype BridgeRow = BridgeRow(
    bridge: string, mode: string, priority: string, bridgeId: string, rootId: string, root: string, rootPort: string)

  datatype PortRow = PortRow(bridge: string, port: string, role: string, state: string, cost: string, priority: string)

  type Names = map<string, map<int, string>>

  /** What the first pass collects. */
  datatype Collected = Collected(
    info: map<string, BridgeInfo>, names: Names, bridges: seq<BridgeRow>, portLines: seq<PortLine>)

  const NOTHING := Collected(map[], map[], [], [])

  const STATES: map<string, string> := map[
    "0" := "disabled", "1" := "listening", "2" := "learning", "3" := "forwarding", "4" := "blocking"]

  function StateName(f: string): string { if f in STATES then STATES[f] else "" }

  // ------------------------------------------------------------ first pass

  function ReadBridge(c: Collected, f: seq<string>): Collected
    requires |f| == 8
  {
    var on := f[2] == "1";
    var row := BridgeRow(f[1], if on then "stp" else "off", f[3], f[4], f[5], if f[4] == f[5] then "yes" else "no", "");
    c.(info := c.info[f[1] := BridgeInfo(on, Atoi(f[6]))], bridges := c.bridges + [row])
  }

  function WithName(names: Names, bridge: string, number: int, name: string): Names {
    names[bridge := (if bridge in names then names[bridge] else map[])[number := name]]
  }

  function ReadPort(c: Collected, f: seq<string>): Collected
    requires |f| == 7
  {
    var number := ParseInt(TrimPrefix(f[6], "0x"), 16, INT32_LIMIT);
    c.(names := WithName(c.names, f[2], number, f[1]),
       portLines := c.portLines + [PortLine(f[1], f[2], StateName(f[3]), f[4], f[5], number)])
  }

  function ReadLine(c: Collected, line: string): Collected {
    var f := Fields(line);
    if |f| == 8 && f[0] == "B" then ReadBridge(c, f)
    else if |f| == 7 && f[0] == "P" then ReadPort(c, f)
    else c
  }

  function ReadLines(lines: seq<string>): Collected {
    if lines == [] then NOTHING else ReadLine(ReadLines(lines[..|lines| - 1]), lines[|lines| - 1])
  }

  // ------------------------------------------------------------ second pass

  function Role(info: map<string, BridgeInfo>, p: PortLine): string {
    if p.bridge !in info || !info[p.bridge].stp then ""
    else if p.number == info[p.bridge].rootPort then "root"
    else if p.state == "blocking" then "alternate"
    else "designated"
  }

  function RowOf(info: map<string, BridgeInfo>, p: PortLine): PortRow {
    PortRow(p.bridge, p.name, Role(info, p), p.state, p.cost, p.priority)
  }

  function RowsOf(info: map<string, BridgeInfo>, ps: seq<PortLine>): (r: seq<PortRow>)
    ensures |r| == |ps| && forall i | 0 <= i < |r| :: r[i] == RowOf(info, ps[i])
  {
    if ps == [] then [] else RowsOf(info, ps[..|ps| - 1]) + [RowOf(info, ps[|ps| - 1])]
  }

  /** portNames[bridge][number], empty where there is none. */
  function NameAt(names: Names, bridge: string, number: int): string {
    if bridge in names && number in names[bridge] then names[bridge][number] else ""
  }

  function Patched(info: map<string, BridgeInfo>, names: Names, b: BridgeRow): BridgeRow {
    if b.bridge in info && info[b.bridge].rootPort != 0
    then b.(rootPort := NameAt(names, b.bridge, info[b.bridge].rootPort))
    else b
  }

  function AllPatched(c: Collected): (r: seq<BridgeRow>)
    ensures |r| == |c.bridges| && forall i | 0 <= i < |r| :: r[i] == Patched(c.info, c.names, c.bridges[i])
  {
    seq(|c.bridges|, i requires 0 <= i < |c.bridges| => Patched(c.info, c.names, c.bridges[i]))
  }

  function Key(p: PortRow): string { p.bridge + " " + p.port }

  predicate Sorted(ps: seq<PortRow>) {
    forall i, j | 0 <= i < j < |ps| :: !Less(Key(ps[j]), Key(ps[i]))
  }

  /** Where a row belongs in a sorted list. */
  method Place(ps: seq<PortRow>, p: PortRow) returns (k: nat)
    requires Sorted(ps)
    ensures k <= |ps|
    ensures forall i | 0 <= i < k :: !Less(Key(p), Key(ps[i]))
    ensures forall i | k <= i < |ps| :: Less(Key(p), Key(ps[i]))
  {
    k := |ps|;
    while k > 0 && Less(Key(p), Key(ps[k - 1]))
      invariant k <= |ps|
      invariant forall i | k <= i < |ps| :: Less(Key(p), Key(ps[i]))
    {
      k := k - 1;
    }
    forall i | 0 <= i < k ensures !Less(Key(p), Key(ps[i])) {
      if Less(Key(p), Key(ps[i])) && i < k - 1 {
        BelowSorted(Key(p), Key(ps[i]), Key(ps[k - 1]));
      }
    }
  }

  lemma BelowSorted(p: string, a: string, b: string)
    requires Less(p, a) && !Less(b, a)
    ensures Less(p, b)
  {
    LessTotal(a, b);
    if a != b {
      LessTransitive(p, a, b);
    }
  }

  lemma NotBoth(a: string, b: string)
    requires Less(a, b)
    ensures !Less(b, a)
  {
    if Less(b, a) {
      LessTransitive(a, b, a);
      LessIrreflexive(a);
    }
  }

  /** sort.Slice promises no more than this: sorted, and the same rows. */
  method Sort(ps: seq<PortRow>) returns (sorted: seq<PortRow>)
    ensures Sorted(sorted) && multiset(sorted) == multiset(ps)
  {
    sorted := [];
    for n := 0 to |ps|
      invariant Sorted(sorted) && multiset(sorted) == multiset(ps[..n])
    {
      var k := Place(sorted, ps[n]);
      InsertKeeps(sorted, k, ps[n]);
      assert ps[..n + 1] == ps[..n] + [ps[n]];
      sorted := sorted[..k] + [ps[n]] + sorted[k..];
    }
    assert ps[..|ps|] == ps;
  }

  lemma InsertKeeps(ps: seq<PortRow>, k: nat, p: PortRow)
    requires Sorted(ps) && k <= |ps|
    requires forall i | 0 <= i < k :: !Less(Key(p), Key(ps[i]))
    requires forall i | k <= i < |ps| :: Less(Key(p), Key(ps[i]))
    ensures Sorted(ps[..k] + [p] + ps[k..])
    ensures multiset(ps[..k] + [p] + ps[k..]) == multiset(ps) + multiset{p}
  {
    var next := ps[..k] + [p] + ps[k..];
    InsertedAt(ps, k, p);
    forall i, j | 0 <= i < j < |next| ensures !Less(Key(next[j]), Key(next[i])) {
      if i == k {
        NotBoth(Key(p), Key(ps[j - 1]));
      } else if i < k < j {
        BelowOrSame(Key(ps[j - 1]), Key(p), Key(ps[i]));
      }
    }
  }

  lemma InsertedAt(ps: seq<PortRow>, k: nat, p: PortRow)
    requires k <= |ps|
    ensures var next := ps[..k] + [p] + ps[k..];
      && |next| == |ps| + 1
      && (forall i | 0 <= i < |next| :: next[i] == if i < k then ps[i] else if i == k then p else ps[i - 1])
      && multiset(next) == multiset(ps) + multiset{p}
  {
    assert ps[..k] + ps[k..] == ps;
  }

  lemma BelowOrSame(a: string, p: string, b: string)
    requires Less(p, a) && !Less(p, b)
    ensures !Less(a, b)
  {
    if Less(a, b) {
      LessTransitive(p, a, b);
    }
  }

  /** What the reader may return: the bridges, and some sorting of the ports. */
  predicate Returns(text: string, bridges: seq<BridgeRow>, ports: seq<PortRow>) {
    var c := ReadLines(Split(text, '\n'));
    && bridges == AllPatched(c)
    && Sorted(ports)
    && multiset(ports) == multiset(RowsOf(c.info, c.portLines))
  }

  method ParseSTPSysfs(text: string) returns (bridges: seq<BridgeRow>, ports: seq<PortRow>)
    ensures Returns(text, bridges, ports)
  {
    var c := FirstPass(Split(text, '\n'));
    ports := AssignRoles(c.info, c.portLines);
    bridges := PatchBridges(c);
    ports := Sort(ports);
  }

  method FirstPass(lines: seq<string>) returns (c: Collected)
    ensures c == ReadLines(lines)
  {
    var info: map<string, BridgeInfo>, names: Names, portLines: seq<PortLine> := map[], map[], [];
    var bridges: seq<BridgeRow> := [];
    for n := 0 to |lines|
      invariant Collected(info, names, bridges, portLines) == ReadLines(lines[..n])
    {
      ghost var before := Collected(info, names, bridges, portLines);
      assert lines[..n + 1][..n] == lines[..n];
      assert ReadLines(lines[..n + 1]) == ReadLine(before, lines[n]);
      var f := Fields(lines[n]);
      if |f| == 8 && f[0] == "B" {
        var rootPort := Atoi(f[6]);
        info := info[f[1] := BridgeInfo(f[2] == "1", rootPort)];
        var mode, root := if f[2] == "1" then "stp" else "off", if f[4] == f[5] then "yes" else "no";
        bridges := bridges + [BridgeRow(f[1], mode, f[3], f[4], f[5], root, "")];
        assert Collected(info, names, bridges, portLines) == ReadBridge(before, f);
      } else if |f| == 7 && f[0] == "P" {
        var number := ParseInt(TrimPrefix(f[6], "0x"), 16, INT32_LIMIT);
        if f[2] !in names {
          names := names[f[2] := map[]];
        }
        names := names[f[2] := names[f[2]][number := f[1]]];
        assert names == WithName(before.names, f[2], number, f[1]);
        portLines := portLines + [PortLine(f[1], f[2], StateName(f[3]), f[4], f[5], number)];
        assert Collected(info, names, bridges, portLines) == ReadPort(before, f);
      }
    }
    assert lines[..|lines|] == lines;
    c := Collected(info, names, bridges, portLines);
  }

  method AssignRoles(info: map<string, BridgeInfo>, portLines: seq<PortLine>) returns (ports: seq<PortRow>)
    ensures ports == RowsOf(info, portLines)
  {
    ports := [];
    for n := 0 to |portLines|
      invariant |ports| == n && forall i | 0 <= i < n :: ports[i] == RowOf(info, portLines[i])
    {
      var p, role := portLines[n], "";
      if p.bridge in info && info[p.bridge].stp {
        if p.number == info[p.bridge].rootPort {
          role := "root";
        } else if p.state == "blocking" {
          role := "alternate";
        } else {
          role := "designated";
        }
      }
      ports := ports + [PortRow(p.bridge, p.name, role, p.state, p.cost, p.priority)];
    }
  }

  method PatchBridges(c: Collected) returns (bridges: seq<BridgeRow>)
    ensures bridges == AllPatched(c)
  {
    bridges := c.bridges;
    for n := 0 to |bridges|
      invariant |bridges| == |c.bridges|
      invariant forall i | 0 <= i < n :: bridges[i] == Patched(c.info, c.names, c.bridges[i])
      invariant forall i | n <= i < |bridges| :: bridges[i] == c.bridges[i]
    {
      var b := bridges[n];
      if b.bridge in c.info && c.info[b.bridge].rootPort != 0 {
        bridges := bridges[n := b.(rootPort := NameAt(c.names, b.bridge, c.info[b.bridge].rootPort))];
      }
    }
  }
}
