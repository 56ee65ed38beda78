/** VLANs of bridge ports (capabilities/vlan_base.go): the scripts that rewrite a
    port's VLANs whole, and what running their text leaves in the bridge's table. */
module BridgeVlan {
  import opened GoStrings

  // ------------------------------------------------------------ the scripts

  // The prelude between its semicolons, word by word.

  function IfBridge(dev: string): seq<string> { ["if", "[", "-d", "/sys/class/net/" + dev + "/bridge", "]"] }

  function ThenItself(dev: string): seq<string> { ["then", "b=" + dev] }

  const SELF := ["s=self"]

  function ElseMaster(dev: string): seq<string> {
    ["else", "b=$(ip", "link", "show", dev] + TAKE_MASTER
  }

  // | sed -n 's/.* master \([^ ]*\).*/\1/p' | head -1)
  const TAKE_MASTER := ["|", "sed", "-n", "'s/.*", "master", "\\([^", "]*\\).*/\\1/p'", "|", "head", "-1)"]
  const NOT_SELF := ["s="]
  const END_IF := ["fi"]
  const FILTER := ["[", "-n", "\"$b\"", "]", "&&", "ip", "link", "set", "\"$b\"", "type", "bridge", "vlan_filtering", "1"]

  function PreludeWords(dev: string): seq<seq<string>> {
    [IfBridge(dev), ThenItself(dev), SELF, ElseMaster(dev), NOT_SELF, END_IF, FILTER]
  }

  function Texts(ws: seq<seq<string>>): (r: seq<string>)
    ensures |r| == |ws| && forall i | 0 <= i < |r| :: r[i] == Join(ws[i], " ")
  {
    if ws == [] then [] else [Join(ws[0], " ")] + Texts(ws[1..])
  }

  function PreludeTexts(dev: string): (r: seq<string>)
    ensures |r| == 7
  {
    Texts(PreludeWords(dev))
  }

  /** Finds the device's bridge, itself or its master, and turns filtering on there;
      $s becomes `self` for a bridge. */
  function VlanPrelude(dev: string): string { Join(PreludeTexts(dev), "; ") }

  /** "bridge vlan del dev D vid 1-4094 $s" */
  function VlanFlush(dev: string): string { Join(["bridge", "vlan", "del", "dev", dev, "vid", "1-4094", "$s"], " ") }

  /** "bridge vlan add dev D vid N FLAGS $s" */
  function VlanAdd(dev: string, vlan: nat, flags: seq<string>): string {
    Join(["bridge", "vlan", "add", "dev", dev, "vid", Itoa(vlan)] + flags + ["$s"], " ")
  }

  const NATIVE_FLAGS := ["pvid", "untagged"]

  function VLANSetAccess(port: string, vlan: nat): string {
    VlanPrelude(port) + "; " + VlanFlush(port) + "; " + VlanAdd(port, vlan, NATIVE_FLAGS)
  }

  function VLANClearPort(port: string): string {
    VlanPrelude(port) + "; " + VlanFlush(port) + "; " + VlanAdd(port, 1, NATIVE_FLAGS)
  }

  /** The commands that add the tagged VLANs, leaving out the native one. */
  function TaggedAdds(port: string, vlans: seq<nat>, native: nat): seq<string> {
    if vlans == [] then []
    else
      var v := vlans[|vlans| - 1];
      TaggedAdds(port, vlans[..|vlans| - 1], native) + if v == native then [] else [VlanAdd(port, v, [])]
  }

  function NativeAdd(port: string, native: nat): seq<string> {
    if native != 0 then [VlanAdd(port, native, NATIVE_FLAGS)] else []
  }

  function TrunkScript(port: string, vlans: seq<nat>, native: nat): string {
    Join([VlanPrelude(port), VlanFlush(port)] + TaggedAdds(port, vlans, native) + NativeAdd(port, native), "; ")
  }

  method VLANSetTrunk(port: string, vlans: seq<nat>, native: nat) returns (script: string)
    ensures script == TrunkScript(port, vlans, native)
  {
    var prelude, flush := VlanPrelude(port), VlanFlush(port);
    var parts := [prelude, flush];
    for i := 0 to |vlans|
      invariant parts == [prelude, flush] + TaggedAdds(port, vlans[..i], native)
    {
      assert vlans[..i + 1][..i] == vlans[..i];
      if vlans[i] == native {
        continue;
      }
      parts := parts + [VlanAdd(port, vlans[i], [])];
    }
    assert vlans[..|vlans|] == vlans;
    if native != 0 {
      parts := parts + [VlanAdd(port, native, NATIVE_FLAGS)];
    }
    assert parts == [prelude, flush] + TaggedAdds(port, vlans, native) + NativeAdd(port, native);
    script := Join(parts, "; ");
  }

  // ------------------------------------------------------------ running them

  /** The VLANs of a port, each with whether it egresses untagged, and the PVID, 0
      when it has none. */
  datatype Port = Port(vids: map<nat, bool>, pvid: nat)

  type Table = map<string, Port>

  predicate Vid(v: nat) { 1 <= v <= 4094 }

  predicate ValidPort(p: Port) {
    && (forall v | v in p.vids :: Vid(v))
    && (p.pvid == 0 || p.pvid in p.vids)
  }

  function AddVlan(p: Port, v: nat, isPvid: bool, untagged: bool): Port {
    Port(p.vids[v := untagged], if isPvid then v else if p.pvid == v then 0 else p.pvid)
  }

  function DropVlans(p: Port): Port {
    Port(map v | v in p.vids && !Vid(v) :: p.vids[v], if Vid(p.pvid) then 0 else p.pvid)
  }

  /** What a `bridge vlan` command on a known device, in words, does to the VLAN table. */
  function ExecWords(t: Table, w: seq<string>): Table {
    if |w| < 8 || w[0] != "bridge" || w[1] != "vlan" || w[3] != "dev" || w[4] !in t || w[5] != "vid" then t
    else if w[2] == "del" && w[6] == "1-4094" then t[w[4] := DropVlans(t[w[4]])]
    else if w[2] == "add" && Numeral(w[6]) then
      t[w[4] := AddVlan(t[w[4]], Value(w[6]), "pvid" in w[7..], "untagged" in w[7..])]
    else t
  }

  function ExecPieces(t: Table, pieces: seq<string>): Table {
    if pieces == [] then t else ExecPieces(ExecWords(t, Fields(pieces[0])), pieces[1..])
  }

  // ------------------------------------------------------------ the shell

  /** The VLANs of each device, which devices are bridges, the bridge of each port, and
      the bridges that filter. */
  datatype Host = Host(ports: Table, bridges: set<string>, master: map<string, string>, filtering: set<string>)

  datatype Branch = Outside | Then | Else

  /** The variables, and where in the conditional the shell is. */
  datatype Shell = Shell(b: string, s: string, isBridge: bool, branch: Branch)

  datatype State = State(h: Host, sh: Shell)

  predicate Active(sh: Shell) { sh.branch.Outside? || (sh.branch.Then? <==> sh.isBridge) }

  predicate BridgePath(h: Host, path: string) { exists d | d in h.bridges :: path == "/sys/class/net/" + d + "/bridge" }

  function Master(h: Host, dev: string): string { if dev in h.master then h.master[dev] else "" }

  /** The commands: assignments, the look-up of a device's master, turning filtering on
      or off on a bridge that was found, and VLAN commands, which for a bridge want
      `self` and for a port must not have it. */
  function Simple(st: State, w: seq<string>): State {
    if |w| == 1 && "b=" <= w[0] then st.(sh := st.sh.(b := w[0][2..]))
    else if |w| == 1 && "s=" <= w[0] then st.(sh := st.sh.(s := w[0][2..]))
    else if |w| == 14 && w[0] == "b=$(ip" && w[1] == "link" && w[2] == "show" && w[4..]
      == ["|", "sed", "-n", "'s/.*", "master", "\\([^", "]*\\).*/\\1/p'", "|", "head", "-1)"]
    then st.(sh := st.sh.(b := Master(st.h, w[3])))
    else if |w| == 13 && w[..12]
      == ["[", "-n", "\"$b\"", "]", "&&", "ip", "link", "set", "\"$b\"", "type", "bridge", "vlan_filtering"]
    then
      if st.sh.b == "" then st
      else st.(h := st.h.(filtering := if w[12] == "1" then st.h.filtering + {st.sh.b} else st.h.filtering - {st.sh.b}))
    else if |w| >= 5 && w[0] == "bridge" && w[1] == "vlan" && (w[4] in st.h.bridges <==> st.sh.s == "self")
    then st.(h := st.h.(ports := ExecWords(st.h.ports, w)))
    else st
  }

  function Step(st: State, w: seq<string>): State {
    if w == [] then st
    else if w[0] == "if" then
      st.(sh := st.sh.(isBridge := |w| == 5 && w[1] == "[" && w[2] == "-d" && BridgePath(st.h, w[3]) && w[4] == "]"))
    else if w[0] == "then" then Taken(st.(sh := st.sh.(branch := Then)), w[1..])
    else if w[0] == "else" then Taken(st.(sh := st.sh.(branch := Else)), w[1..])
    else if w == ["fi"] then st.(sh := st.sh.(branch := Outside))
    else Taken(st, w)
  }

  function Taken(st: State, w: seq<string>): State { if Active(st.sh) then Simple(st, w) else st }

  function Run(st: State, pieces: seq<string>): State
    decreases |pieces|
  {
    if pieces == [] then st else Run(Step(st, Fields(pieces[0])), pieces[1..])
  }

  const FRESH := Shell("", "", false, Outside)

  /** Running a script in a shell of its own: its commands are what semicolons separate. */
  function Exec(h: Host, script: string): Host { Run(State(h, FRESH), Split(script, ';')).h }

  lemma {:induction false} RunConcat(st: State, xs: seq<string>, ys: seq<string>)
    ensures Run(st, xs + ys) == Run(Run(st, xs), ys)
    decreases |xs|
  {
    if xs == [] {
      assert xs + ys == ys;
    } else {
      assert (xs + ys)[1..] == xs[1..] + ys;
      RunConcat(Step(st, Fields(xs[0])), xs[1..], ys);
    }
  }

  lemma {:induction false} ExecPiecesConcat(t: Table, xs: seq<string>, ys: seq<string>)
    ensures ExecPieces(t, xs + ys) == ExecPieces(ExecPieces(t, xs), ys)
    decreases |xs|
  {
    if xs == [] {
      assert xs + ys == ys;
    } else {
      assert (xs + ys)[1..] == xs[1..] + ys;
      ExecPiecesConcat(ExecWords(t, Fields(xs[0])), xs[1..], ys);
    }
  }

  // ------------------------------------------------------------ words of the commands

  lemma FlushFields(dev: string)
    requires Word(dev)
    ensures Fields(VlanFlush(dev)) == ["bridge", "vlan", "del", "dev", dev, "vid", "1-4094", "$s"]
  {
    FieldsJoin(["bridge", "vlan", "del", "dev", dev, "vid", "1-4094", "$s"]);
  }

  lemma AddFields(dev: string, vlan: nat, flags: seq<string>)
    requires Word(dev)
    requires flags == [] || flags == NATIVE_FLAGS
    ensures Fields(VlanAdd(dev, vlan, flags))
         == ["bridge", "vlan", "add", "dev", dev, "vid", Itoa(vlan)] + flags + ["$s"]
  {
    FieldsJoin(["bridge", "vlan", "add", "dev", dev, "vid", Itoa(vlan)] + flags + ["$s"]);
  }

  // ------------------------------------------------------------ each command

  lemma ExecFlush(t: Table, dev: string)
    requires Word(dev) && dev in t
    ensures ExecWords(t, Fields(VlanFlush(dev))) == t[dev := DropVlans(t[dev])]
  {
    FlushFields(dev);
  }

  lemma ExecAddWords(t: Table, dev: string, n: string, flags: seq<string>)
    requires dev in t && Numeral(n)
    ensures ExecWords(t, ["bridge", "vlan", "add", "dev", dev, "vid", n] + flags + ["$s"])
         == t[dev := AddVlan(t[dev], Value(n), "pvid" in flags + ["$s"], "untagged" in flags + ["$s"])]
  {
    var w := ["bridge", "vlan", "add", "dev", dev, "vid", n] + flags + ["$s"];
    assert w[7..] == flags + ["$s"];
  }

  lemma ExecAdd(t: Table, dev: string, vlan: nat, native: bool)
    requires Word(dev) && dev in t
    ensures ExecWords(t, Fields(VlanAdd(dev, vlan, if native then NATIVE_FLAGS else [])))
         == t[dev := AddVlan(t[dev], vlan, native, native)]
  {
    var flags := if native then NATIVE_FLAGS else [];
    AddFields(dev, vlan, flags);
    ItoaValue(vlan);
    ExecAddWords(t, dev, Itoa(vlan), flags);
    assert native ==> flags[0] == "pvid" && flags[1] == "untagged";
  }

  // ------------------------------------------------------------ the prelude

  lemma SamePath(dev: string, d: string)
    requires "/sys/class/net/" + dev + "/bridge" == "/sys/class/net/" + d + "/bridge"
    ensures dev == d
  {
    SameMiddle("/sys/class/net/", dev, d, "/bridge");
  }

  lemma SameMiddle(a: string, x: string, y: string, b: string)
    requires a + x + b == a + y + b
    ensures x == y
  {
    var s := a + x + b;
    assert |x| == |y|;
    assert s[|a|..|a| + |x|] == x && s[|a|..|a| + |y|] == y;
  }

  lemma StepIf(st: State, dev: string)
    ensures Step(st, IfBridge(dev)) == st.(sh := st.sh.(isBridge := dev in st.h.bridges))
  {
    if d :| d in st.h.bridges && "/sys/class/net/" + dev + "/bridge" == "/sys/class/net/" + d + "/bridge" {
      SamePath(dev, d);
    }
  }

  lemma StepThen(st: State, dev: string)
    ensures Step(st, ThenItself(dev))
         == st.(sh := st.sh.(branch := Then, b := if st.sh.isBridge then dev else st.sh.b))
  {
    var w := ThenItself(dev);
    assert w[1..] == ["b=" + dev];
    assert ("b=" + dev)[2..] == dev;
  }

  lemma StepSelf(st: State, w: seq<string>, value: string)
    requires w == ["s=" + value]
    ensures Step(st, w) == if Active(st.sh) then st.(sh := st.sh.(s := value)) else st
  {
    assert w[0][0] == 's' && w[0][1] == '=';
    assert w[0][2..] == value;
    assert "if"[0] == 'i' && "then"[0] == 't' && "else"[0] == 'e' && "fi"[0] == 'f' && "b="[0] == 'b';
  }

  lemma StepElse(st: State, dev: string)
    ensures Step(st, ElseMaster(dev))
         == st.(sh := st.sh.(branch := Else, b := if st.sh.isBridge then st.sh.b else Master(st.h, dev)))
  {
    var w := ElseMaster(dev);
    var v := ["b=$(ip", "link", "show", dev] + TAKE_MASTER;
    assert w[1..] == v;
    assert v[4..] == TAKE_MASTER;
    var st' := st.(sh := st.sh.(branch := Else));
    assert Step(st, w) == Taken(st', v);
  }

  lemma StepFi(st: State)
    ensures Step(st, END_IF) == st.(sh := st.sh.(branch := Outside))
  {
  }

  lemma StepFilter(st: State)
    requires st.sh.branch.Outside?
    ensures Step(st, FILTER)
         == if st.sh.b == "" then st else st.(h := st.h.(filtering := st.h.filtering + {st.sh.b}))
  {
    assert FILTER[..12]
      == ["[", "-n", "\"$b\"", "]", "&&", "ip", "link", "set", "\"$b\"", "type", "bridge", "vlan_filtering"];
  }

  function RunWords(st: State, ws: seq<seq<string>>): State
    decreases |ws|
  {
    if ws == [] then st else RunWords(Step(st, ws[0]), ws[1..])
  }

  /** The bridge a device's VLANs are on: itself if it is one, else its master. */
  function BridgeOf(h: Host, dev: string): string { if dev in h.bridges then dev else Master(h, dev) }

  /** What the prelude comes to. */
  function AfterPrelude(h: Host, dev: string): State {
    State(if BridgeOf(h, dev) == "" then h else h.(filtering := h.filtering + {BridgeOf(h, dev)}),
          Shell(BridgeOf(h, dev), if dev in h.bridges then "self" else "", dev in h.bridges, Outside))
  }

  lemma RunNext(st: State, w: seq<string>, rest: seq<seq<string>>)
    ensures RunWords(st, [w] + rest) == RunWords(Step(st, w), rest)
  {
    assert ([w] + rest)[1..] == rest;
  }

  lemma RunSeven(st: State, a: seq<string>, b: seq<string>, c: seq<string>, d: seq<string>, e: seq<string>, f: seq<string>, g: seq<string>)
    ensures RunWords(st, [a, b, c, d, e, f, g])
         == Step(Step(Step(Step(Step(Step(Step(st, a), b), c), d), e), f), g)
  {
    RunThree(st, a, b, c, [d, e, f, g]);
    RunThree(Step(Step(Step(st, a), b), c), d, e, f, [g]);
    assert [a, b, c] + [d, e, f, g] == [a, b, c, d, e, f, g] && [d, e, f] + [g] == [d, e, f, g];
    RunNext(Step(Step(Step(Step(Step(Step(st, a), b), c), d), e), f), g, []);
    assert [g] + [] == [g];
  }

  lemma RunThree(st: State, a: seq<string>, b: seq<string>, c: seq<string>, rest: seq<seq<string>>)
    ensures RunWords(st, [a, b, c] + rest) == RunWords(Step(Step(Step(st, a), b), c), rest)
  {
    RunNext(st, a, [b] + ([c] + rest));
    RunNext(Step(st, a), b, [c] + rest);
    RunNext(Step(Step(st, a), b), c, rest);
    assert [a] + ([b] + ([c] + rest)) == [a, b, c] + rest;
  }

  lemma PreludeRuns(h: Host, dev: string)
    requires dev != ""
    ensures RunWords(State(h, FRESH), PreludeWords(dev)) == AfterPrelude(h, dev)
  {
    var st := State(h, FRESH);
    RunSeven(st, IfBridge(dev), ThenItself(dev), SELF, ElseMaster(dev), NOT_SELF, END_IF, FILTER);
    StepIf(st, dev);
    st := Step(st, IfBridge(dev));
    StepThen(st, dev);
    st := Step(st, ThenItself(dev));
    assert "s=" + "self" == "s=self" && "s=" + "" == "s=";
    StepSelf(st, SELF, "self");
    st := Step(st, SELF);
    StepElse(st, dev);
    st := Step(st, ElseMaster(dev));
    StepSelf(st, NOT_SELF, "");
    st := Step(st, NOT_SELF);
    StepFi(st);
    st := Step(st, END_IF);
    StepFilter(st);
  }

  lemma {:induction false} RunTexts(st: State, ws: seq<seq<string>>)
    requires forall i | 0 <= i < |ws| :: forall k | 0 <= k < |ws[i]| :: Word(ws[i][k])
    ensures Run(st, Spaced(Texts(ws))) == RunWords(st, ws)
    decreases |ws|
  {
    if ws != [] {
      FieldsJoin(ws[0]);
      FieldsSpace(' ', Join(ws[0], " "));
      assert " " + Join(ws[0], " ") == [' '] + Join(ws[0], " ");
      assert forall i | 0 <= i < |ws[1..]| :: ws[1..][i] == ws[i + 1];
      RunTexts(Step(st, ws[0]), ws[1..]);
      assert Spaced(Texts(ws))[1..] == Spaced(Texts(ws[1..]));
    }
  }

  // ------------------------------------------------------------ the text of a script

  function Spaced(parts: seq<string>): (r: seq<string>)
    ensures |r| == |parts| && forall i | 0 <= i < |r| :: r[i] == " " + parts[i]
  {
    if parts == [] then [] else [" " + parts[0]] + Spaced(parts[1..])
  }

  lemma {:induction false} SplitSpaced(parts: seq<string>)
    requires parts != []
    requires forall i | 0 <= i < |parts| :: ';' !in parts[i]
    ensures Split(" " + Join(parts, "; "), ';') == Spaced(parts)
  {
    var first := " " + parts[0];
    if |parts| == 1 {
      SplitPiece(first, "", ';');
    } else {
      assert forall i | 0 <= i < |parts[1..]| :: parts[1..][i] == parts[i + 1];
      SplitSpaced(parts[1..]);
      var rest := Join(parts[1..], "; ");
      SplitPiece(first, " " + rest, ';');
      assert " " + Join(parts, "; ") == first + [';'] + (" " + rest);
    }
  }

  predicate CleanWord(w: string) { Word(w) && ';' !in w }

  lemma CleanConcat(a: string, b: string)
    requires CleanWord(a) && (b == "" || CleanWord(b))
    ensures CleanWord(a + b)
  {
    assert b == "" ==> a + b == a;
  }

  lemma CleanNames(dev: string)
    requires CleanWord(dev)
    ensures CleanWord("/sys/class/net/" + dev + "/bridge") && CleanWord("b=" + dev)
  {
    CleanConcat("/sys/class/net/", dev);
    CleanConcat("/sys/class/net/" + dev, "/bridge");
    CleanConcat("b=", dev);
  }

  lemma CleanFixed()
    ensures forall k | 0 <= k < |TAKE_MASTER| :: CleanWord(TAKE_MASTER[k])
    ensures forall k | 0 <= k < |FILTER| :: CleanWord(FILTER[k])
    ensures CleanWord(SELF[0]) && CleanWord(NOT_SELF[0]) && CleanWord(END_IF[0])
  {
  }

  lemma PreludeIsClean(dev: string)
    requires CleanWord(dev)
    ensures forall i | 0 <= i < |PreludeWords(dev)| :: forall k | 0 <= k < |PreludeWords(dev)[i]| :: CleanWord(PreludeWords(dev)[i][k])
  {
    CleanNames(dev);
    CleanFixed();
  }

  lemma {:induction false} JoinLacks(xs: seq<string>, sep: string, c: char)
    requires c !in sep
    requires forall i | 0 <= i < |xs| :: c !in xs[i]
    ensures c !in Join(xs, sep)
  {
    if |xs| > 1 {
      assert forall i | 0 <= i < |xs[1..]| :: xs[1..][i] == xs[i + 1];
      JoinLacks(xs[1..], sep, c);
    }
  }

  /** A VLAN command on the device. */
  predicate CommandOn(cmd: string, dev: string) {
    ';' !in cmd && var w := Fields(cmd); |w| >= 8 && w[0] == "bridge" && w[1] == "vlan" && w[4] == dev
  }

  lemma FlushIsCommand(dev: string)
    requires CleanWord(dev)
    ensures CommandOn(VlanFlush(dev), dev)
  {
    FlushFields(dev);
    JoinLacks(["bridge", "vlan", "del", "dev", dev, "vid", "1-4094", "$s"], " ", ';');
  }

  lemma AddIsCommand(dev: string, vlan: nat, flags: seq<string>)
    requires CleanWord(dev)
    requires flags == [] || flags == NATIVE_FLAGS
    ensures CommandOn(VlanAdd(dev, vlan, flags), dev)
  {
    AddFields(dev, vlan, flags);
    JoinLacks(["bridge", "vlan", "add", "dev", dev, "vid", Itoa(vlan)] + flags + ["$s"], " ", ';');
  }

  /** After the prelude VLAN commands on the device work on its VLANs. */
  lemma {:induction false} RunCommands(st: State, dev: string, cmds: seq<string>)
    requires forall i | 0 <= i < |cmds| :: CommandOn(cmds[i], dev)
    requires st.sh.branch.Outside? && (dev in st.h.bridges <==> st.sh.s == "self")
    ensures Run(st, Spaced(cmds)) == st.(h := st.h.(ports := ExecPieces(st.h.ports, Spaced(cmds))))
    decreases |cmds|
  {
    if cmds != [] {
      var cmd := cmds[0];
      FieldsSpace(' ', cmd);
      assert " " + cmd == [' '] + cmd;
      StepCommand(st, dev, Fields(cmd));
      assert Spaced(cmds)[1..] == Spaced(cmds[1..]);
      RunCommands(Step(st, Fields(cmd)), dev, cmds[1..]);
    }
  }

  lemma StepCommand(st: State, dev: string, w: seq<string>)
    requires |w| >= 8 && w[0] == "bridge" && w[1] == "vlan" && w[4] == dev
    requires st.sh.branch.Outside? && (dev in st.h.bridges <==> st.sh.s == "self")
    ensures Step(st, w) == st.(h := st.h.(ports := ExecWords(st.h.ports, w)))
  {
    assert "bridge"[0] == 'b' && "if"[0] == 'i' && "then"[0] == 't' && "else"[0] == 'e' && "b=$(ip"[1] == '=' && "bridge"[1] == 'r';
    assert |w| == 13 ==> w[..12][0] == w[0];
  }

  lemma {:induction false} SpacedTexts(ws: seq<seq<string>>)
    requires forall i | 0 <= i < |ws| :: forall k | 0 <= k < |ws[i]| :: CleanWord(ws[i][k])
    ensures forall i | 0 <= i < |Texts(ws)| :: ';' !in Texts(ws)[i]
  {
    forall i | 0 <= i < |ws| ensures ';' !in Join(ws[i], " ") {
      JoinLacks(ws[i], " ", ';');
    }
  }

  /** A space in front of the whole script changes nothing. */
  lemma FirstSpaced(st: State, script: string)
    ensures Run(st, Split(" " + script, ';')) == Run(st, Split(script, ';'))
  {
    var p, q := Split(" " + script, ';'), Split(script, ';');
    assert (" " + script)[1..] == script;
    FieldsSpace(' ', q[0]);
    assert p == [[' '] + q[0]] + q[1..];
    assert p[1..] == q[1..];
  }

  lemma JoinAppend(xs: seq<string>, ys: seq<string>, sep: string)
    requires xs != [] && ys != []
    ensures Join(xs + ys, sep) == Join(xs, sep) + sep + Join(ys, sep)
  {
    if |xs| == 1 {
      assert (xs + ys)[1..] == ys;
    } else {
      assert (xs + ys)[1..] == xs[1..] + ys;
      JoinAppend(xs[1..], ys, sep);
      assert xs[0] + sep + (Join(xs[1..], sep) + sep + Join(ys, sep)) == xs[0] + sep + Join(xs[1..], sep) + sep + Join(ys, sep);
    }
  }

  predicate SemicolonFree(parts: seq<string>) { forall i | 0 <= i < |parts| :: ';' !in parts[i] }

  /** Running the text of a script is running its parts. */
  lemma RunParts(st: State, parts: seq<string>)
    requires parts != [] && SemicolonFree(parts)
    ensures Run(st, Split(Join(parts, "; "), ';')) == Run(st, Spaced(parts))
  {
    FirstSpaced(st, Join(parts, "; "));
    SplitSpaced(parts);
  }

  lemma ScriptParts(pre: seq<string>, cmds: seq<string>)
    requires pre != [] && cmds != []
    ensures Join([Join(pre, "; ")] + cmds, "; ") == Join(pre + cmds, "; ")
  {
    JoinAppend([Join(pre, "; ")], cmds, "; ");
    JoinAppend(pre, cmds, "; ");
  }

  lemma RunPrelude(h: Host, dev: string)
    requires CleanWord(dev)
    ensures SemicolonFree(PreludeTexts(dev))
    ensures Run(State(h, FRESH), Spaced(PreludeTexts(dev))) == AfterPrelude(h, dev)
  {
    PreludeIsClean(dev);
    SpacedTexts(PreludeWords(dev));
    RunTexts(State(h, FRESH), PreludeWords(dev));
    PreludeRuns(h, dev);
  }

  lemma ScriptRuns(h: Host, dev: string, pre: seq<string>, cmds: seq<string>)
    requires pre != [] && cmds != []
    requires SemicolonFree(pre)
    requires Run(State(h, FRESH), Spaced(pre)) == AfterPrelude(h, dev)
    requires forall i | 0 <= i < |cmds| :: CommandOn(cmds[i], dev)
    ensures Exec(h, Join([Join(pre, "; ")] + cmds, "; "))
         == AfterPrelude(h, dev).h.(ports := ExecPieces(h.ports, Spaced(cmds)))
  {
    var st := State(h, FRESH);
    ScriptParts(pre, cmds);
    RunParts(st, pre + cmds);
    SpacedConcat(pre, cmds);
    RunConcat(st, Spaced(pre), Spaced(cmds));
    RunCommands(AfterPrelude(h, dev), dev, cmds);
  }

  /** A script is its prelude, which turns filtering on for the device's bridge, and then
      its commands on the device. */
  lemma ExecScript(h: Host, dev: string, cmds: seq<string>)
    requires CleanWord(dev) && cmds != []
    requires forall i | 0 <= i < |cmds| :: CommandOn(cmds[i], dev)
    ensures Exec(h, Join([VlanPrelude(dev)] + cmds, "; "))
         == AfterPrelude(h, dev).h.(ports := ExecPieces(h.ports, Spaced(cmds)))
  {
    RunPrelude(h, dev);
    ScriptRuns(h, dev, PreludeTexts(dev), cmds);
  }

  lemma SpacedConcat(xs: seq<string>, ys: seq<string>)
    ensures Spaced(xs + ys) == Spaced(xs) + Spaced(ys)
  {
  }

  lemma ExecOne(t: Table, cmd: string)
    ensures ExecPieces(t, Spaced([cmd])) == ExecWords(t, Fields(cmd))
  {
    FieldsSpace(' ', cmd);
    assert " " + cmd == [' '] + cmd;
    var p := Spaced([cmd]);
    assert p[1..] == [];
  }

  // ------------------------------------------------------------ what is left

  /** The tagged VLANs asked for; the native one is not among them. */
  function Tagged(vlans: seq<nat>, native: nat): map<nat, bool> {
    map v | v in vlans && v != native :: false
  }

  /** Exactly the requested VLANs, and only the native one untagged. */
  function Requested(vlans: seq<nat>, native: nat): Port {
    Port(if native == 0 then Tagged(vlans, 0) else Tagged(vlans, native)[native := true], native)
  }

  lemma {:induction false} ExecTagged(t: Table, dev: string, vlans: seq<nat>, native: nat)
    requires Word(dev) && dev in t && t[dev] == Port(map[], 0)
    requires forall i | 0 <= i < |vlans| :: Vid(vlans[i])
    ensures ExecPieces(t, Spaced(TaggedAdds(dev, vlans, native))) == t[dev := Port(Tagged(vlans, native), 0)]
  {
    if vlans == [] {
      assert Tagged(vlans, native) == map[];
    } else {
      var k := |vlans| - 1;
      var v, most := vlans[k], vlans[..k];
      assert vlans == most + [v];
      ExecTagged(t, dev, most, native);
      TaggedSnoc(most, v, native);
      if v == native {
        assert TaggedAdds(dev, vlans, native) == TaggedAdds(dev, most, native);
      } else {
        ExecOneMore(t, dev, TaggedAdds(dev, most, native), Tagged(most, native), v);
      }
    }
  }

  lemma TaggedSnoc(vlans: seq<nat>, v: nat, native: nat)
    ensures Tagged(vlans + [v], native)
         == if v == native then Tagged(vlans, native) else Tagged(vlans, native)[v := false]
  {
  }

  lemma ExecOneMore(t: Table, dev: string, cmds: seq<string>, vids: map<nat, bool>, v: nat)
    requires Word(dev) && dev in t && v != 0
    requires ExecPieces(t, Spaced(cmds)) == t[dev := Port(vids, 0)]
    ensures ExecPieces(t, Spaced(cmds + [VlanAdd(dev, v, [])])) == t[dev := Port(vids[v := false], 0)]
  {
    var cmd := VlanAdd(dev, v, []);
    var t' := t[dev := Port(vids, 0)];
    SpacedConcat(cmds, [cmd]);
    ExecPiecesConcat(t, Spaced(cmds), Spaced([cmd]));
    ExecOne(t', cmd);
    ExecAdd(t', dev, v, false);
  }

  lemma {:induction false} TaggedAddsAreCommands(port: string, vlans: seq<nat>, native: nat)
    requires CleanWord(port)
    ensures forall i | 0 <= i < |TaggedAdds(port, vlans, native)| :: CommandOn(TaggedAdds(port, vlans, native)[i], port)
  {
    if vlans != [] {
      TaggedAddsAreCommands(port, vlans[..|vlans| - 1], native);
      AddIsCommand(port, vlans[|vlans| - 1], []);
    }
  }

  lemma FlushEmpties(p: Port)
    requires ValidPort(p)
    ensures DropVlans(p) == Port(map[], 0)
  {
  }

  lemma ExecNative(t: Table, dev: string, vlans: seq<nat>, native: nat)
    requires Word(dev) && dev in t && t[dev] == Port(Tagged(vlans, native), 0)
    ensures ExecPieces(t, Spaced(NativeAdd(dev, native))) == t[dev := Requested(vlans, native)]
  {
    if native != 0 {
      var cmd := VlanAdd(dev, native, NATIVE_FLAGS);
      ExecOne(t, cmd);
      ExecAdd(t, dev, native, true);
    }
  }

  /** The device has VLANs and is a bridge or a port of one. */
  predicate OnBridge(h: Host, dev: string) { dev in h.ports && BridgeOf(h, dev) != "" }

  /** After a trunk is set, from any valid state of the device, it has exactly the
      requested VLANs and native VLAN, its bridge filters, and nothing else has changed. */
  lemma TrunkLeavesExactlyRequested(h: Host, dev: string, vlans: seq<nat>, native: nat)
    requires CleanWord(dev) && OnBridge(h, dev) && ValidPort(h.ports[dev])
    requires forall i | 0 <= i < |vlans| :: Vid(vlans[i])
    requires native == 0 || Vid(native)
    ensures Exec(h, TrunkScript(dev, vlans, native))
         == h.(ports := h.ports[dev := Requested(vlans, native)], filtering := h.filtering + {BridgeOf(h, dev)})
  {
    var tagged, last := TaggedAdds(dev, vlans, native), NativeAdd(dev, native);
    var cmds := [VlanFlush(dev)] + tagged + last;
    TaggedAddsAreCommands(dev, vlans, native);
    FlushIsCommand(dev);
    AddIsCommand(dev, native, NATIVE_FLAGS);
    assert [VlanPrelude(dev), VlanFlush(dev)] + tagged + last == [VlanPrelude(dev)] + cmds;
    ExecScript(h, dev, cmds);
    ExecCommands(h.ports, dev, vlans, native);
  }

  lemma ExecCommands(t: Table, dev: string, vlans: seq<nat>, native: nat)
    requires Word(dev) && dev in t && ValidPort(t[dev])
    requires forall i | 0 <= i < |vlans| :: Vid(vlans[i])
    ensures ExecPieces(t, Spaced([VlanFlush(dev)] + TaggedAdds(dev, vlans, native) + NativeAdd(dev, native)))
         == t[dev := Requested(vlans, native)]
  {
    var flush, tagged, last := [VlanFlush(dev)], TaggedAdds(dev, vlans, native), NativeAdd(dev, native);
    ExecInTurn(t, flush + tagged, last);
    ExecInTurn(t, flush, tagged);
    ExecFlushFirst(t, dev);
    var t1 := t[dev := Port(map[], 0)];
    ExecTagged(t1, dev, vlans, native);
    var t2 := t1[dev := Port(Tagged(vlans, native), 0)];
    ExecNative(t2, dev, vlans, native);
    assert t2[dev := Requested(vlans, native)] == t[dev := Requested(vlans, native)];
  }

  lemma ExecInTurn(t: Table, xs: seq<string>, ys: seq<string>)
    ensures ExecPieces(t, Spaced(xs + ys)) == ExecPieces(ExecPieces(t, Spaced(xs)), Spaced(ys))
  {
    SpacedConcat(xs, ys);
    ExecPiecesConcat(t, Spaced(xs), Spaced(ys));
  }

  lemma ExecFlushFirst(t: Table, dev: string)
    requires Word(dev) && dev in t && ValidPort(t[dev])
    ensures ExecPieces(t, Spaced([VlanFlush(dev)])) == t[dev := Port(map[], 0)]
  {
    ExecOne(t, VlanFlush(dev));
    ExecFlush(t, dev);
    FlushEmpties(t[dev]);
  }

  /** The two scripts written out by hand are the one joined from parts for a trunk
      that carries nothing but its native VLAN. */
  lemma AccessIsTrunkOfNative(port: string, vlan: nat)
    requires vlan != 0
    ensures VLANSetAccess(port, vlan) == TrunkScript(port, [], vlan)
    ensures VLANClearPort(port) == VLANSetAccess(port, 1)
  {
    var a, b, c := VlanPrelude(port), VlanFlush(port), VlanAdd(port, vlan, NATIVE_FLAGS);
    assert [a, b] + TaggedAdds(port, [], vlan) + NativeAdd(port, vlan) == [a, b, c];
    JoinThree(a, b, c, "; ");
  }

  lemma JoinThree(a: string, b: string, c: string, sep: string)
    ensures Join([a, b, c], sep) == a + sep + b + sep + c
  {
    assert [a, b, c][1..] == [b, c];
    assert [b, c][1..] == [c];
    assert Join([b, c], sep) == b + sep + c;
    assert a + sep + (b + sep + c) == a + sep + b + sep + c;
  }

  // ------------------------------------------------------------ histories of sets

  datatype Operation =
    | Access(port: string, vlan: nat)
    | Trunk(port: string, vlans: seq<nat>, native: nat)
    | Clear(port: string)

  function Script(o: Operation): string {
    match o
    case Access(p, v) => VLANSetAccess(p, v)
    case Trunk(p, vs, n) => TrunkScript(p, vs, n)
    case Clear(p) => VLANClearPort(p)
  }

  predicate ValidOperation(o: Operation) {
    match o
    case Access(_, v) => Vid(v)
    case Trunk(_, vs, n) => (forall i | 0 <= i < |vs| :: Vid(vs[i])) && (n == 0 || Vid(n))
    case Clear(_) => true
  }

  /** The state an operation asks for: a cleared port is back on VLAN 1, untagged. */
  function Wanted(o: Operation): Port {
    match o
    case Access(_, v) => Port(map[v := true], v)
    case Trunk(_, vs, n) => Requested(vs, n)
    case Clear(_) => Port(map[1 := true], 1)
  }

  lemma OperationLeavesExactlyWanted(h: Host, o: Operation)
    requires ValidOperation(o) && CleanWord(o.port) && OnBridge(h, o.port) && ValidPort(h.ports[o.port])
    ensures Exec(h, Script(o))
         == h.(ports := h.ports[o.port := Wanted(o)], filtering := h.filtering + {BridgeOf(h, o.port)})
    ensures ValidPort(Wanted(o))
  {
    match o {
      case Trunk(p, vs, n) => TrunkLeavesExactlyRequested(h, p, vs, n);
      case Access(p, v) =>
        AccessIsTrunkOfNative(p, v);
        TrunkLeavesExactlyRequested(h, p, [], v);
        assert Requested([], v) == Wanted(o);
      case Clear(p) =>
        AccessIsTrunkOfNative(p, 1);
        TrunkLeavesExactlyRequested(h, p, [], 1);
        assert Requested([], 1) == Wanted(o);
    }
  }

  function ExecAll(h: Host, os: seq<Operation>): Host {
    if os == [] then h else Exec(ExecAll(h, os[..|os| - 1]), Script(os[|os| - 1]))
  }

  predicate Possible(h: Host, os: seq<Operation>) {
    && (forall p | p in h.ports :: ValidPort(h.ports[p]))
    && forall i | 0 <= i < |os| :: Doable(h, os[i])
  }

  predicate Doable(h: Host, o: Operation) { ValidOperation(o) && CleanWord(o.port) && OnBridge(h, o.port) }

  /** The bridges operations were on. */
  function BridgesOf(h: Host, os: seq<Operation>): set<string> { set o | o in os :: BridgeOf(h, o.port) }

  predicate Untouched(os: seq<Operation>, from: nat, port: string)
    requires from <= |os|
  {
    forall i | from <= i < |os| :: os[i].port != port
  }

  /** What is left of a port is decided by the last operation on it. */
  predicate Decided(t: Table, os: seq<Operation>, port: string, p: Port)
    requires port in t
  {
    if Untouched(os, 0, port) then p == t[port]
    else exists k | 0 <= k < |os| :: os[k].port == port && Untouched(os, k + 1, port) && p == Wanted(os[k])
  }

  /** What is left after the operations: the ports as the last one on each decided, the
      bridges of the operations filtering, and all else as it was. */
  ghost predicate Left(h: Host, os: seq<Operation>, now: Host) {
    && now.bridges == h.bridges && now.master == h.master
    && now.filtering == h.filtering + BridgesOf(h, os)
    && now.ports.Keys == h.ports.Keys
    && forall port | port in h.ports :: ValidPort(now.ports[port]) && Decided(h.ports, os, port, now.ports[port])
  }

  /** The last operation on each device wins: what came before it, and operations on
      other devices, leave no trace.  Exactly the bridges of the operations have come to
      filter. */
  lemma {:induction false} LastSetWins(h: Host, os: seq<Operation>)
    requires Possible(h, os)
    ensures Left(h, os, ExecAll(h, os))
  {
    if os == [] {
      LeftNothing(h);
    } else {
      var most, o := os[..|os| - 1], os[|os| - 1];
      LastSetWins(h, most);
      StillDoable(h, most, o, ExecAll(h, most));
      LastExec(h, os, o, ExecAll(h, most));
      LastLeft(h, os, ExecAll(h, most), ExecAll(h, os));
    }
  }

  lemma LeftNothing(h: Host)
    requires forall p | p in h.ports :: ValidPort(h.ports[p])
    ensures Left(h, [], h)
  {
    assert BridgesOf(h, []) == {};
  }

  lemma LastExec(h: Host, os: seq<Operation>, o: Operation, was: Host)
    requires os != [] && o == os[|os| - 1] && was == ExecAll(h, os[..|os| - 1])
    requires Doable(was, o) && ValidPort(was.ports[o.port])
    ensures ExecAll(h, os)
         == was.(ports := was.ports[o.port := Wanted(o)], filtering := was.filtering + {BridgeOf(was, o.port)})
    ensures ValidPort(Wanted(o))
  {
    OperationLeavesExactlyWanted(was, o);
  }

  /** Which device is on which bridge does not change. */
  lemma StillDoable(h: Host, os: seq<Operation>, o: Operation, was: Host)
    requires Doable(h, o) && Left(h, os, was)
    ensures Doable(was, o) && ValidPort(was.ports[o.port]) && BridgeOf(was, o.port) == BridgeOf(h, o.port)
  {
  }

  lemma LastLeft(h: Host, os: seq<Operation>, was: Host, now: Host)
    requires os != [] && Left(h, os[..|os| - 1], was)
    requires os[|os| - 1].port in h.ports && ValidPort(Wanted(os[|os| - 1]))
    requires now == was.(ports := was.ports[os[|os| - 1].port := Wanted(os[|os| - 1])],
                         filtering := was.filtering + {BridgeOf(h, os[|os| - 1].port)})
    ensures Left(h, os, now)
  {
    var most, o := os[..|os| - 1], os[|os| - 1];
    LeftSnoc(h, most, o, was, now);
    assert most + [o] == os;
  }

  lemma LeftSnoc(h: Host, most: seq<Operation>, o: Operation, was: Host, now: Host)
    requires Left(h, most, was) && o.port in h.ports && ValidPort(Wanted(o))
    requires now == was.(ports := was.ports[o.port := Wanted(o)], filtering := was.filtering + {BridgeOf(h, o.port)})
    ensures Left(h, most + [o], now)
  {
    BridgesSnoc(h, most, o);
    forall port | port in h.ports ensures Decided(h.ports, most + [o], port, now.ports[port]) {
      DecidedSnoc(h.ports, most, o, port, was.ports[port]);
    }
  }

  lemma DecidedSnoc(t: Table, most: seq<Operation>, o: Operation, port: string, p: Port)
    requires port in t && Decided(t, most, port, p)
    ensures Decided(t, most + [o], port, if port == o.port then Wanted(o) else p)
  {
    var os := most + [o];
    assert os[|most|] == o && os[..|most|] == most;
    if port == o.port {
      assert os[|most|].port == port && Untouched(os, |most| + 1, port);
    } else {
      DecidedBefore(t, os, port, p);
    }
  }

  lemma BridgesSnoc(h: Host, os: seq<Operation>, o: Operation)
    ensures BridgesOf(h, os + [o]) == BridgesOf(h, os) + {BridgeOf(h, o.port)}
  {
    assert o in os + [o];
    assert forall x | x in os + [o] :: x in os || x == o;
    assert forall x | x in os :: x in os + [o];
  }

  lemma DecidedBefore(t: Table, os: seq<Operation>, port: string, p: Port)
    requires port in t && os != [] && os[|os| - 1].port != port
    requires Decided(t, os[..|os| - 1], port, p)
    ensures Decided(t, os, port, p)
  {
    var most := os[..|os| - 1];
    assert os == most + [os[|os| - 1]];
    if Untouched(most, 0, port) {
      assert Untouched(os, 0, port);
    } else {
      var k :| 0 <= k < |most| && most[k].port == port && Untouched(most, k + 1, port) && p == Wanted(most[k]);
      assert os[k].port == port && Untouched(os, k + 1, port);
    }
  }
}
