/** The state keys of capabilities/state.go: each names one piece of a node's state,
    so two actions must share a key exactly when they are about the same piece. */
module StateKeys {
  import opened GoStrings

  /** The fields of an action the keys read. */
  datatype ActionEntry = ActionEntry(
    iface: string, cidr: string, gateway: string, dstCIDR: string, device: string, family: string,
    bridge: string, protocol: string, externalPort: int, internalIP: string, ospfArea: string,
    redistribute: string, level: string, flow: string)

  /** What validation leaves of the fields: interface names and addresses hold no
      space and ports are in range; bridge, protocol, area, source and flow are text. */
  ghost predicate Validated(a: ActionEntry) {
    && ' ' !in a.iface && ' ' !in a.cidr && ' ' !in a.gateway && ' ' !in a.dstCIDR && ' ' !in a.device
    && 1 <= a.externalPort <= 65535
  }

  // ------------------------------------------------------------ itoa

  /** What itoa returns: nothing at all for a negative number. */
  function ItoaOf(n: int): string { if n < 0 then "" else Itoa(n) }

  /** itoa: the digits come out last first and are put in front. */
  method ItoaLoop(n: int) returns (s: string)
    ensures s == ItoaOf(n)
  {
    if n == 0 {
      return "0";
    }
    var m := n;
    var b := "";
    while m > 0
      invariant m >= 0 || m == n
      invariant n > 0 ==> if m > 0 then Itoa(n) == Itoa(m) + b else Itoa(n) == b
      invariant n < 0 ==> b == ""
    {
      b := [DigitChar(m % 10)] + b;
      m := m / 10;
    }
    s := b;
  }

  // ------------------------------------------------------------ the keys

  function KeyAddress(a: ActionEntry): string { a.iface + " " + a.cidr }

  function KeyStaticRoute(a: ActionEntry): string { a.dstCIDR + " " + a.gateway + " " + a.device }

  function KeyBridgeMember(a: ActionEntry): string { a.iface + " " + a.bridge }

  function KeyNetworkArea(a: ActionEntry): string { a.cidr + " " + a.ospfArea }

  /** isV6 is IsIPv6: whether a text is an IPv6 address. */
  function FamilyOf(isV6: string -> bool, addr: string): string { if isV6(addr) then "6" else "4" }

  function KeyFamily(a: ActionEntry): string { if a.family == "6" then "6" else "4" }

  function KeyPortForward(isV6: string -> bool, a: ActionEntry): string {
    a.iface + " " + a.protocol + " " + ItoaOf(a.externalPort) + " " + FamilyOf(isV6, a.internalIP)
  }

  function KeyIfaceFamily(a: ActionEntry): string { a.iface + " " + KeyFamily(a) }

  function KeyRedistributeFamily(a: ActionEntry): string { a.redistribute + " " + KeyFamily(a) }

  function RedistributeLevel(a: ActionEntry): string { if a.level == "level-1" then "level-1" else "level-2" }

  function KeyRedistributeFamilyLevel(a: ActionEntry): string { KeyRedistributeFamily(a) + " " + RedistributeLevel(a) }

  // ------------------------------------------------------------ decoding

  lemma AddressKey(a: ActionEntry, b: ActionEntry)
    requires Validated(a) && Validated(b)
    ensures KeyAddress(a) == KeyAddress(b) <==> a.iface == b.iface && a.cidr == b.cidr
  {
    if KeyAddress(a) == KeyAddress(b) {
      FirstSeparator(a.iface, a.cidr, b.iface, b.cidr, ' ');
    }
  }

  lemma StaticRouteKey(a: ActionEntry, b: ActionEntry)
    requires Validated(a) && Validated(b)
    ensures KeyStaticRoute(a) == KeyStaticRoute(b) <==>
            a.dstCIDR == b.dstCIDR && a.gateway == b.gateway && a.device == b.device
  {
    if KeyStaticRoute(a) == KeyStaticRoute(b) {
      var r, s := a.gateway + " " + a.device, b.gateway + " " + b.device;
      assert KeyStaticRoute(a) == a.dstCIDR + [' '] + r && KeyStaticRoute(b) == b.dstCIDR + [' '] + s;
      FirstSeparator(a.dstCIDR, r, b.dstCIDR, s, ' ');
      FirstSeparator(a.gateway, a.device, b.gateway, b.device, ' ');
    }
  }

  /** The bridge is free text, spaces and all. */
  lemma BridgeMemberKey(a: ActionEntry, b: ActionEntry)
    requires Validated(a) && Validated(b)
    ensures KeyBridgeMember(a) == KeyBridgeMember(b) <==> a.iface == b.iface && a.bridge == b.bridge
  {
    if KeyBridgeMember(a) == KeyBridgeMember(b) {
      FirstSeparator(a.iface, a.bridge, b.iface, b.bridge, ' ');
    }
  }

  lemma NetworkAreaKey(a: ActionEntry, b: ActionEntry)
    requires Validated(a) && Validated(b)
    ensures KeyNetworkArea(a) == KeyNetworkArea(b) <==> a.cidr == b.cidr && a.ospfArea == b.ospfArea
  {
    if KeyNetworkArea(a) == KeyNetworkArea(b) {
      FirstSeparator(a.cidr, a.ospfArea, b.cidr, b.ospfArea, ' ');
    }
  }

  /** The protocol is free text in the middle: it is what is left between the first
      space and the last two. */
  lemma PortForwardKey(isV6: string -> bool, a: ActionEntry, b: ActionEntry)
    requires Validated(a) && Validated(b)
    ensures KeyPortForward(isV6, a) == KeyPortForward(isV6, b) <==>
            && a.iface == b.iface && a.protocol == b.protocol && a.externalPort == b.externalPort
            && (isV6(a.internalIP) <==> isV6(b.internalIP))
  {
    if KeyPortForward(isV6, a) == KeyPortForward(isV6, b) {
      var fa, fb := FamilyOf(isV6, a.internalIP), FamilyOf(isV6, b.internalIP);
      var pa, pb := Itoa(a.externalPort), Itoa(b.externalPort);
      LastSeparator(a.iface + " " + a.protocol + " " + pa, fa, b.iface + " " + b.protocol + " " + pb, fb, ' ');
      LastSeparator(a.iface + " " + a.protocol, pa, b.iface + " " + b.protocol, pb, ' ');
      FirstSeparator(a.iface, a.protocol, b.iface, b.protocol, ' ');
      ItoaInjective(a.externalPort, b.externalPort);
    }
  }

  lemma IfaceFamilyKey(a: ActionEntry, b: ActionEntry)
    ensures KeyIfaceFamily(a) == KeyIfaceFamily(b) <==> a.iface == b.iface && (a.family == "6" <==> b.family == "6")
  {
    if KeyIfaceFamily(a) == KeyIfaceFamily(b) {
      LastSeparator(a.iface, KeyFamily(a), b.iface, KeyFamily(b), ' ');
    }
  }

  /** The redistributed source is free text in front. */
  lemma RedistributeFamilyKey(a: ActionEntry, b: ActionEntry)
    ensures KeyRedistributeFamily(a) == KeyRedistributeFamily(b) <==>
            a.redistribute == b.redistribute && (a.family == "6" <==> b.family == "6")
  {
    if KeyRedistributeFamily(a) == KeyRedistributeFamily(b) {
      LastSeparator(a.redistribute, KeyFamily(a), b.redistribute, KeyFamily(b), ' ');
    }
  }

  lemma RedistributeFamilyLevelKey(a: ActionEntry, b: ActionEntry)
    ensures KeyRedistributeFamilyLevel(a) == KeyRedistributeFamilyLevel(b) <==>
            && a.redistribute == b.redistribute && (a.family == "6" <==> b.family == "6")
            && (a.level == "level-1" <==> b.level == "level-1")
  {
    if KeyRedistributeFamilyLevel(a) == KeyRedistributeFamilyLevel(b) {
      LastSeparator(KeyRedistributeFamily(a), RedistributeLevel(a), KeyRedistributeFamily(b), RedistributeLevel(b), ' ');
      RedistributeFamilyKey(a, b);
      assert "level-1"[6] != "level-2"[6];
    }
  }

  /** Keys of two fields give them back: the first is what stands before the first
      space. */
  lemma TwoFieldKeysDecode(a: ActionEntry)
    requires Validated(a)
    ensures CutFirst(KeyAddress(a), ' ') == (a.iface, a.cidr)
    ensures CutFirst(KeyBridgeMember(a), ' ') == (a.iface, a.bridge)
    ensures CutFirst(KeyNetworkArea(a), ' ') == (a.cidr, a.ospfArea)
  {
    CutFirstAt(a.iface, a.cidr, ' ');
    CutFirstAt(a.iface, a.bridge, ' ');
    CutFirstAt(a.cidr, a.ospfArea, ' ');
  }

  lemma StaticRouteKeyDecodes(a: ActionEntry)
    requires Validated(a)
    ensures var (dst, rest) := CutFirst(KeyStaticRoute(a), ' ');
      dst == a.dstCIDR && CutFirst(rest, ' ') == (a.gateway, a.device)
  {
    var rest := a.gateway + " " + a.device;
    assert KeyStaticRoute(a) == a.dstCIDR + [' '] + rest;
    CutFirstAt(a.dstCIDR, rest, ' ');
    CutFirstAt(a.gateway, a.device, ' ');
  }

  /** A family, a level and a port stand after the last space. */
  lemma FamilyKeysDecode(a: ActionEntry)
    ensures CutLast(KeyIfaceFamily(a), ' ') == (a.iface, if a.family == "6" then "6" else "4")
    ensures CutLast(KeyRedistributeFamily(a), ' ') == (a.redistribute, if a.family == "6" then "6" else "4")
    ensures var (rest, level) := CutLast(KeyRedistributeFamilyLevel(a), ' ');
      && level == (if a.level == "level-1" then "level-1" else "level-2")
      && CutLast(rest, ' ') == (a.redistribute, if a.family == "6" then "6" else "4")
  {
    CutLastAt(a.iface, KeyFamily(a), ' ');
    CutLastAt(a.redistribute, KeyFamily(a), ' ');
    CutLastAt(KeyRedistributeFamily(a), RedistributeLevel(a), ' ');
  }

  /** The numeral of the port reads as the port. */
  lemma PortForwardKeyDecodes(isV6: string -> bool, a: ActionEntry)
    requires Validated(a)
    ensures var (rest, family) := CutLast(KeyPortForward(isV6, a), ' ');
      var (front, port) := CutLast(rest, ' ');
      && family == (if isV6(a.internalIP) then "6" else "4")
      && Numeral(port) && Value(port) == a.externalPort
      && CutFirst(front, ' ') == (a.iface, a.protocol)
  {
    var front, port := a.iface + " " + a.protocol, Itoa(a.externalPort);
    CutLastAt(front + " " + port, FamilyOf(isV6, a.internalIP), ' ');
    CutLastAt(front, port, ' ');
    CutFirstAt(a.iface, a.protocol, ' ');
    ItoaValue(a.externalPort);
  }

  // ------------------------------------------------------------ flows

  const ACTIONS := "actions="

  /** Where the first "actions=" starts, or the end of the text. */
  function FirstActions(s: string): (i: nat)
    ensures i <= |s|
    ensures forall j | 0 <= j < i :: !(ACTIONS <= s[j..])
    ensures i < |s| ==> ACTIONS <= s[i..]
  {
    if s == "" then 0
    else if ACTIONS <= s then 0
    else
      assert forall j | 1 <= j <= |s| :: s[j..] == s[1..][j - 1..];
      1 + FirstActions(s[1..])
  }

  function TrimEnd(s: string): (t: string)
    ensures t <= s
    ensures t == "" || t[|t| - 1] !in ", "
  {
    if s != "" && s[|s| - 1] in ", " then TrimEnd(s[..|s| - 1]) else s
  }

  /** FlowMatch: the flow, which is one line, without its actions and the separators
      before them. */
  function FlowMatch(flow: string): string {
    var i := FirstActions(flow);
    if i == |flow| then flow else TrimEnd(flow[..i])
  }

  function KeyFlow(a: ActionEntry): string { a.bridge + " " + FlowMatch(a.flow) }

  predicate HasActions(s: string) { exists j | 0 <= j < |s| :: ACTIONS <= s[j..] }

  lemma FirstActionsExactly(s: string)
    ensures FirstActions(s) < |s| <==> HasActions(s)
  {
    if FirstActions(s) < |s| {
      assert ACTIONS <= s[FirstActions(s)..];
    }
  }

  lemma StaysInLonger(m: string, flow: string, k: nat)
    requires m <= flow && k <= |m| && ACTIONS <= m[k..]
    ensures ACTIONS <= flow[k..]
  {
    assert flow[k..][..|m| - k] == m[k..];
  }

  lemma ActionsInLonger(m: string, s: string)
    requires m <= s && HasActions(m)
    ensures HasActions(s) && FirstActions(s) < |m|
  {
    var j :| 0 <= j < |m| && ACTIONS <= m[j..];
    StaysInLonger(m, s, j);
    assert FirstActions(s) <= j;
  }

  /** A match is the start of its flow and never holds actions, and every text without
      actions is its own match: these texts are exactly the matches. */
  lemma MatchesExactly(m: string)
    ensures (exists flow :: FlowMatch(flow) == m) <==> !HasActions(m)
    ensures !HasActions(m) ==> FlowMatch(m) == m
  {
    FirstActionsExactly(m);
    if flow :| FlowMatch(flow) == m {
      MatchHasNoActions(flow);
    }
    if !HasActions(m) {
      assert FlowMatch(m) == m;
    }
  }

  lemma MatchHasNoActions(flow: string)
    ensures FlowMatch(flow) <= flow && !HasActions(FlowMatch(flow))
  {
    if HasActions(FlowMatch(flow)) {
      ActionsInLonger(FlowMatch(flow), flow);
    }
  }

  /** The match is what stands before the first "actions=" without the commas and spaces
      at its end, and all of a flow that has none. */
  lemma MatchIsLongest(flow: string)
    ensures var m := FlowMatch(flow);
      if HasActions(flow) then
        && m <= flow && (m == "" || (m[|m| - 1] != ',' && m[|m| - 1] != ' '))
        && exists i | |m| <= i < |flow| ::
             && "actions=" <= flow[i..] && (forall j | 0 <= j < i :: !("actions=" <= flow[j..]))
             && forall k | |m| <= k < i :: flow[k] == ',' || flow[k] == ' '
      else m == flow
  {
    FirstActionsExactly(flow);
    var i := FirstActions(flow);
    if HasActions(flow) {
      TrimmedAreSeparators(flow[..i]);
      var m := FlowMatch(flow);
      assert |m| <= i && "actions=" <= flow[i..];
      assert forall k | |m| <= k < i :: flow[k] == flow[..i][k];
    }
  }

  lemma {:induction false} TrimmedAreSeparators(s: string)
    ensures TrimEnd(s) <= s && forall k | |TrimEnd(s)| <= k < |s| :: s[k] == ',' || s[k] == ' '
  {
    if s != "" && s[|s| - 1] in ", " {
      TrimmedAreSeparators(s[..|s| - 1]);
      assert forall k | 0 <= k < |s| - 1 :: s[..|s| - 1][k] == s[k];
    }
  }

  /** A match is its own match, so a flow added with its actions and the same flow
      deleted by its match alone have one key. */
  lemma FlowMatchIdempotent(flow: string)
    ensures FlowMatch(FlowMatch(flow)) == FlowMatch(flow)
  {
    MatchHasNoActions(flow);
    MatchesExactly(FlowMatch(flow));
  }

  /** On a bridge without a space the flow key gives the bridge and the match back. */
  lemma FlowKeyDecodes(a: ActionEntry)
    requires ' ' !in a.bridge
    ensures CutFirst(KeyFlow(a), ' ') == (a.bridge, FlowMatch(a.flow))
  {
    CutFirstAt(a.bridge, FlowMatch(a.flow), ' ');
  }

  /** So two such keys are equal exactly when bridge and match are. */
  lemma FlowKeyWithoutSpaces(a: ActionEntry, b: ActionEntry)
    requires ' ' !in a.bridge && ' ' !in b.bridge
    ensures KeyFlow(a) == KeyFlow(b) <==> a.bridge == b.bridge && FlowMatch(a.flow) == FlowMatch(b.flow)
  {
    if KeyFlow(a) == KeyFlow(b) {
      FirstSeparator(a.bridge, FlowMatch(a.flow), b.bridge, FlowMatch(b.flow), ' ');
    }
  }

  /** checkFlowText: a flow is one line without quotes. */
  predicate FlowText(flow: string) { forall i | 0 <= i < |flow| :: flow[i] !in "\n\r\"'`" }

  /** A bridge is free text.  Bridge b with a space after it starts bridge c with a
      space after it, and what c has left over could be the start of a match. */
  predicate Runs(b: string, c: string) {
    b + " " <= c + " " && !HasActions((c + " ")[|b| + 1..]) && FlowText((c + " ")[|b| + 1..])
  }

  /** Two bridges can share a flow key, for some flows the check lets through, exactly
      when one runs into the other. */
  lemma FlowKeysCollideExactly(a: ActionEntry, b: ActionEntry)
    requires a.bridge != b.bridge
    ensures (exists f, g :: FlowText(f) && FlowText(g) && KeyFlow(a.(flow := f)) == KeyFlow(b.(flow := g)))
       <==> Runs(a.bridge, b.bridge) || Runs(b.bridge, a.bridge)
  {
    if Runs(a.bridge, b.bridge) {
      var f := RunningFlow(a, b);
      assert FlowText(f) && FlowText("") && KeyFlow(a.(flow := f)) == KeyFlow(b.(flow := ""));
    } else if Runs(b.bridge, a.bridge) {
      var g := RunningFlow(b, a);
      assert FlowText("") && FlowText(g) && KeyFlow(a.(flow := "")) == KeyFlow(b.(flow := g));
    }
    if f, g :| FlowText(f) && FlowText(g) && KeyFlow(a.(flow := f)) == KeyFlow(b.(flow := g)) {
      if |a.bridge| <= |b.bridge| {
        SharedKeyRuns(a.bridge, f, b.bridge, g);
      } else {
        SharedKeyRuns(b.bridge, g, a.bridge, f);
      }
    }
  }

  /** The flow on the shorter bridge that takes up the rest of the longer one. */
  lemma RunningFlow(a: ActionEntry, b: ActionEntry) returns (flow: string)
    requires Runs(a.bridge, b.bridge)
    ensures FlowText(flow) && KeyFlow(a.(flow := flow)) == KeyFlow(b.(flow := ""))
  {
    flow := (b.bridge + " ")[|a.bridge| + 1..];
    MatchesExactly(flow);
    MatchesExactly("");
    assert a.bridge + " " + flow == b.bridge + " ";
  }

  lemma SharedKeyRuns(b: string, f: string, c: string, g: string)
    requires |b| <= |c| && FlowText(f) && b + " " + FlowMatch(f) == c + " " + FlowMatch(g)
    ensures Runs(b, c)
  {
    var key, rest := b + " " + FlowMatch(f), (c + " ")[|b| + 1..];
    assert key[..|b| + 1] == b + " " && key[..|c| + 1] == c + " ";
    assert key[..|c| + 1][..|b| + 1] == b + " ";
    assert key[|b| + 1..] == FlowMatch(f) && key[|b| + 1..][..|rest|] == rest;
    MatchHasNoActions(f);
    if HasActions(rest) {
      ActionsInLonger(rest, FlowMatch(f));
    }
    assert forall i | 0 <= i < |rest| :: rest[i] == f[i];
  }

  /** For two: br0 with flow "x y", and "br0 x" with flow "y". */
  lemma FlowKeysCollide(a: ActionEntry)
    ensures var one := a.(bridge := "br0", flow := "x y"); var two := a.(bridge := "br0 x", flow := "y");
      KeyFlow(one) == KeyFlow(two) && one.bridge != two.bridge && FlowMatch(one.flow) != FlowMatch(two.flow)
  {
    NoActionsInShortText("x y");
    NoActionsInShortText("y");
    assert "br0" + " " + "x y" == "br0 x" + " " + "y";
  }

  lemma NoActionsInShortText(s: string)
    requires |s| < |ACTIONS|
    ensures FlowMatch(s) == s
  {
  }
}
