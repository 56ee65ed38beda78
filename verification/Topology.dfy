/** The synthetic topology generator.  Every random choice is a parameter, so
    what is proved holds for every seed. */
module Topology {
  import opened Options
  import opened GoStrings
  import opened Graphs

  // ------------------------------------------------------------ sparse_pairs

  /** One rnd.sample(names, 2). */
  ghost predicate SampleOf(names: seq<string>, d: Pair) {
    exists i, j :: 0 <= i < |names| && 0 <= j < |names| && i != j && d == (names[i], names[j])
  }

  /** Every unordered pair of names comes up somewhere in the draws. */
  ghost predicate Covers(names: seq<string>, draws: seq<Pair>) {
    forall a, b | a in names && b in names && a != b :: {a, b} in Edges(draws)
  }

  /** The random choices a run of sparse_pairs may see: order is the shuffled
      list and picks[i] the randrange(i) of the tree. */
  ghost predicate TreeChoices(names: seq<string>, order: seq<string>, picks: seq<nat>) {
    && multiset(order) == multiset(names)
    && |picks| == |names| && forall i | 1 <= i < |picks| :: picks[i] < i
  }

  /** The links of the first loop. */
  function Tree(order: seq<string>, picks: seq<nat>): (pairs: seq<Pair>)
    requires |picks| == |order| && forall i | 1 <= i < |picks| :: picks[i] < i
    ensures |pairs| == if |order| == 0 then 0 else |order| - 1
    ensures forall k | 0 <= k < |pairs| :: pairs[k] == (order[k + 1], order[picks[k + 1]])
  {
    if |order| == 0 then []
    else seq(|order| - 1, k requires 0 <= k < |order| - 1 => (order[k + 1], order[picks[k + 1]]))
  }

  /** What one draw adds to the links so far: a pair not yet joined, until there are
      enough links. */
  ghost function Draw(enough: nat, pairs: seq<Pair>, d: Pair): seq<Pair> {
    if |pairs| >= enough || Edge(d) in Edges(pairs) then pairs else pairs + [d]
  }

  ghost function Drawn(enough: nat, pairs: seq<Pair>, draws: seq<Pair>): seq<Pair> {
    if draws == [] then pairs else Draw(enough, Drawn(enough, pairs, draws[..|draws| - 1]), draws[|draws| - 1])
  }

  ghost predicate AllSamples(names: seq<string>, draws: seq<Pair>) {
    forall k | 0 <= k < |draws| :: SampleOf(names, draws[k])
  }

  /** The first loop: each node hangs off an earlier one. */
  method SpanningTree(names: seq<string>, order: seq<string>, picks: seq<nat>)
    returns (pairs: seq<Pair>, have: set<set<string>>)
    requires Distinct(names) && TreeChoices(names, order, picks)
    ensures |order| == |names| && |pairs| == (if |names| == 0 then 0 else |names| - 1)
    ensures forall k | 0 <= k < |pairs| :: pairs[k] == (order[k + 1], order[picks[k + 1]])
    ensures have == Edges(pairs) && Simple(names, pairs) && Connected(names, pairs)
  {
    ShuffleFacts(names, order);
    have, pairs := {}, [];
    var i := 1;
    if |order| > 0 {
      ReachSelf(have, order[0]);
    }
    while i < |order|
      invariant 1 <= i && (i <= |order| || (i == 1 && |order| == 0))
      invariant |pairs| == i - 1 && have == Edges(pairs)
      invariant forall k | 0 <= k < |pairs| :: pairs[k] == (order[k + 1], order[picks[k + 1]])
      invariant forall k | 0 <= k < i && k < |order| :: Reach(have, order[0], order[k])
    {
      var p := (order[i], order[picks[i]]);
      GrowTree(order, have, Edge(p), i, picks[i]);
      EdgesSnoc(pairs, p);
      pairs := pairs + [p];
      have := have + {Edge(p)};
      i := i + 1;
    }
    TreeIsSimple(names, order, picks, pairs);
    TreeConnects(names, order, pairs);
  }

  lemma TreeConnects(names: seq<string>, order: seq<string>, pairs: seq<Pair>)
    requires forall a :: a in order <==> a in names
    requires forall k | 0 <= k < |order| :: Reach(Edges(pairs), order[0], order[k])
    ensures Connected(names, pairs)
  {
    if |order| > 0 {
      forall a | a in names ensures Reach(Edges(pairs), order[0], a) {
        assert a in order;
        var k :| 0 <= k < |order| && order[k] == a;
      }
      HubConnects(names, pairs, order[0]);
    } else {
      assert forall a | a in names :: a in order;
    }
  }

  /** The second loop: sampled pairs not yet joined, until there are as many links
      as names or no draw is left. */
  method ExtraEdges(names: seq<string>, tree: seq<Pair>, treeEdges: set<set<string>>, draws: seq<Pair>)
    returns (pairs: seq<Pair>)
    requires Distinct(names) && Simple(names, tree) && Connected(names, tree)
    requires |tree| <= |names| && treeEdges == Edges(tree)
    requires forall k | 0 <= k < |draws| :: SampleOf(names, draws[k])
    ensures pairs == Drawn(|names|, tree, draws)
    ensures tree <= pairs && |pairs| <= |names|
    ensures Simple(names, pairs) && Connected(names, pairs)
    ensures |pairs| == |names| || forall j | 0 <= j < |draws| :: Edge(draws[j]) in Edges(pairs)
  {
    pairs := tree;
    var have := treeEdges;
    var k := 0;
    while |pairs| < |names| && k < |draws|
      invariant 0 <= k <= |draws|
      invariant pairs == Drawn(|names|, tree, draws[..k])
      invariant have == Edges(pairs)
    {
      var d := draws[k];
      assert draws[..k + 1][..k] == draws[..k];
      if Edge(d) !in have {
        EdgesSnoc(pairs, d);
        pairs := pairs + [d];
        have := have + {Edge(d)};
      }
      k := k + 1;
    }
    EnoughStays(|names|, tree, draws, k);
    DrawnKeeps(names, tree, draws);
  }

  /** However many draws: links are only added, the graph stays simple and connected,
      and short of enough links every draw is a link. */
  lemma DrawnKeeps(names: seq<string>, tree: seq<Pair>, draws: seq<Pair>)
    requires Distinct(names) && Simple(names, tree) && Connected(names, tree) && |tree| <= |names|
    requires AllSamples(names, draws)
    ensures var pairs := Drawn(|names|, tree, draws);
      && tree <= pairs && |pairs| <= |names| && Simple(names, pairs) && Connected(names, pairs)
      && (|pairs| == |names| || forall j | 0 <= j < |draws| :: Edge(draws[j]) in Edges(pairs))
  {
    DrawnStaysSimple(names, tree, draws);
    DrawnGrows(|names|, tree, draws);
    DrawnCovers(|names|, tree, draws);
    MoreLinksConnect(names, tree, Drawn(|names|, tree, draws));
  }

  lemma {:induction false} DrawnGrows(enough: nat, tree: seq<Pair>, draws: seq<Pair>)
    ensures tree <= Drawn(enough, tree, draws)
  {
    if draws != [] {
      DrawnGrows(enough, tree, draws[..|draws| - 1]);
    }
  }

  lemma DrawCovers(enough: nat, pairs: seq<Pair>, d: Pair)
    ensures Edges(pairs) <= Edges(Draw(enough, pairs, d)) && |pairs| <= |Draw(enough, pairs, d)|
    ensures |Draw(enough, pairs, d)| >= enough || Edge(d) in Edges(Draw(enough, pairs, d))
  {
    EdgesSnoc(pairs, d);
  }

  lemma {:induction false} DrawnCovers(enough: nat, tree: seq<Pair>, draws: seq<Pair>)
    ensures |Drawn(enough, tree, draws)| >= enough
      || forall j | 0 <= j < |draws| :: Edge(draws[j]) in Edges(Drawn(enough, tree, draws))
  {
    if draws != [] {
      var n := |draws| - 1;
      DrawnCovers(enough, tree, draws[..n]);
      DrawCovers(enough, Drawn(enough, tree, draws[..n]), draws[n]);
    }
  }

  lemma MoreLinksConnect(names: seq<string>, tree: seq<Pair>, pairs: seq<Pair>)
    requires Connected(names, tree) && tree <= pairs
    ensures Connected(names, pairs)
  {
    forall e | e in Edges(tree) ensures e in Edges(pairs) {
      var k :| 0 <= k < |tree| && Edge(tree[k]) == e;
      assert pairs[k] == tree[k];
    }
    forall a, b | a in names && b in names ensures Reach(Edges(pairs), a, b) {
      ReachGrows(Edges(tree), Edges(pairs), a, b);
    }
  }

  /** Draws after there are enough links add none. */
  lemma {:induction false} EnoughStays(enough: nat, pairs: seq<Pair>, draws: seq<Pair>, k: nat)
    requires k <= |draws| && (k == |draws| || |Drawn(enough, pairs, draws[..k])| >= enough)
    ensures Drawn(enough, pairs, draws) == Drawn(enough, pairs, draws[..k])
  {
    if k == |draws| {
      assert draws[..k] == draws;
    } else {
      var n := |draws| - 1;
      assert draws[..n][..k] == draws[..k];
      EnoughStays(enough, pairs, draws[..n], k);
    }
  }

  /** sparse_pairs; draws are the samples of the extra-edge loop, and complete is
      false when the loop still wants another draw. */
  method SparsePairs(names: seq<string>, order: seq<string>, picks: seq<nat>, draws: seq<Pair>)
    returns (pairs: seq<Pair>, complete: bool)
    requires Distinct(names) && TreeChoices(names, order, picks)
    requires forall k | 0 <= k < |draws| :: SampleOf(names, draws[k])
    ensures |order| == |names| && pairs == Drawn(|names|, Tree(order, picks), draws)
    ensures Simple(names, pairs) && Connected(names, pairs)
    ensures complete <==> |pairs| == |names|
    ensures |names| >= 3 && Covers(names, draws) ==> complete
    ensures complete ==> |names| == 0 || |names| >= 3
    ensures |order| == |names| <= |pairs| + 1
    ensures forall k | 0 <= k < |names| - 1 :: pairs[k] == (order[k + 1], order[picks[k + 1]])
  {
    var tree, have := SpanningTree(names, order, picks);
    assert tree == Tree(order, picks);
    pairs := ExtraEdges(names, tree, have, draws);
    complete := |pairs| >= |names|;
    if |names| >= 3 && Covers(names, draws) {
      CoveringDrawsComplete(names, draws, pairs);
    }
    if 0 < |names| < 3 {
      TooFewNames(names, pairs);
    }
  }

  lemma CoveringDrawsComplete(names: seq<string>, draws: seq<Pair>, pairs: seq<Pair>)
    requires Distinct(names) && |names| >= 3 && Covers(names, draws) && Simple(names, pairs)
    requires |pairs| == |names| || forall j | 0 <= j < |draws| :: Edge(draws[j]) in Edges(pairs)
    ensures |pairs| >= |names|
  {
    EdgeCount(pairs);
    if |pairs| != |names| {
      forall a, b | a in names && b in names && a != b ensures {a, b} in Edges(pairs) {
        assert {a, b} in Edges(draws);
      }
      AllPairsNeedManyEdges(names, Edges(pairs));
    }
  }

  lemma ShuffleFacts(names: seq<string>, order: seq<string>)
    requires Distinct(names) && multiset(order) == multiset(names)
    ensures Distinct(order) && |order| == |names| && forall a :: a in order <==> a in names
  {
    assert |multiset(order)| == |multiset(names)|;
    forall a ensures a in order <==> a in names {
      assert a in multiset(order) <==> a in multiset(names);
    }
    forall i, j | 0 <= i < j < |order| ensures order[i] != order[j] {
      MultiplicityOfDistinct(names, order[i]);
      if order[i] == order[j] {
        RepeatedTwice(order, i, j);
      }
    }
  }

  lemma {:induction false} MultiplicityOfDistinct(names: seq<string>, a: string)
    requires Distinct(names)
    ensures multiset(names)[a] <= 1
  {
    if names != [] {
      var last := |names| - 1;
      MultiplicityOfDistinct(names[..last], a);
      assert names == names[..last] + [names[last]];
    }
  }

  lemma RepeatedTwice(xs: seq<string>, i: nat, j: nat)
    requires i < j < |xs| && xs[i] == xs[j]
    ensures multiset(xs)[xs[i]] >= 2
  {
    assert xs == xs[..i] + [xs[i]] + xs[i + 1..j] + [xs[j]] + xs[j + 1..];
  }

  lemma GrowTree(order: seq<string>, have: set<set<string>>, e: set<string>, i: nat, parent: nat)
    requires parent < i < |order| && e == {order[i], order[parent]}
    requires forall k | 0 <= k < i :: Reach(have, order[0], order[k])
    ensures forall k | 0 <= k <= i :: Reach(have + {e}, order[0], order[k])
  {
    forall k | 0 <= k < i ensures Reach(have + {e}, order[0], order[k]) {
      ReachGrows(have, have + {e}, order[0], order[k]);
    }
    assert {order[parent], order[i]} == e;
    ReachEdge(have + {e}, order[parent], order[i]);
    ReachTransitive(have + {e}, order[0], order[parent], order[i]);
  }

  /** Each tree edge is the only one whose later end is its own node. */
  lemma TreeIsSimple(names: seq<string>, order: seq<string>, picks: seq<nat>, pairs: seq<Pair>)
    requires Distinct(order) && |order| == |picks| && |pairs| == (if |order| == 0 then 0 else |order| - 1)
    requires forall a :: a in order <==> a in names
    requires forall i | 1 <= i < |picks| :: picks[i] < i
    requires forall k | 0 <= k < |pairs| :: pairs[k] == (order[k + 1], order[picks[k + 1]])
    ensures Simple(names, pairs)
  {
    forall k | 0 <= k < |pairs| ensures pairs[k].0 in names && pairs[k].1 in names && pairs[k].0 != pairs[k].1 {
      assert pairs[k] == (order[k + 1], order[picks[k + 1]]);
    }
    forall j, k | 0 <= j < k < |pairs| ensures Edge(pairs[j]) != Edge(pairs[k]) {
      assert pairs[j] == (order[j + 1], order[picks[j + 1]]);
      assert pairs[k] == (order[k + 1], order[picks[k + 1]]);
      DifferentEdges(pairs[k], pairs[j]);
    }
  }

  lemma EdgeOfTwo(names: seq<string>, p: Pair)
    requires |names| == 2 && p.0 in names && p.1 in names && p.0 != p.1
    ensures Edge(p) == {names[0], names[1]}
  {
  }

  /** One or two names have fewer pairs than names. */
  lemma TooFewNames(names: seq<string>, pairs: seq<Pair>)
    requires Distinct(names) && 0 < |names| < 3
    requires Simple(names, pairs)
    ensures |pairs| < |names|
  {
    if |pairs| >= 1 {
      assert pairs[0].0 in names && pairs[0].1 in names && pairs[0].0 != pairs[0].1;
      assert |names| == 2;
      if |pairs| >= 2 {
        EdgeOfTwo(names, pairs[0]);
        EdgeOfTwo(names, pairs[1]);
      }
    }
  }

  lemma DrawStaysSimple(names: seq<string>, pairs: seq<Pair>, d: Pair)
    requires Distinct(names) && Simple(names, pairs) && |pairs| <= |names| && SampleOf(names, d)
    ensures Simple(names, Draw(|names|, pairs, d)) && |Draw(|names|, pairs, d)| <= |names|
    ensures |Draw(|names|, pairs, d)| >= |pairs|
  {
    assert forall k | 0 <= k < |pairs| :: Edge(pairs[k]) in Edges(pairs);
  }

  /** Draws only ever add links, and links stay different. */
  lemma {:induction false} DrawnStaysSimple(names: seq<string>, pairs: seq<Pair>, draws: seq<Pair>)
    requires Distinct(names) && Simple(names, pairs) && |pairs| <= |names| && AllSamples(names, draws)
    ensures Simple(names, Drawn(|names|, pairs, draws))
    ensures |pairs| <= |Drawn(|names|, pairs, draws)| <= |names|
  {
    if draws != [] {
      var n := |draws| - 1;
      assert SampleOf(names, draws[n]);
      DrawnStaysSimple(names, pairs, draws[..n]);
      DrawStaysSimple(names, Drawn(|names|, pairs, draws[..n]), draws[n]);
    }
  }

  /** A draw that adds a link, while one is wanted. */
  lemma UsefulDraw(names: seq<string>, pairs: seq<Pair>) returns (d: Pair)
    requires Distinct(names) && |names| >= 3 && Simple(names, pairs) && |pairs| < |names|
    ensures SampleOf(names, d) && Draw(|names|, pairs, d) == pairs + [d]
  {
    EdgeCount(pairs);
    var a, b := MissingPair(names, Edges(pairs));
    d := (a, b);
    var i :| 0 <= i < |names| && names[i] == a;
    var j :| 0 <= j < |names| && names[j] == b;
    assert d == (names[i], names[j]);
  }

  lemma TreeFacts(names: seq<string>, order: seq<string>, picks: seq<nat>)
    requires Distinct(names) && TreeChoices(names, order, picks)
    ensures |order| == |names| && Simple(names, Tree(order, picks))
  {
    ShuffleFacts(names, order);
    TreeIsSimple(names, order, picks, Tree(order, picks));
  }

  /** Whatever was drawn so far on three names or more, one more draw can end the loop. */
  lemma OneDrawFromTheEnd(names: seq<string>, order: seq<string>, picks: seq<nat>, draws: seq<Pair>) returns (d: Pair)
    requires Distinct(names) && TreeChoices(names, order, picks) && AllSamples(names, draws) && |names| >= 3
    ensures |order| == |names| && SampleOf(names, d)
    ensures |Drawn(|names|, Tree(order, picks), draws + [d])| == |names|
  {
    TreeFacts(names, order, picks);
    var pairs := Drawn(|names|, Tree(order, picks), draws);
    DrawnStaysSimple(names, Tree(order, picks), draws);
    if |pairs| < |names| {
      d := UsefulDraw(names, pairs);
    } else {
      d := (names[0], names[1]);
      assert SampleOf(names, d);
    }
    assert (draws + [d])[..|draws|] == draws;
  }

  /** When the extra-edge loop can end at all: from every tree, some draws complete the
      links exactly when there is no name or there are at least three.  With two names
      it draws forever, with one there is nothing to sample. */
  lemma ExtraEdgeLoopCanEnd(names: seq<string>, order: seq<string>, picks: seq<nat>)
    requires Distinct(names) && TreeChoices(names, order, picks)
    ensures |order| == |names|
    ensures (exists draws :: AllSamples(names, draws) && |Drawn(|names|, Tree(order, picks), draws)| == |names|)
       <==> (|names| == 0 || |names| >= 3)
  {
    TreeFacts(names, order, picks);
    if |names| == 0 || |names| >= 3 {
      var draws := DrawsThatEnd(names, order, picks);
      assert AllSamples(names, draws) && |Drawn(|names|, Tree(order, picks), draws)| == |names|;
    } else {
      forall draws | AllSamples(names, draws) ensures |Drawn(|names|, Tree(order, picks), draws)| != |names| {
        NoDrawsEnd(names, order, picks, draws);
      }
    }
  }

  lemma DrawsThatEnd(names: seq<string>, order: seq<string>, picks: seq<nat>) returns (draws: seq<Pair>)
    requires Distinct(names) && TreeChoices(names, order, picks) && (|names| == 0 || |names| >= 3)
    ensures |order| == |names| && AllSamples(names, draws)
    ensures |Drawn(|names|, Tree(order, picks), draws)| == |names|
  {
    TreeFacts(names, order, picks);
    draws := [];
    if |names| >= 3 {
      var d := OneDrawFromTheEnd(names, order, picks, []);
      draws := [d];
      assert [] + [d] == draws;
    }
  }

  lemma NoDrawsEnd(names: seq<string>, order: seq<string>, picks: seq<nat>, draws: seq<Pair>)
    requires Distinct(names) && TreeChoices(names, order, picks) && 0 < |names| < 3 && AllSamples(names, draws)
    ensures |order| == |names| && |Drawn(|names|, Tree(order, picks), draws)| != |names|
  {
    TreeFacts(names, order, picks);
    DrawnStaysSimple(names, Tree(order, picks), draws);
    TooFewNames(names, Drawn(|names|, Tree(order, picks), draws));
  }

  // ------------------------------------------------------------ build_links

  function LinkIps(i: nat): (string, string) {
    (AddressText(100 + i / 250, i % 250, ".1/24"), AddressText(100 + i / 250, i % 250, ".2/24"))
  }

  function AddressText(second: nat, third: nat, host: string): string {
    "10." + Itoa(second) + "." + Itoa(third) + host
  }

  datatype Link = Link(node: string, localIntf: string, localIp: string, peerNode: string, peerIntf: string, peerIp: string)

  /** self.n.get(pod, 0). */
  function Used(n: map<string, nat>, pod: string): nat {
    if pod in n then n[pod] else 0
  }

  class IfaceCounter {
    var n: map<string, nat>

    constructor ()
      ensures n == map[]
    {
      n := map[];
    }

    method Next(pod: string) returns (iface: string)
      modifies this
      ensures n == old(n)[pod := Used(old(n), pod) + 1]
      ensures iface == "eth" + Itoa(Used(old(n), pod) + 1)
    {
      n := n[pod := Used(n, pod) + 1];
      iface := "eth" + Itoa(n[pod]);
    }
  }

  /** The pods at the ends of the links, in the order interfaces are taken. */
  function Ends(pairs: seq<Pair>): (ends: seq<string>)
    ensures |ends| == 2 * |pairs|
  {
    if pairs == [] then []
    else Ends(pairs[..|pairs| - 1]) + [pairs[|pairs| - 1].0, pairs[|pairs| - 1].1]
  }

  /** The number of the interface the e-th end gets on its pod. */
  function Rank(ends: seq<string>, e: nat): nat
    requires e < |ends|
  {
    Occurrences(ends[..e], ends[e]) + 1
  }

  /** Link i joins pair i, its ends carry the interfaces and addresses of ends 2i
      and 2i + 1. */
  predicate IsLink(pairs: seq<Pair>, i: nat, link: Link)
    requires i < |pairs|
  {
    && (link.node, link.peerNode) == pairs[i]
    && link.localIntf == "eth" + Itoa(Rank(Ends(pairs), 2 * i))
    && link.peerIntf == "eth" + Itoa(Rank(Ends(pairs), 2 * i + 1))
    && (link.localIp, link.peerIp) == LinkIps(i)
  }

  /** One turn of the loop of build_links. */
  method NextLink(ifc: IfaceCounter, pairs: seq<Pair>, i: nat) returns (link: Link)
    requires i < |pairs| && Counts(ifc.n, Ends(pairs), 2 * i)
    modifies ifc
    ensures IsLink(pairs, i, link)
    ensures Counts(ifc.n, Ends(pairs), 2 * (i + 1))
  {
    var (a, b) := pairs[i];
    var (ia, ib) := LinkIps(i);
    ghost var ends := Ends(pairs);
    EndsAt(pairs, i);
    CountsNext(ifc.n, ends, 2 * i);
    var local := ifc.Next(a);
    CountsNext(ifc.n, ends, 2 * i + 1);
    var peer := ifc.Next(b);
    link := Link(a, local, ia, b, peer, ib);
  }

  method BuildLinks(pairs: seq<Pair>) returns (links: seq<Link>)
    ensures AreLinks(pairs, links)
  {
    var ifc := new IfaceCounter();
    links := [];
    for i := 0 to |pairs|
      invariant fresh(ifc)
      invariant |links| == i
      invariant Counts(ifc.n, Ends(pairs), 2 * i)
      invariant forall k | 0 <= k < i :: IsLink(pairs, k, links[k])
    {
      var link := NextLink(ifc, pairs, i);
      links := links + [link];
    }
  }

  /** The counter has counted the first e ends. */
  ghost predicate Counts(n: map<string, nat>, ends: seq<string>, e: nat)
    requires e <= |ends|
  {
    forall v: string :: Used(n, v) == Occurrences(ends[..e], v)
  }

  lemma CountsNext(n: map<string, nat>, ends: seq<string>, e: nat)
    requires e < |ends| && Counts(n, ends, e)
    ensures Used(n, ends[e]) + 1 == Rank(ends, e)
    ensures Counts(n[ends[e] := Used(n, ends[e]) + 1], ends, e + 1)
  {
    assert ends[..e + 1] == ends[..e] + [ends[e]];
    var next := n[ends[e] := Used(n, ends[e]) + 1];
    forall v: string ensures Used(next, v) == Occurrences(ends[..e + 1], v) {
      OccurrencesSnoc(ends[..e], ends[e], v);
    }
  }

  lemma OccurrencesSnoc(xs: seq<string>, x: string, v: string)
    ensures Occurrences(xs + [x], v) == Occurrences(xs, v) + if x == v then 1 else 0
  {
    assert (xs + [x])[..|xs|] == xs;
  }

  lemma {:induction false} EndsAt(pairs: seq<Pair>, i: nat)
    requires i < |pairs|
    ensures Ends(pairs)[2 * i] == pairs[i].0 && Ends(pairs)[2 * i + 1] == pairs[i].1
  {
    if i < |pairs| - 1 {
      EndsAt(pairs[..|pairs| - 1], i);
    }
  }

  lemma {:induction false} EndsDegree(pairs: seq<Pair>, v: string)
    ensures Occurrences(Ends(pairs), v) == Degree(pairs, v)
  {
    if pairs != [] {
      var last := |pairs| - 1;
      EndsDegree(pairs[..last], v);
      var before := Ends(pairs[..last]);
      OccurrencesSnoc(before, pairs[last].0, v);
      OccurrencesSnoc(before + [pairs[last].0], pairs[last].1, v);
      assert Ends(pairs) == before + [pairs[last].0] + [pairs[last].1];
    }
  }

  lemma {:induction false} OccurrencesGrow(ends: seq<string>, d: nat, e: nat, v: string)
    requires d <= e <= |ends|
    ensures Occurrences(ends[..d], v) <= Occurrences(ends[..e], v)
  {
    if d < e {
      OccurrencesGrow(ends, d, e - 1, v);
      assert ends[..e] == ends[..e - 1] + [ends[e - 1]];
      OccurrencesSnoc(ends[..e - 1], ends[e - 1], v);
    }
  }

  /** Two ends on one pod never get the same interface name. */
  lemma NoEndpointTwice(ends: seq<string>, d: nat, e: nat)
    requires d < e < |ends| && ends[d] == ends[e]
    ensures Rank(ends, d) < Rank(ends, e)
    ensures "eth" + Itoa(Rank(ends, d)) != "eth" + Itoa(Rank(ends, e))
  {
    assert ends[..d + 1] == ends[..d] + [ends[d]];
    OccurrencesSnoc(ends[..d], ends[d], ends[d]);
    OccurrencesGrow(ends, d + 1, e, ends[e]);
    if "eth" + Itoa(Rank(ends, d)) == "eth" + Itoa(Rank(ends, e)) {
      assert ("eth" + Itoa(Rank(ends, d)))[3..] == Itoa(Rank(ends, d));
      assert ("eth" + Itoa(Rank(ends, e)))[3..] == Itoa(Rank(ends, e));
      ItoaInjective(Rank(ends, d), Rank(ends, e));
      assert false;
    }
  }

  /** Some end on pod v got interface number k. */
  ghost predicate Given(ends: seq<string>, v: string, k: nat) {
    exists e | 0 <= e < |ends| :: ends[e] == v && Rank(ends, e) == k
  }

  /** A pod of degree n has exactly the interfaces eth1 to ethn: every end's
      number is in that range, and every number is some end's. */
  lemma InterfacesAreOneToDegree(pairs: seq<Pair>, v: string)
    ensures forall e | 0 <= e < 2 * |pairs| && Ends(pairs)[e] == v :: 1 <= Rank(Ends(pairs), e) <= Degree(pairs, v)
    ensures forall k | 1 <= k <= Degree(pairs, v) :: Given(Ends(pairs), v, k)
  {
    var ends := Ends(pairs);
    EndsDegree(pairs, v);
    forall e | 0 <= e < |ends| && ends[e] == v ensures Rank(ends, e) <= Degree(pairs, v) {
      assert ends[..e + 1] == ends[..e] + [v];
      OccurrencesSnoc(ends[..e], v, v);
      OccurrencesGrow(ends, e + 1, |ends|, v);
      assert ends[..|ends|] == ends;
    }
    forall k | 1 <= k <= Degree(pairs, v) ensures Given(ends, v, k) {
      assert ends[..|ends|] == ends;
      var e := EndWithRank(ends, |ends|, v, k);
    }
  }

  lemma {:induction false} EndWithRank(ends: seq<string>, upto: nat, v: string, k: nat) returns (e: nat)
    requires upto <= |ends| && 1 <= k <= Occurrences(ends[..upto], v)
    ensures e < |ends| && ends[e] == v && Rank(ends, e) == k
  {
    assert ends[..upto] == ends[..upto - 1] + [ends[upto - 1]];
    OccurrencesSnoc(ends[..upto - 1], ends[upto - 1], v);
    if k <= Occurrences(ends[..upto - 1], v) {
      e := EndWithRank(ends, upto - 1, v, k);
    } else {
      e := upto - 1;
    }
  }

  /** One end of a link: the pod and its interface, the local end first. */
  function EndOf(links: seq<Link>, e: nat): (string, string)
    requires e < 2 * |links|
  {
    var link := links[e / 2];
    if e % 2 == 0 then (link.node, link.localIntf) else (link.peerNode, link.peerIntf)
  }

  predicate AreLinks(pairs: seq<Pair>, links: seq<Link>) {
    |links| == |pairs| && forall i | 0 <= i < |pairs| :: IsLink(pairs, i, links[i])
  }

  lemma EndIs(pairs: seq<Pair>, links: seq<Link>, e: nat)
    requires AreLinks(pairs, links) && e < 2 * |links|
    ensures EndOf(links, e) == (Ends(pairs)[e], "eth" + Itoa(Rank(Ends(pairs), e)))
  {
    EndsAt(pairs, e / 2);
    assert IsLink(pairs, e / 2, links[e / 2]);
    assert e == 2 * (e / 2) + e % 2;
  }

  lemma EndsDiffer(pairs: seq<Pair>, links: seq<Link>, d: nat, e: nat)
    requires AreLinks(pairs, links) && d < e < 2 * |links|
    ensures EndOf(links, d) != EndOf(links, e)
  {
    EndIs(pairs, links, d);
    EndIs(pairs, links, e);
    if Ends(pairs)[d] == Ends(pairs)[e] {
      NoEndpointTwice(Ends(pairs), d, e);
    }
  }

  /** The interfaces the links use on pod v. */
  function InterfacesOf(links: seq<Link>, v: string): set<string> {
    set e | 0 <= e < 2 * |links| && EndOf(links, e).0 == v :: EndOf(links, e).1
  }

  function FirstInterfaces(n: nat): set<string> { set k | 1 <= k <= n :: "eth" + Itoa(k) }

  lemma OnlyFirstInterfaces(pairs: seq<Pair>, links: seq<Link>, v: string, name: string)
    requires AreLinks(pairs, links) && name in InterfacesOf(links, v)
    ensures name in FirstInterfaces(Degree(pairs, v))
  {
    var e :| 0 <= e < 2 * |links| && EndOf(links, e).0 == v && EndOf(links, e).1 == name;
    EndIs(pairs, links, e);
    InterfacesAreOneToDegree(pairs, v);
    assert 1 <= Rank(Ends(pairs), e) <= Degree(pairs, v);
  }

  lemma AllFirstInterfaces(pairs: seq<Pair>, links: seq<Link>, v: string, k: nat)
    requires AreLinks(pairs, links) && 1 <= k <= Degree(pairs, v)
    ensures "eth" + Itoa(k) in InterfacesOf(links, v)
  {
    InterfacesAreOneToDegree(pairs, v);
    assert Given(Ends(pairs), v, k);
    var e :| 0 <= e < |Ends(pairs)| && Ends(pairs)[e] == v && Rank(Ends(pairs), e) == k;
    EndIs(pairs, links, e);
    assert EndOf(links, e).0 == v;
  }

  /** The number in an interface name. */
  function InterfaceNumber(name: string): nat {
    if "eth" <= name && Numeral(name[3..]) then Value(name[3..]) else 0
  }

  lemma NumberOfInterface(k: nat)
    ensures InterfaceNumber("eth" + Itoa(k)) == k
  {
    assert ("eth" + Itoa(k))[3..] == Itoa(k);
    ItoaValue(k);
  }

  /** A pod's interfaces are numbered in the order of the links. */
  lemma InterfacesInOrder(pairs: seq<Pair>, links: seq<Link>, d: nat, e: nat)
    requires AreLinks(pairs, links) && d < e < 2 * |links| && EndOf(links, d).0 == EndOf(links, e).0
    ensures 1 <= InterfaceNumber(EndOf(links, d).1) < InterfaceNumber(EndOf(links, e).1)
  {
    EndIs(pairs, links, d);
    EndIs(pairs, links, e);
    NoEndpointTwice(Ends(pairs), d, e);
    NumberOfInterface(Rank(Ends(pairs), d));
    NumberOfInterface(Rank(Ends(pairs), e));
  }

  /** Of the links returned, no two ends are the same pod and interface, and the
      interfaces in use on a pod are exactly eth1 to eth of its degree. */
  lemma LinkInterfaces(pairs: seq<Pair>, links: seq<Link>, v: string)
    requires AreLinks(pairs, links)
    ensures forall d, e | 0 <= d < e < 2 * |links| :: EndOf(links, d) != EndOf(links, e)
    ensures InterfacesOf(links, v) == FirstInterfaces(Degree(pairs, v))
  {
    forall d, e | 0 <= d < e < 2 * |links| ensures EndOf(links, d) != EndOf(links, e) {
      EndsDiffer(pairs, links, d, e);
    }
    forall name | name in InterfacesOf(links, v) ensures name in FirstInterfaces(Degree(pairs, v)) {
      OnlyFirstInterfaces(pairs, links, v, name);
    }
    forall k | 1 <= k <= Degree(pairs, v) ensures "eth" + Itoa(k) in InterfacesOf(links, v) {
      AllFirstInterfaces(pairs, links, v, k);
    }
  }

  /** The octets of link i's addresses fit a byte exactly below link 39000. */
  lemma LinkSubnetsValid(i: nat)
    ensures 100 + i / 250 <= 255 && i % 250 <= 255 <==> i < 39000
  {
  }

  /** Two links never share a /24, and the two ends of a link have different
      addresses in theirs. */
  lemma LinkSubnetsDistinct(i: nat, j: nat)
    requires i != j
    ensures (100 + i / 250, i % 250) != (100 + j / 250, j % 250)
    ensures LinkIps(i).0 != LinkIps(j).0 && LinkIps(i).1 != LinkIps(j).1 && LinkIps(i).0 != LinkIps(j).1
    ensures LinkIps(i).0 != LinkIps(i).1
  {
    LinkTextDetermines(i, ".1/24", j, ".1/24");
    LinkTextDetermines(i, ".2/24", j, ".2/24");
    LinkTextDetermines(i, ".1/24", j, ".2/24");
    LinkTextDetermines(i, ".1/24", i, ".2/24");
  }

  lemma LinkTextDetermines(i: nat, h: string, j: nat, k: string)
    requires h in {".1/24", ".2/24"} && k in {".1/24", ".2/24"}
    ensures AddressText(100 + i / 250, i % 250, h) == AddressText(100 + j / 250, j % 250, k) ==> i == j && h == k
  {
    if AddressText(100 + i / 250, i % 250, h) == AddressText(100 + j / 250, j % 250, k) {
      AddressTextDetermines(100 + i / 250, i % 250, h, 100 + j / 250, j % 250, k);
    }
  }

  lemma AddressTextDetermines(x: nat, y: nat, h: string, x2: nat, y2: nat, h2: string)
    requires |h| > 0 && h[0] == '.' && |h2| > 0 && h2[0] == '.'
    requires AddressText(x, y, h) == AddressText(x2, y2, h2)
    ensures x == x2 && y == y2 && h == h2
  {
    AfterTen(x, y, h);
    AfterTen(x2, y2, h2);
    FirstSeparator(Itoa(x), Itoa(y) + h, Itoa(x2), Itoa(y2) + h2, '.');
    ItoaInjective(x, x2);
    BeforeHost(Itoa(y), h, Itoa(y2), h2);
    ItoaInjective(y, y2);
  }

  lemma AfterTen(x: nat, y: nat, h: string)
    ensures AddressText(x, y, h)[3..] == Itoa(x) + ['.'] + (Itoa(y) + h)
  {
    assert AddressText(x, y, h) == "10." + (Itoa(x) + ['.'] + (Itoa(y) + h));
  }

  lemma BeforeHost(a: string, h: string, b: string, h2: string)
    requires |h| > 0 && h[0] == '.' && |h2| > 0 && h2[0] == '.'
    requires '.' !in a && '.' !in b && a + h == b + h2
    ensures a == b && h == h2
  {
    assert h == ['.'] + h[1..] && h2 == ['.'] + h2[1..];
    assert a + h == a + ['.'] + h[1..] && b + h2 == b + ['.'] + h2[1..];
    FirstSeparator(a, h[1..], b, h2[1..], '.');
  }

  /** An address with its prefix length, read from its text. */
  datatype Cidr = Cidr(octets: seq<nat>, ones: nat)

  function ReadCidr(text: string): Option<Cidr> {
    var halves := Split(text, '/');
    var octets := Split(halves[0], '.');
    if |halves| == 2 && Numeral(halves[1]) && forall i | 0 <= i < |octets| :: Numeral(octets[i])
    then Some(Cidr(Values(octets), Value(halves[1])))
    else None
  }

  lemma AddressParts(x: string, y: string, h: string)
    ensures "10." + x + "." + y + ("." + h + "/24") == ("10" + "." + (x + "." + (y + "." + h))) + "/" + "24"
  {
    assert "10." == "10" + "." && "/24" == "/" + "24";
  }

  lemma {:induction false} SlashFree(pieces: seq<string>)
    requires forall i | 0 <= i < |pieces| :: '/' !in pieces[i]
    ensures '/' !in Join(pieces, ".")
  {
    if |pieces| > 1 {
      assert forall i | 0 <= i < |pieces[1..]| :: pieces[1..][i] == pieces[i + 1];
      SlashFree(pieces[1..]);
    }
  }

  lemma PiecesRead(pieces: seq<string>, m: string)
    requires pieces != [] && Numeral(m) && forall i | 0 <= i < |pieces| :: Numeral(pieces[i])
    ensures ReadCidr(Join(pieces, ".") + "/" + m) == Some(Cidr(Values(pieces), Value(m)))
  {
    forall i | 0 <= i < |pieces| ensures '.' !in pieces[i] && '/' !in pieces[i] {
      NoSeparators(pieces[i]);
    }
    NoSeparators(m);
    SlashFree(pieces);
    SplitPiece(Join(pieces, "."), m, '/');
    SplitPiece(m, "", '/');
    SplitJoin(pieces, '.');
  }

  lemma DottedReads(a: string, b: string, c: string, d: string, m: string)
    requires Numeral(a) && Numeral(b) && Numeral(c) && Numeral(d) && Numeral(m)
    ensures ReadCidr(Join([a, b, c, d], ".") + "/" + m) == Some(Cidr([Value(a), Value(b), Value(c), Value(d)], Value(m)))
  {
    PiecesRead([a, b, c, d], m);
    FourValues(a, b, c, d);
  }

  lemma AddressReads(x: nat, y: nat, h: string)
    requires Numeral(h)
    ensures ReadCidr("10." + Itoa(x) + "." + Itoa(y) + ("." + h + "/24")) == Some(Cidr([10, x, y, Value(h)], 24))
  {
    AddressParts(Itoa(x), Itoa(y), h);
    JoinFour("10", Itoa(x), Itoa(y), h);
    DottedReads("10", Itoa(x), Itoa(y), h, "24");
    FixedNumerals();
    ItoaValue(x);
    ItoaValue(y);
  }

  lemma FixedNumerals()
    ensures Value("10") == 10 && Value("24") == 24 && Value("1") == 1 && Value("2") == 2
  {
    assert "10"[..1] == "1" && "24"[..1] == "2" && "1"[..0] == "" && "2"[..0] == "";
  }

  predicate Writable(octets: seq<nat>) { forall k | 0 <= k < |octets| :: octets[k] <= 255 }

  lemma WritableExactly(i: nat, host: nat)
    requires host <= 255
    ensures Writable([10, 100 + i / 250, i % 250, host]) <==> i < 39000
  {
    var octets := [10, 100 + i / 250, i % 250, host];
    LinkSubnetsValid(i);
    assert octets[0] == 10 && octets[1] == 100 + i / 250 && octets[2] == i % 250 && octets[3] == host;
  }

  lemma LinkIpsRead(i: nat)
    ensures ReadCidr(LinkIps(i).0) == Some(Cidr([10, 100 + i / 250, i % 250, 1], 24))
    ensures ReadCidr(LinkIps(i).1) == Some(Cidr([10, 100 + i / 250, i % 250, 2], 24))
  {
    assert ".1/24" == "." + "1" + "/24" && ".2/24" == "." + "2" + "/24";
    AddressReads(100 + i / 250, i % 250, "1");
    AddressReads(100 + i / 250, i % 250, "2");
    FixedNumerals();
  }

  /** The addresses on the links returned, read as addresses: link i has host 1 at its
      local end and host 2 at its peer end of the /24 numbered 100 + i / 250, i % 250
      under 10, which octets can write exactly below link 39000. */
  lemma LinkAddresses(pairs: seq<Pair>, links: seq<Link>, i: nat)
    requires AreLinks(pairs, links) && i < |links|
    ensures ReadCidr(links[i].localIp) == Some(Cidr([10, 100 + i / 250, i % 250, 1], 24))
    ensures ReadCidr(links[i].peerIp) == Some(Cidr([10, 100 + i / 250, i % 250, 2], 24))
    ensures Writable([10, 100 + i / 250, i % 250, 1]) && Writable([10, 100 + i / 250, i % 250, 2]) <==> i < 39000
  {
    assert IsLink(pairs, i, links[i]);
    LinkIpsRead(i);
    WritableExactly(i, 1);
    WritableExactly(i, 2);
  }

  /** The two ends of a link are two hosts of one /24, and no other link has an end in it. */
  lemma LinksInSubnetsOfTheirOwn(pairs: seq<Pair>, links: seq<Link>, i: nat, j: nat)
    requires AreLinks(pairs, links) && i < |links| && j < |links|
    ensures ReadCidr(links[i].localIp).Some? && ReadCidr(links[i].peerIp).Some?
    ensures ReadCidr(links[j].localIp).Some? && ReadCidr(links[j].peerIp).Some?
    ensures var (a, b) := (ReadCidr(links[i].localIp).value, ReadCidr(links[i].peerIp).value);
      var (c, d) := (ReadCidr(links[j].localIp).value, ReadCidr(links[j].peerIp).value);
      && |a.octets| == |b.octets| == |c.octets| == |d.octets| == 4
      && a.octets[..3] == b.octets[..3] && a.octets[3] != b.octets[3] && a.ones == b.ones == 24
      && (i != j ==> a.octets[..3] != c.octets[..3] && a.octets[..3] != d.octets[..3])
  {
    LinkAddresses(pairs, links, i);
    LinkAddresses(pairs, links, j);
    var (a, b) := (ReadCidr(links[i].localIp).value.octets, ReadCidr(links[i].peerIp).value.octets);
    var (c, d) := (ReadCidr(links[j].localIp).value.octets, ReadCidr(links[j].peerIp).value.octets);
    assert a[..3] == [10, 100 + i / 250, i % 250] == b[..3];
    assert c[..3] == [10, 100 + j / 250, j % 250] == d[..3];
    if i != j {
      SubnetDiffers(i, j);
    }
  }

  lemma SubnetDiffers(i: nat, j: nat)
    requires i != j
    ensures [10, 100 + i / 250, i % 250] != [10, 100 + j / 250, j % 250]
  {
    var x, y := [10, 100 + i / 250, i % 250], [10, 100 + j / 250, j % 250];
    assert x[1] == 100 + i / 250 && y[1] == 100 + j / 250 && x[2] == i % 250 && y[2] == j % 250;
    assert i == 250 * (i / 250) + i % 250 && j == 250 * (j / 250) + j % 250;
  }

  // ------------------------------------------------------------ shapes

  datatype Node = Node(name: string, replicas: nat)

  datatype Shape = Shape(nodes: seq<Node>, links: seq<Link>)

  function PodName(group: string, k: nat): string { group + "-" + Itoa(k) }

  function Pods(group: string, replicas: nat): (names: seq<string>)
    ensures |names| == replicas
    ensures forall k | 0 <= k < replicas :: names[k] == PodName(group, k)
  {
    seq(replicas, k requires 0 <= k < replicas => PodName(group, k))
  }

  /** pod_names: every replica of every node, in order. */
  function PodNames(nodes: seq<Node>): seq<string> {
    if nodes == [] then [] else Pods(nodes[0].name, nodes[0].replicas) + PodNames(nodes[1..])
  }

  function LinkPairs(links: seq<Link>): seq<Pair> {
    seq(|links|, i requires 0 <= i < |links| => (links[i].node, links[i].peerNode))
  }

  lemma PodNameDetermines(g: string, k: nat, h: string, j: nat)
    requires PodName(g, k) == PodName(h, j)
    ensures g == h && k == j
  {
    LastSeparator(g, Itoa(k), h, Itoa(j), '-');
    ItoaInjective(k, j);
  }

  lemma PodsDistinct(group: string, replicas: nat)
    ensures Distinct(Pods(group, replicas))
  {
    forall i, j | 0 <= i < j < replicas ensures PodName(group, i) != PodName(group, j) {
      if PodName(group, i) == PodName(group, j) {
        PodNameDetermines(group, i, group, j);
      }
    }
  }

  function LinePairs(names: seq<string>): (pairs: seq<Pair>)
    ensures |pairs| == if names == [] then 0 else |names| - 1
    ensures forall i | 0 <= i < |pairs| :: pairs[i] == (names[i], names[i + 1])
  {
    seq(if names == [] then 0 else |names| - 1, i requires 0 <= i < |names| - 1 => (names[i], names[i + 1]))
  }

  lemma LineShape(names: seq<string>)
    requires Distinct(names)
    ensures Simple(names, LinePairs(names)) && Connected(names, LinePairs(names))
  {
    var pairs := LinePairs(names);
    forall j, k | 0 <= j < k < |pairs| ensures Edge(pairs[j]) != Edge(pairs[k]) {
      DifferentEdges(pairs[j], pairs[k]);
    }
    forall i | 0 <= i < |names| - 1 ensures {names[i], names[i + 1]} in Edges(pairs) {
      assert Edge(pairs[i]) == {names[i], names[i + 1]};
    }
    ChainConnects(names, pairs);
  }

  lemma RingConnects(names: seq<string>)
    requires |names| >= 1
    ensures Connected(names, Cycle(names))
  {
    var pairs := Cycle(names);
    forall i | 0 <= i < |names| - 1 ensures {names[i], names[i + 1]} in Edges(pairs) {
      assert After(i, |names|) == i + 1;
      assert Edge(pairs[i]) == {names[i], names[i + 1]};
    }
    ChainConnects(names, pairs);
  }

  lemma SingleNodePods(group: string, n: nat)
    ensures PodNames([Node(group, n)]) == Pods(group, n)
  {
    assert [Node(group, n)][1..] == [];
  }

  /** ring: the first two names must exist, and two nodes get one link, so the
      ring its comment promises (n links, degree 2) starts at three. */
  method Ring(n: int, group: string) returns (t: Result<Shape>)
    ensures t.Ok? <==> n >= 2
    ensures t.Ok? ==>
      var names := PodNames(t.value.nodes);
      var pairs := LinkPairs(t.value.links);
      && |names| == n && (forall k | 0 <= k < n :: names[k] == group + "-" + Itoa(k)) && Distinct(names)
      && AreLinks(pairs, t.value.links)
      && (n == 2 ==> pairs == [(names[0], names[1])])
      && (n >= 3 ==> |pairs| == n && forall i | 0 <= i < n :: pairs[i] == (names[i], names[(i + 1) % n]))
      && Simple(names, pairs) && Connected(names, pairs)
      && (|pairs| == n <==> n >= 3)
      && forall v | v in names :: (Degree(pairs, v) == 2 <==> n >= 3)
  {
    if n < 2 {
      return Err("list index out of range");
    }
    var names := Pods(group, n);
    var pairs := if n > 2 then Cycle(names) else [(names[0], names[1])];
    var links := BuildLinks(pairs);
    assert LinkPairs(links) == pairs;
    PodsDistinct(group, n);
    SingleNodePods(group, n);
    if n > 2 {
      CycleIsSimple(names);
      RingConnects(names);
      forall v | v in names ensures Degree(pairs, v) == 2 {
        CycleDegree(names, v);
      }
    } else {
      LineShape(names);
      assert pairs == LinePairs(names);
      forall v | v in names ensures Degree(pairs, v) == 1 {
      }
    }
    t := Ok(Shape([Node(group, n)], links));
  }

  method Line(n: nat, group: string) returns (t: Shape)
    ensures |PodNames(t.nodes)| == n && forall k | 0 <= k < n :: PodNames(t.nodes)[k] == group + "-" + Itoa(k)
    ensures Distinct(PodNames(t.nodes)) && AreLinks(LinkPairs(t.links), t.links)
    ensures |t.links| == if n == 0 then 0 else n - 1
    ensures forall i | 0 <= i < |t.links| :: LinkPairs(t.links)[i] == (PodNames(t.nodes)[i], PodNames(t.nodes)[i + 1])
    ensures Simple(PodNames(t.nodes), LinkPairs(t.links)) && Connected(PodNames(t.nodes), LinkPairs(t.links))
  {
    var names := Pods(group, n);
    var links := BuildLinks(LinePairs(names));
    assert LinkPairs(links) == LinePairs(names);
    PodsDistinct(group, n);
    SingleNodePods(group, n);
    LineShape(names);
    t := Shape([Node(group, n)], links);
  }

  // ------------------------------------------------------------ sparse

  function GroupSize(n: nat, groups: nat, i: nat): nat
    requires groups > 0
  {
    n / groups + if i < n % groups then 1 else 0
  }

  function SparseNodes(n: nat, groups: seq<string>, i: nat): seq<Node>
    requires i <= |groups|
    decreases |groups| - i
  {
    if i == |groups| then []
    else (if GroupSize(n, |groups|, i) != 0 then [Node(groups[i], GroupSize(n, |groups|, i))] else []) + SparseNodes(n, groups, i + 1)
  }

  function SparseNames(n: nat, groups: seq<string>, i: nat): seq<string>
    requires i <= |groups|
    decreases |groups| - i
  {
    if i == |groups| then []
    else Pods(groups[i], GroupSize(n, |groups|, i)) + SparseNames(n, groups, i + 1)
  }

  /** Leaving out the empty groups loses no pod. */
  lemma {:induction false} SparseNamesArePodNames(n: nat, groups: seq<string>, i: nat)
    requires i <= |groups|
    ensures PodNames(SparseNodes(n, groups, i)) == SparseNames(n, groups, i)
    decreases |groups| - i
  {
    if i < |groups| {
      SparseNamesArePodNames(n, groups, i + 1);
      var rest := SparseNodes(n, groups, i + 1);
      if GroupSize(n, |groups|, i) != 0 {
        assert SparseNodes(n, groups, i) == [Node(groups[i], GroupSize(n, |groups|, i))] + rest;
        assert SparseNodes(n, groups, i)[1..] == rest;
      } else {
        assert SparseNodes(n, groups, i) == rest;
        assert Pods(groups[i], 0) == [];
      }
    }
  }

  /** The groups from i on hold what is left of n, sizes differing by at most one. */
  lemma {:induction false} SparseSizes(n: nat, groups: seq<string>, i: nat)
    requires 0 < |groups| && i <= |groups|
    ensures |SparseNames(n, groups, i)| == (|groups| - i) * (n / |groups|) + if i < n % |groups| then n % |groups| - i else 0
    decreases |groups| - i
  {
    if i < |groups| {
      SparseSizes(n, groups, i + 1);
      assert (|groups| - i) * (n / |groups|) == (|groups| - (i + 1)) * (n / |groups|) + n / |groups|;
    }
  }

  lemma {:induction false} SparseNamesFrom(n: nat, groups: seq<string>, i: nat, a: string)
    requires i <= |groups| && a in SparseNames(n, groups, i)
    ensures exists j, k: nat | i <= j < |groups| :: a == PodName(groups[j], k)
    decreases |groups| - i
  {
    var pods := Pods(groups[i], GroupSize(n, |groups|, i));
    if a in pods {
      var k :| 0 <= k < |pods| && pods[k] == a;
      assert a == PodName(groups[i], k);
    } else {
      SparseNamesFrom(n, groups, i + 1, a);
    }
  }

  lemma {:induction false} SparseNamesDistinct(n: nat, groups: seq<string>, i: nat)
    requires Distinct(groups) && i <= |groups|
    ensures Distinct(SparseNames(n, groups, i))
    decreases |groups| - i
  {
    if i < |groups| {
      var pods := Pods(groups[i], GroupSize(n, |groups|, i));
      var rest := SparseNames(n, groups, i + 1);
      PodsDistinct(groups[i], |pods|);
      SparseNamesDistinct(n, groups, i + 1);
      forall k, m | 0 <= k < |pods| && 0 <= m < |rest| ensures pods[k] != rest[m] {
        SparseNamesFrom(n, groups, i + 1, rest[m]);
        var j, l: nat :| i + 1 <= j < |groups| && rest[m] == PodName(groups[j], l);
        if pods[k] == rest[m] {
          PodNameDetermines(groups[i], k, groups[j], l);
        }
      }
      DistinctConcat(pods, rest);
    }
  }

  /** Group i holds the next n / g pods, and one more for the first n % g groups,
      counted from 0: where each name stands. */
  lemma {:induction false} SparseNamesAre(n: nat, groups: seq<string>, from: nat, i: nat, k: nat)
    requires groups != [] && from <= i < |groups|
    requires k < n / |groups| + if i < n % |groups| then 1 else 0
    ensures var names := SparseNames(n, groups, from);
      var left := (|groups| - i) * (n / |groups|) + if i < n % |groups| then n % |groups| - i else 0;
      0 <= |names| - left + k < |names| && names[|names| - left + k] == groups[i] + "-" + Itoa(k)
    decreases |groups| - from
  {
    SparseSizes(n, groups, i);
    var names, rest := SparseNames(n, groups, from), SparseNames(n, groups, from + 1);
    assert names == Pods(groups[from], GroupSize(n, |groups|, from)) + rest;
    if from < i {
      SparseNamesAre(n, groups, from + 1, i, k);
    } else {
      assert names[k] == PodName(groups[i], k);
    }
  }

  lemma DistinctConcat(xs: seq<string>, ys: seq<string>)
    requires Distinct(xs) && Distinct(ys)
    requires forall k, m | 0 <= k < |xs| && 0 <= m < |ys| :: xs[k] != ys[m]
    ensures Distinct(xs + ys)
  {
  }

  /** What the group sizes add up to, and that no pod name is given twice. */
  lemma SparseNamesFacts(n: nat, groups: seq<string>)
    requires groups != [] && Distinct(groups)
    ensures |SparseNames(n, groups, 0)| == n && Distinct(SparseNames(n, groups, 0))
    ensures PodNames(SparseNodes(n, groups, 0)) == SparseNames(n, groups, 0)
  {
    SparseSizes(n, groups, 0);
    SparseNamesDistinct(n, groups, 0);
    SparseNamesArePodNames(n, groups, 0);
  }

  /** The groups are as even as they can be. */
  lemma GroupsEven(n: nat, groups: nat, i: nat, j: nat)
    requires i <= j < groups
    ensures GroupSize(n, groups, j) <= GroupSize(n, groups, i) <= GroupSize(n, groups, j) + 1
  {
  }

  /** sparse with its random choices.  Once the draws are enough the links form a
      connected simple graph on exactly the topology's pods, with as many links as
      nodes, so degrees sum to 2n. */
  method Sparse(n: nat, groups: seq<string>, order: seq<string>, picks: seq<nat>, draws: seq<Pair>)
    returns (t: Shape, complete: bool)
    requires groups != [] && Distinct(groups)
    requires TreeChoices(SparseNames(n, groups, 0), order, picks)
    requires forall k | 0 <= k < |draws| :: SampleOf(SparseNames(n, groups, 0), draws[k])
    ensures PodNames(t.nodes) == SparseNames(n, groups, 0)
    ensures |PodNames(t.nodes)| == n && Distinct(PodNames(t.nodes)) && AreLinks(LinkPairs(t.links), t.links)
    ensures complete ==>
      var names := PodNames(t.nodes);
      var pairs := LinkPairs(t.links);
      && Simple(names, pairs) && Connected(names, pairs) && |pairs| == n
      && DegreeSum(names, pairs) == 2 * n
    ensures n >= 3 && Covers(PodNames(t.nodes), draws) ==> complete
  {
    ghost var names := SparseNames(n, groups, 0);
    SparseNamesFacts(n, groups);
    var pairs;
    pairs, complete := SparsePairs(SparseNames(n, groups, 0), order, picks, draws);
    assert complete ==> DegreeSum(names, pairs) == 2 * n by {
      DegreeSumIsTwiceEdges(names, pairs);
    }
    var links := BuildLinks(pairs);
    assert LinkPairs(links) == pairs;
    t := Shape(SparseNodes(n, groups, 0), links);
  }
}
