/** Simple graphs as lists of pairs of names: what the topology generator's
    comments say of its links (experiments/gen_topology.py). */
module Graphs {
  type Pair = (string, string)

  /** The unordered edge of a pair, the generator's frozenset. */
  function Edge(p: Pair): set<string> { {p.0, p.1} }

  ghost predicate Distinct<T>(xs: seq<T>) {
    forall i, j | 0 <= i < j < |xs| :: xs[i] != xs[j]
  }

  /** Edges between two different names of the list, no edge twice. */
  ghost predicate Simple(names: seq<string>, pairs: seq<Pair>) {
    && (forall k | 0 <= k < |pairs| :: pairs[k].0 in names && pairs[k].1 in names && pairs[k].0 != pairs[k].1)
    && (forall j, k | 0 <= j < k < |pairs| :: Edge(pairs[j]) != Edge(pairs[k]))
  }

  ghost predicate Path(es: set<set<string>>, p: seq<string>) {
    |p| > 0 && forall k | 0 <= k < |p| - 1 :: {p[k], p[k + 1]} in es
  }

  ghost predicate Reach(es: set<set<string>>, a: string, b: string) {
    exists p: seq<string> :: Path(es, p) && p[0] == a && p[|p| - 1] == b
  }

  ghost function Edges(pairs: seq<Pair>): (es: set<set<string>>) {
    set k | 0 <= k < |pairs| :: Edge(pairs[k])
  }

  /** Any two names are joined by a path. */
  ghost predicate Connected(names: seq<string>, pairs: seq<Pair>) {
    forall a, b | a in names && b in names :: Reach(Edges(pairs), a, b)
  }

  lemma ReachSelf(es: set<set<string>>, a: string)
    ensures Reach(es, a, a)
  {
    assert Path(es, [a]);
  }

  lemma ReachSymmetric(es: set<set<string>>, a: string, b: string)
    requires Reach(es, a, b)
    ensures Reach(es, b, a)
  {
    var p :| Path(es, p) && p[0] == a && p[|p| - 1] == b;
    var q := seq(|p|, i requires 0 <= i < |p| => p[|p| - 1 - i]);
    forall k | 0 <= k < |q| - 1 ensures {q[k], q[k + 1]} in es {
      var j := |p| - 2 - k;
      assert {p[j], p[j + 1]} in es;
      assert {q[k], q[k + 1]} == {p[j], p[j + 1]};
    }
    assert Path(es, q);
  }

  lemma ReachTransitive(es: set<set<string>>, a: string, b: string, c: string)
    requires Reach(es, a, b) && Reach(es, b, c)
    ensures Reach(es, a, c)
  {
    var p :| Path(es, p) && p[0] == a && p[|p| - 1] == b;
    var q :| Path(es, q) && q[0] == b && q[|q| - 1] == c;
    var r := p + q[1..];
    forall k | 0 <= k < |r| - 1 ensures {r[k], r[k + 1]} in es {
      if k < |p| - 1 {
        assert {p[k], p[k + 1]} in es;
      } else {
        var j := k - (|p| - 1);
        assert {q[j], q[j + 1]} in es;
        assert r[k] == q[j] && r[k + 1] == q[j + 1];
      }
    }
    assert Path(es, r);
  }

  /** One more edge keeps every path and joins its two ends. */
  lemma ReachGrows(es: set<set<string>>, fs: set<set<string>>, a: string, b: string)
    requires es <= fs && Reach(es, a, b)
    ensures Reach(fs, a, b)
  {
    var p :| Path(es, p) && p[0] == a && p[|p| - 1] == b;
    assert Path(fs, p);
  }

  lemma ReachEdge(es: set<set<string>>, a: string, b: string)
    requires {a, b} in es
    ensures Reach(es, a, b)
  {
    assert Path(es, [a, b]);
  }

  /** Names that all reach one name reach each other. */
  lemma HubConnects(names: seq<string>, pairs: seq<Pair>, hub: string)
    requires forall a | a in names :: Reach(Edges(pairs), hub, a)
    ensures Connected(names, pairs)
  {
    forall a, b | a in names && b in names ensures Reach(Edges(pairs), a, b) {
      ReachSymmetric(Edges(pairs), hub, a);
      ReachTransitive(Edges(pairs), a, hub, b);
    }
  }

  lemma {:induction false} EdgeCount(pairs: seq<Pair>)
    requires forall j, k | 0 <= j < k < |pairs| :: Edge(pairs[j]) != Edge(pairs[k])
    ensures |Edges(pairs)| == |pairs|
  {
    if pairs != [] {
      var last := |pairs| - 1;
      EdgeCount(pairs[..last]);
      EdgesSnoc(pairs[..last], pairs[last]);
      assert pairs[..last] + [pairs[last]] == pairs;
    }
  }

  lemma EdgesSnoc(pairs: seq<Pair>, p: Pair)
    ensures Edges(pairs + [p]) == Edges(pairs) + {Edge(p)}
  {
    var longer := pairs + [p];
    assert forall k | 0 <= k < |pairs| :: longer[k] == pairs[k];
    assert longer[|pairs|] == p;
    forall e | e in Edges(pairs) + {Edge(p)} ensures e in Edges(longer) {
      if e in Edges(pairs) {
        var k :| 0 <= k < |pairs| && Edge(pairs[k]) == e;
        assert Edge(longer[k]) == e;
      }
    }
  }

  // ------------------------------------------------------------ cycles

  /** The ring through the names in order. */
  function Cycle(names: seq<string>): (pairs: seq<Pair>)
    requires |names| >= 1
    ensures |pairs| == |names|
    ensures forall i | 0 <= i < |names| :: pairs[i] == (names[i], names[(i + 1) % |names|])
  {
    seq(|names|, i requires 0 <= i < |names| => (names[i], names[(i + 1) % |names|]))
  }

  lemma DifferentEdges(p: Pair, q: Pair)
    requires (p.0 != q.0 && p.0 != q.1) || (p.1 != q.0 && p.1 != q.1)
    ensures Edge(p) != Edge(q)
  {
    assert p.0 in Edge(p) && p.1 in Edge(p);
  }

  function After(i: nat, n: nat): (j: nat)
    requires i < n
    ensures j == (i + 1) % n
  {
    if i + 1 == n then 0 else i + 1
  }

  lemma CycleIsSimple(names: seq<string>)
    requires Distinct(names) && |names| >= 3
    ensures Simple(names, Cycle(names))
  {
    var n := |names|;
    var c := Cycle(names);
    forall j | 0 <= j < n ensures c[j].0 in names && c[j].1 in names && c[j].0 != c[j].1 {
      assert c[j] == (names[j], names[After(j, n)]);
    }
    forall j, k | 0 <= j < k < n ensures Edge(c[j]) != Edge(c[k]) {
      assert c[j] == (names[j], names[j + 1]) by {
        assert After(j, n) == j + 1;
      }
      assert c[k] == (names[k], names[After(k, n)]);
      if k == n - 1 && j == 0 {
        assert names[1] != names[0] && names[1] != names[n - 1];
      } else {
        assert names[j] != names[k] && names[j] != names[After(k, n)];
      }
      DifferentEdges(c[j], c[k]);
    }
  }

  lemma {:induction false} ChainReaches(names: seq<string>, pairs: seq<Pair>, k: nat)
    requires k < |names|
    requires forall i | 0 <= i < |names| - 1 :: {names[i], names[i + 1]} in Edges(pairs)
    ensures Reach(Edges(pairs), names[0], names[k])
  {
    if k == 0 {
      ReachSelf(Edges(pairs), names[0]);
    } else {
      ChainReaches(names, pairs, k - 1);
      ReachEdge(Edges(pairs), names[k - 1], names[k]);
      ReachTransitive(Edges(pairs), names[0], names[k - 1], names[k]);
    }
  }

  lemma ChainConnects(names: seq<string>, pairs: seq<Pair>)
    requires forall i | 0 <= i < |names| - 1 :: {names[i], names[i + 1]} in Edges(pairs)
    ensures Connected(names, pairs)
  {
    if |names| > 0 {
      forall a | a in names ensures Reach(Edges(pairs), names[0], a) {
        var k :| 0 <= k < |names| && names[k] == a;
        ChainReaches(names, pairs, k);
      }
      HubConnects(names, pairs, names[0]);
    }
  }

  lemma {:induction false} FewerEdgesThanSet(es: set<set<string>>, fs: set<set<string>>)
    requires fs <= es
    ensures |fs| <= |es|
  {
    if fs != {} {
      var e :| e in fs;
      FewerEdgesThanSet(es - {e}, fs - {e});
    }
  }

  /** Joining every two of at least three names takes as many edges as names. */
  lemma AllPairsNeedManyEdges(names: seq<string>, es: set<set<string>>)
    requires Distinct(names) && |names| >= 3
    requires forall a, b | a in names && b in names && a != b :: {a, b} in es
    ensures |es| >= |names|
  {
    var c := Cycle(names);
    CycleIsSimple(names);
    EdgeCount(c);
    forall e | e in Edges(c) ensures e in es {
      var k :| 0 <= k < |c| && Edge(c[k]) == e;
      assert {c[k].0, c[k].1} in es;
    }
    FewerEdgesThanSet(es, Edges(c));
  }

  /** While there are fewer edges than names, some pair of names is not joined. */
  lemma MissingPair(names: seq<string>, es: set<set<string>>) returns (a: string, b: string)
    requires Distinct(names) && |names| >= 3 && |es| < |names|
    ensures a in names && b in names && a != b && {a, b} !in es
  {
    if forall a, b | a in names && b in names && a != b :: {a, b} in es {
      AllPairsNeedManyEdges(names, es);
      assert false;
    }
    a, b :| a in names && b in names && a != b && {a, b} !in es;
  }

  // ------------------------------------------------------------ degrees

  /** How often a name stands at an end of a pair. */
  function Degree(pairs: seq<Pair>, v: string): nat {
    if pairs == [] then 0
    else
      var p := pairs[|pairs| - 1];
      Degree(pairs[..|pairs| - 1], v) + (if p.0 == v then 1 else 0) + if p.1 == v then 1 else 0
  }

  function DegreeSum(names: seq<string>, pairs: seq<Pair>): nat {
    if names == [] then 0
    else DegreeSum(names[..|names| - 1], pairs) + Degree(pairs, names[|names| - 1])
  }

  /** How often v is in the list. */
  function Occurrences(names: seq<string>, v: string): nat {
    if names == [] then 0
    else Occurrences(names[..|names| - 1], v) + if names[|names| - 1] == v then 1 else 0
  }

  lemma {:induction false} DegreeSumSnoc(names: seq<string>, pairs: seq<Pair>, p: Pair)
    ensures DegreeSum(names, pairs + [p]) == DegreeSum(names, pairs) + Occurrences(names, p.0) + Occurrences(names, p.1)
  {
    if names != [] {
      DegreeSumSnoc(names[..|names| - 1], pairs, p);
      assert (pairs + [p])[..|pairs|] == pairs;
    }
  }

  lemma {:induction false} OccursOnce(names: seq<string>, v: string)
    requires Distinct(names)
    ensures Occurrences(names, v) == if v in names then 1 else 0
  {
    if names != [] {
      var last := |names| - 1;
      OccursOnce(names[..last], v);
      assert names == names[..last] + [names[last]];
    }
  }

  /** Every edge adds two to the sum of the degrees. */
  lemma {:induction false} DegreeSumIsTwiceEdges(names: seq<string>, pairs: seq<Pair>)
    requires Distinct(names)
    requires forall k | 0 <= k < |pairs| :: pairs[k].0 in names && pairs[k].1 in names
    ensures DegreeSum(names, pairs) == 2 * |pairs|
  {
    if pairs == [] {
      NoEdgesNoDegree(names);
    } else {
      var last := |pairs| - 1;
      DegreeSumIsTwiceEdges(names, pairs[..last]);
      DegreeSumSnoc(names, pairs[..last], pairs[last]);
      OccursOnce(names, pairs[last].0);
      OccursOnce(names, pairs[last].1);
      assert pairs[..last] + [pairs[last]] == pairs;
    }
  }

  lemma {:induction false} NoEdgesNoDegree(names: seq<string>)
    ensures DegreeSum(names, []) == 0
  {
    if names != [] {
      NoEdgesNoDegree(names[..|names| - 1]);
    }
  }

  function Firsts(pairs: seq<Pair>): seq<string> { seq(|pairs|, i requires 0 <= i < |pairs| => pairs[i].0) }

  function Seconds(pairs: seq<Pair>): seq<string> { seq(|pairs|, i requires 0 <= i < |pairs| => pairs[i].1) }

  lemma {:induction false} DegreeSplits(pairs: seq<Pair>, v: string)
    ensures Degree(pairs, v) == Occurrences(Firsts(pairs), v) + Occurrences(Seconds(pairs), v)
  {
    if pairs != [] {
      var last := |pairs| - 1;
      DegreeSplits(pairs[..last], v);
      assert Firsts(pairs)[..last] == Firsts(pairs[..last]);
      assert Seconds(pairs)[..last] == Seconds(pairs[..last]);
    }
  }

  lemma {:induction false} OccurrencesConcat(a: seq<string>, b: seq<string>, v: string)
    ensures Occurrences(a + b, v) == Occurrences(a, v) + Occurrences(b, v)
  {
    if b == [] {
      assert a + b == a;
    } else {
      var last := |b| - 1;
      OccurrencesConcat(a, b[..last], v);
      assert (a + b)[..|a + b| - 1] == a + b[..last];
    }
  }

  lemma CycleDegree(names: seq<string>, v: string)
    requires Distinct(names) && |names| >= 1 && v in names
    ensures Degree(Cycle(names), v) == 2
  {
    DegreeSplits(Cycle(names), v);
    CycleFirsts(names);
    CycleSeconds(names);
    OccursOnce(names, v);
    TurnedOccurrences(names, v);
  }

  /** Moving the first name to the end changes no count. */
  lemma TurnedOccurrences(names: seq<string>, v: string)
    requires |names| >= 1
    ensures Occurrences(names[1..] + [names[0]], v) == Occurrences(names, v)
  {
    OccurrencesConcat(names[1..], [names[0]], v);
    OccurrencesConcat([names[0]], names[1..], v);
    assert [names[0]] + names[1..] == names;
  }

  lemma CycleFirsts(names: seq<string>)
    requires |names| >= 1
    ensures Firsts(Cycle(names)) == names
  {
  }

  lemma CycleSeconds(names: seq<string>)
    requires |names| >= 1
    ensures Seconds(Cycle(names)) == names[1..] + [names[0]]
  {
    forall i | 0 <= i < |names| ensures Seconds(Cycle(names))[i] == (names[1..] + [names[0]])[i] {
      assert After(i, |names|) == (i + 1) % |names|;
    }
  }
}
