/** Reading `ip route` (capabilities/inspect_linux.go): each line is a destination
    followed by attributes with values and flags without, in no fixed order. */
module IPRoute {
  import opened GoStrings

  const VALUED: set<string> := {"via", "dev", "proto", "metric", "scope", "src", "table", "pref", "expires"}

  const TYPES: set<string> := {"unreachable", "blackhole", "prohibit", "unicast", "local", "broadcast", "multicast", "anycast"}

  datatype Row = Row(destination: string, family: string, protocol: string, gateway: string, iface: string,
                     distance: string, metric: string, status: string)

  /** What keyed has in its map after reading the rest of the tokens. */
  function KeyedFrom(tokens: seq<string>, valued: set<string>, out: map<string, string>): map<string, string>
    decreases |tokens|
  {
    if tokens == [] then out
    else if tokens[0] in valued && |tokens| > 1 then KeyedFrom(tokens[2..], valued, out[tokens[0] := tokens[1]])
    else KeyedFrom(tokens[1..], valued, out[tokens[0] := ""])
  }

  method Keyed(tokens: seq<string>, valued: set<string>) returns (out: map<string, string>)
    ensures out == KeyedFrom(tokens, valued, map[])
  {
    out := map[];
    var i := 0;
    assert tokens[0..] == tokens;
    while i < |tokens|
      invariant 0 <= i <= |tokens|
      invariant KeyedFrom(tokens[i..], valued, out) == KeyedFrom(tokens, valued, map[])
    {
      if tokens[i] in valued && i + 1 < |tokens| {
        assert tokens[i..][2..] == tokens[i + 2..];
        out := out[tokens[i] := tokens[i + 1]];
        i := i + 1;
      } else {
        assert tokens[i..][1..] == tokens[i + 1..];
        out := out[tokens[i] := ""];
      }
      i := i + 1;
    }
  }

  /** A Go map read: the zero value for a key that is not there. */
  function Get(m: map<string, string>, k: string): string { if k in m then m[k] else "" }

  function Destination(dst: string, family: string): string {
    if dst != "default" then dst else if family == "6" then "::/0" else "0.0.0.0/0"
  }

  function RowOf(dst: string, rest: seq<string>, family: string): Row {
    var kv := KeyedFrom(rest, VALUED, map[]);
    Row(Destination(dst, family), family, Get(kv, "proto"), Get(kv, "via"), Get(kv, "dev"), "", Get(kv, "metric"), "")
  }

  /** The rows one line gives: none when it is blank or a lone route type. */
  function RowsOfLine(line: string, family: string): seq<Row> {
    var tokens := Fields(line);
    if tokens == [] then []
    else if tokens[0] !in TYPES then [RowOf(tokens[0], tokens[1..], family)]
    else if |tokens| == 1 then []
    else [RowOf(tokens[1], tokens[2..], family)]
  }

  function RowsOfLines(lines: seq<string>, family: string): seq<Row> {
    if lines == [] then [] else RowsOfLines(lines[..|lines| - 1], family) + RowsOfLine(lines[|lines| - 1], family)
  }

  method ParseIPRoute(text: string, family: string) returns (rows: seq<Row>)
    ensures rows == RowsOfLines(Split(text, '\n'), family)
  {
    rows := [];
    var lines := Split(text, '\n');
    for i := 0 to |lines|
      invariant rows == RowsOfLines(lines[..i], family)
    {
      assert lines[..i + 1][..i] == lines[..i];
      var tokens := Fields(lines[i]);
      if |tokens| == 0 {
        continue;
      }
      var dst := tokens[0];
      var rest := tokens[1..];
      if dst in TYPES {
        if |rest| == 0 {
          continue;
        }
        dst, rest := rest[0], rest[1..];
        assert rest == tokens[2..];
      }
      if dst == "default" {
        dst := "0.0.0.0/0";
        if family == "6" {
          dst := "::/0";
        }
      }
      var kv := Keyed(rest, VALUED);
      rows := rows + [Row(dst, family, Get(kv, "proto"), Get(kv, "via"), Get(kv, "dev"), "", Get(kv, "metric"), "")];
    }
    assert lines[..|lines|] == lines;
  }

  // ------------------------------------------------------------ printed routes

  /** One thing after the destination: an attribute with its value, any word at all,
      or a flag, any word that is not an attribute. */
  datatype Item = Attr(key: string, value: string) | Flag(name: string)

  /** A route as `ip route` prints it; kind is "" for the usual unicast line. */
  datatype Route = Route(kind: string, dst: string, items: seq<Item>)

  predicate GoodItem(i: Item) {
    match i
    case Attr(k, _) => k in {"via", "dev", "proto", "metric", "scope", "src", "table", "pref", "expires"}
    case Flag(f) => f !in {"via", "dev", "proto", "metric", "scope", "src", "table", "pref", "expires"}
  }

  ghost predicate GoodRoute(r: Route) {
    && (if r.kind == "" then r.dst !in {"unreachable", "blackhole", "prohibit", "unicast", "local", "broadcast", "multicast", "anycast"}
        else r.kind in {"unreachable", "blackhole", "prohibit", "unicast", "local", "broadcast", "multicast", "anycast"})
    && forall i | 0 <= i < |r.items| :: GoodItem(r.items[i])
  }

  /** No attribute is given twice. */
  ghost predicate DistinctKeys(items: seq<Item>) {
    forall i, j | 0 <= i < j < |items| && items[i].Attr? && items[j].Attr? :: items[i].key != items[j].key
  }

  function Words(items: seq<Item>): seq<string> {
    if items == [] then []
    else (match items[0] case Attr(k, v) => [k, v] case Flag(f) => [f]) + Words(items[1..])
  }

  function Tokens(r: Route): seq<string> {
    (if r.kind == "" then [] else [r.kind]) + [r.dst] + Words(r.items)
  }

  /** The value the route gives an attribute: the last one when it repeats it, the
      empty string when it does not have it. */
  function Last(items: seq<Item>, k: string): string {
    if items == [] then ""
    else
      var i := items[|items| - 1];
      if i.Attr? && i.key == k then i.value else Last(items[..|items| - 1], k)
  }

  lemma {:induction false} LastFromFront(items: seq<Item>, k: string)
    requires items != []
    ensures Last(items, k) ==
            if (exists i | 1 <= i < |items| :: items[i].Attr? && items[i].key == k) then Last(items[1..], k)
            else if items[0].Attr? && items[0].key == k then items[0].value else ""
  {
    var last := |items| - 1;
    if last > 0 && !(items[last].Attr? && items[last].key == k) {
      LastFromFront(items[..last], k);
      assert items[..last][1..] == items[1..][..last - 1];
      assert items[1..][last - 1] == items[last];
    } else if last > 0 {
      assert items[1..][last - 1] == items[last];
    }
  }

  lemma {:induction false} NotThere(items: seq<Item>, k: string)
    requires forall i | 0 <= i < |items| :: !(items[i].Attr? && items[i].key == k)
    ensures Last(items, k) == ""
  {
    if items != [] {
      NotThere(items[..|items| - 1], k);
    }
  }

  /** keyed on printed items: a value is consumed with its key, so it never counts as
      an attribute of its own even when it is spelled like one. */
  lemma {:induction false} KeyedReadsItems(items: seq<Item>, out: map<string, string>, k: string)
    requires k in VALUED && forall i | 0 <= i < |items| :: GoodItem(items[i])
    ensures Get(KeyedFrom(Words(items), VALUED, out), k) ==
            if (exists i | 0 <= i < |items| :: items[i].Attr? && items[i].key == k) then Last(items, k) else Get(out, k)
  {
    if items != [] {
      var words := Words(items);
      var rest := items[1..];
      assert forall i | 0 <= i < |rest| :: rest[i] == items[i + 1];
      LastFromFront(items, k);
      match items[0]
      case Attr(key, value) =>
        assert words == [key, value] + Words(rest);
        assert words[2..] == Words(rest);
        KeyedReadsItems(rest, out[key := value], k);
      case Flag(name) =>
        assert words == [name] + Words(rest);
        assert words[1..] == Words(rest);
        KeyedReadsItems(rest, out[name := ""], k);
    }
  }

  lemma RecoversAttribute(items: seq<Item>, k: string)
    requires k in VALUED && forall i | 0 <= i < |items| :: GoodItem(items[i])
    ensures Get(KeyedFrom(Words(items), VALUED, map[]), k) == Last(items, k)
  {
    KeyedReadsItems(items, map[], k);
    if !(exists i | 0 <= i < |items| :: items[i].Attr? && items[i].key == k) {
      NotThere(items, k);
    }
  }

  /** The row a route should become. */
  function RowOfRoute(r: Route, family: string): Row {
    Row(Destination(r.dst, family), family, Last(r.items, "proto"), Last(r.items, "via"), Last(r.items, "dev"), "",
        Last(r.items, "metric"), "")
  }

  lemma LineRecoversRoute(r: Route, line: string, family: string)
    requires GoodRoute(r) && Fields(line) == Tokens(r)
    ensures RowsOfLine(line, family) == [RowOfRoute(r, family)]
  {
    var tokens := Tokens(r);
    if r.kind == "" {
      assert tokens[0] == r.dst && tokens[1..] == Words(r.items);
    } else {
      assert tokens[0] == r.kind && tokens[1] == r.dst && tokens[2..] == Words(r.items);
    }
    RecoversAttribute(r.items, "proto");
    RecoversAttribute(r.items, "via");
    RecoversAttribute(r.items, "dev");
    RecoversAttribute(r.items, "metric");
  }

  /** The lines print the routes in order, one a line, with blank lines anywhere and
      any white space between the words. */
  ghost predicate Prints(lines: seq<string>, routes: seq<Route>) {
    if lines == [] then routes == []
    else
      var (line, before) := (lines[|lines| - 1], lines[..|lines| - 1]);
      if Fields(line) == [] then Prints(before, routes)
      else
        && routes != []
        && GoodRoute(routes[|routes| - 1])
        && Fields(line) == Tokens(routes[|routes| - 1])
        && Prints(before, routes[..|routes| - 1])
  }

  function RowsOfRoutes(routes: seq<Route>, family: string): (rows: seq<Row>)
    ensures |rows| == |routes| && forall i | 0 <= i < |routes| :: rows[i] == RowOfRoute(routes[i], family)
  {
    if routes == [] then []
    else RowsOfRoutes(routes[..|routes| - 1], family) + [RowOfRoute(routes[|routes| - 1], family)]
  }

  lemma {:induction false} LinesRecoverRoutes(routes: seq<Route>, lines: seq<string>, family: string)
    requires Prints(lines, routes)
    ensures RowsOfLines(lines, family) == RowsOfRoutes(routes, family)
  {
    if lines != [] {
      var last := |lines| - 1;
      if Fields(lines[last]) == [] {
        LinesRecoverRoutes(routes, lines[..last], family);
      } else {
        LinesRecoverRoutes(routes[..|routes| - 1], lines[..last], family);
        LineRecoversRoute(routes[|routes| - 1], lines[last], family);
      }
    }
  }

  /** The whole read: routes printed one a line come back in order as rows with
      their destination, gateway, interface, protocol and metric. */
  lemma TextRecoversRoutes(routes: seq<Route>, lines: seq<string>, family: string)
    requires lines != [] && forall i | 0 <= i < |lines| :: '\n' !in lines[i]
    requires Prints(lines, routes)
    ensures RowsOfLines(Split(Join(lines, "\n"), '\n'), family) == RowsOfRoutes(routes, family)
  {
    SplitJoin(lines, '\n');
    assert Split(Join(lines, "\n"), '\n') == lines;
    LinesRecoverRoutes(routes, lines, family);
  }

  /** With no attribute twice, the value recovered is the one printed, wherever it is. */
  lemma {:induction false} LastIsTheOne(items: seq<Item>, i: nat)
    requires DistinctKeys(items) && i < |items| && items[i].Attr?
    ensures Last(items, items[i].key) == items[i].value
  {
    var last := |items| - 1;
    if i < last {
      LastIsTheOne(items[..last], i);
    }
  }

  /** Each field of the row a printed route of distinct attributes gives: an attribute
      that is there has its value, one that is not is empty. */
  lemma RouteIsRead(r: Route, line: string, family: string)
    requires GoodRoute(r) && DistinctKeys(r.items) && Fields(line) == Tokens(r)
    ensures |RowsOfLine(line, family)| == 1
    ensures var row := RowsOfLine(line, family)[0];
      && row.destination == (if r.dst == "default" then (if family == "6" then "::/0" else "0.0.0.0/0") else r.dst)
      && row.family == family && row.distance == "" && row.status == ""
      && Says(r.items, "via", row.gateway) && Says(r.items, "dev", row.iface)
      && Says(r.items, "proto", row.protocol) && Says(r.items, "metric", row.metric)
  {
    LineRecoversRoute(r, line, family);
    LastSays(r.items, "via");
    LastSays(r.items, "dev");
    LastSays(r.items, "proto");
    LastSays(r.items, "metric");
  }

  /** The value of the attribute if it is there, empty otherwise. */
  ghost predicate Says(items: seq<Item>, k: string, value: string) {
    if exists i | 0 <= i < |items| :: items[i].Attr? && items[i].key == k then
      forall i | 0 <= i < |items| && items[i].Attr? && items[i].key == k :: items[i].value == value
    else value == ""
  }

  lemma LastSays(items: seq<Item>, k: string)
    requires DistinctKeys(items)
    ensures Says(items, k, Last(items, k))
  {
    if i :| 0 <= i < |items| && items[i].Attr? && items[i].key == k {
      LastIsTheOne(items, i);
    } else {
      NotThere(items, k);
    }
  }

  /** A line with a route type alone, or with nothing, gives no row. */
  lemma NothingToRead(line: string, family: string)
    requires Fields(line) == [] || (|Fields(line)| == 1 && Fields(line)[0]
      in {"unreachable", "blackhole", "prohibit", "unicast", "local", "broadcast", "multicast", "anycast"})
    ensures RowsOfLine(line, family) == []
  {
  }
}
