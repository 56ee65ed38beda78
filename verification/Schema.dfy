/** Database start-up: CREATE TABLE and CREATE INDEX IF NOT EXISTS, then the pending
    migration steps and the version stamp (database/database.go).  A start-up may be
    cut off between any two statements. */
module Schema {

  /** A column with its declaration and the value existing rows get for it. */
  datatype Column = Column(name: string, decl: string, default: string)

  datatype Table = Table(columns: seq<Column>, rows: seq<map<string, string>>)

  /** The file: its tables, the names of its indexes and PRAGMA user_version. */
  datatype File = File(tables: map<string, Table>, indexes: set<string>, version: int)

  const SCHEMA_VERSION := 3
  const LINKS := "link_attributes"
  const BASE := 10

  function KeyColumn(name: string): Column { Column(name, "TEXT NOT NULL", "") }

  function TextColumn(name: string): Column { Column(name, "TEXT NOT NULL DEFAULT ''", "") }

  const MTU := Column("mtu", "INTEGER NOT NULL DEFAULT 0", "0")
  const LOCAL := TextColumn("local_addresses")
  const PEER := TextColumn("peer_addresses")

  /** link_attributes as createTables declares it today; version 1 had the first
      ten columns, version 2 added the eleventh, version 3 the last two. */
  const CURRENT: seq<Column> := [
    TextColumn("cluster_id"), KeyColumn("namespace"), KeyColumn("node"), KeyColumn("intf"),
    KeyColumn("peer_node"), KeyColumn("peer_intf"), TextColumn("delay"), TextColumn("jitter"),
    TextColumn("loss"), TextColumn("bandwidth"), MTU, LOCAL, PEER]

  datatype Statement =
    | CreateTable(table: string, columns: seq<Column>)  // IF NOT EXISTS
    | CreateIndex(index: string, on: string)            // IF NOT EXISTS
    | AddColumnIfMissing(table: string, column: Column)
    | Stamp

  predicate HasColumn(t: Table, name: string) {
    exists i | 0 <= i < |t.columns| :: t.columns[i].name == name
  }

  function AddColumn(t: Table, c: Column): Table {
    Table(t.columns + [c], seq(|t.rows|, i requires 0 <= i < |t.rows| => t.rows[i][c.name := c.default]))
  }

  function Exec(f: File, s: Statement): File {
    match s
    case CreateTable(table, columns) =>
      if table in f.tables then f else f.(tables := f.tables[table := Table(columns, [])])
    case CreateIndex(index, on) =>
      if on in f.tables then f.(indexes := f.indexes + {index}) else f
    case AddColumnIfMissing(table, column) =>
      if table !in f.tables || HasColumn(f.tables[table], column.name) then f
      else f.(tables := f.tables[table := AddColumn(f.tables[table], column)])
    case Stamp => f.(version := SCHEMA_VERSION)
  }

  function ExecAll(f: File, ss: seq<Statement>): File {
    if ss == [] then f else Exec(ExecAll(f, ss[..|ss| - 1]), ss[|ss| - 1])
  }

  /** The migration statements for a file found at a version. */
  function Pending(version: int): seq<Statement> {
    if version >= SCHEMA_VERSION then []
    else
      (if version < 2 then [AddColumnIfMissing(LINKS, MTU)] else [])
      + LastSteps()
  }

  function LastSteps(): seq<Statement> {
    [AddColumnIfMissing(LINKS, LOCAL), AddColumnIfMissing(LINKS, PEER), Stamp]
  }

  /** Everything a start-up executes on a file at a version.  The tables other than
      link_attributes are whatever the list of queries says. */
  function Startup(queries: seq<Statement>, version: int): seq<Statement> {
    queries + Pending(version)
  }

  /** A CREATE TABLE, of link_attributes only at its current columns, or CREATE INDEX. */
  predicate Creates(s: Statement) {
    s.CreateIndex? || (s.CreateTable? && (s.table == LINKS ==> s.columns == CURRENT))
  }

  /** createTables' list: tables, link_attributes among them, and indexes. */
  ghost predicate Queries(queries: seq<Statement>) {
    && (forall i | 0 <= i < |queries| :: Creates(queries[i]))
    && CreateTable(LINKS, CURRENT) in queries
  }

  // ------------------------------------------------------------ the code

  class Database {
    var file: File

    constructor (file: File)
      ensures this.file == file
    {
      this.file := file;
    }

    method Run(s: Statement)
      modifies this
      ensures file == Exec(old(file), s)
    {
      match s {
        case CreateTable(table, columns) =>
          if table !in file.tables {
            file := file.(tables := file.tables[table := Table(columns, [])]);
          }
        case CreateIndex(index, on) =>
          if on in file.tables {
            file := file.(indexes := file.indexes + {index});
          }
        case AddColumnIfMissing(table, column) =>
          if table in file.tables {
            var t := file.tables[table];
            for i := 0 to |t.columns|
              invariant forall k | 0 <= k < i :: t.columns[k].name != column.name
            {
              if t.columns[i].name == column.name {
                return;
              }
            }
            file := file.(tables := file.tables[table := AddColumn(t, column)]);
          }
        case Stamp =>
          file := file.(version := SCHEMA_VERSION);
      }
    }

    method CreateTables(queries: seq<Statement>, budget: nat)
      modifies this
      ensures file == ExecAll(old(file), queries[..Least(budget, |queries|)])
    {
      var n := 0;
      while n < |queries| && n < budget
        invariant n <= Least(budget, |queries|)
        invariant file == ExecAll(old(file), queries[..n])
      {
        ExecNext(old(file), queries, n);
        Run(queries[n]);
        n := n + 1;
      }
    }

    method ApplyMigrations(budget: nat) returns (finished: bool)
      modifies this
      ensures var all := Pending(old(file.version));
        && file == ExecAll(old(file), all[..Least(budget, |all|)])
        && (finished <==> budget >= |all| && old(file.version) <= SCHEMA_VERSION)
    {
      var version := file.version;
      if version == SCHEMA_VERSION {
        return true;
      }
      if version > SCHEMA_VERSION {
        return false;
      }
      ghost var all := Pending(version);
      var n := 0;
      if version < 2 {
        if n == budget { return false; }
        ExecNext(old(file), all, n);
        Run(AddColumnIfMissing(LINKS, MTU));
        n := n + 1;
      }
      if n == budget { return false; }
      ExecNext(old(file), all, n);
      Run(AddColumnIfMissing(LINKS, LOCAL));
      n := n + 1;
      if n == budget { return false; }
      ExecNext(old(file), all, n);
      Run(AddColumnIfMissing(LINKS, PEER));
      n := n + 1;
      if n == budget { return false; }
      ExecNext(old(file), all, n);
      Run(Stamp);
      return true;
    }

    /** createTables and applyMigrations, cut off after budget statements; finished
        says the start-up came to its end without refusing the file. */
    method InitDB(queries: seq<Statement>, budget: nat) returns (finished: bool)
      requires Queries(queries)
      modifies this
      ensures var all := Startup(queries, old(file.version));
        && file == ExecAll(old(file), all[..Least(budget, |all|)])
        && (finished <==> budget >= |all| && old(file.version) <= SCHEMA_VERSION)
    {
      CreateTables(queries, budget);
      ghost var all := Startup(queries, old(file.version));
      CreatesKeepVersion(old(file), queries[..Least(budget, |queries|)]);
      if budget < |queries| {
        assert all[..budget] == queries[..budget];
        return false;
      }
      assert queries[..|queries|] == queries;
      ghost var pending := Pending(file.version);
      ghost var m := Least(budget - |queries|, |pending|);
      ExecAppend(old(file), queries, pending[..m]);
      assert all[..Least(budget, |all|)] == queries + pending[..m];
      finished := ApplyMigrations(budget - |queries|);
    }
  }

  function Least(a: nat, b: nat): nat { if a < b then a else b }

  lemma {:induction false} CreatesKeepVersion(f: File, ss: seq<Statement>)
    requires forall i | 0 <= i < |ss| :: Creates(ss[i])
    ensures ExecAll(f, ss).version == f.version
  {
    if ss != [] {
      CreatesKeepVersion(f, ss[..|ss| - 1]);
    }
  }

  lemma ExecNext(f: File, all: seq<Statement>, n: nat)
    requires n < |all|
    ensures ExecAll(f, all[..n + 1]) == Exec(ExecAll(f, all[..n]), all[n])
  {
    assert all[..n + 1][..n] == all[..n];
  }

  // ------------------------------------------------------------ what holds

  function ColumnsNeeded(version: int): nat {
    if version < 2 then BASE else if version == 2 then BASE + 1 else BASE + 3
  }

  /** A file this build may meet: a stamped version implies its columns are there,
      and the columns are the current ones up to some point. */
  ghost predicate Consistent(f: File) {
    if LINKS in f.tables then
      var columns := f.tables[LINKS].columns;
      ColumnsNeeded(f.version) <= |columns| <= |CURRENT| && columns == CURRENT[..|columns|]
    else f.version < 2
  }

  lemma CurrentNames(i: nat, j: nat)
    requires i < j < |CURRENT|
    ensures CURRENT[i].name != CURRENT[j].name
  {
    assert CURRENT[BASE] == MTU && CURRENT[BASE + 1] == LOCAL && CURRENT[BASE + 2] == PEER;
  }

  /** Adding the next column of the list appends it; adding one that is there does nothing. */
  lemma AddsInOrder(f: File, k: nat)
    requires Consistent(f) && LINKS in f.tables && BASE <= k < |CURRENT| && k <= |f.tables[LINKS].columns|
    ensures var g := Exec(f, AddColumnIfMissing(LINKS, CURRENT[k]));
      && Consistent(g) && LINKS in g.tables && g.version == f.version
      && |g.tables[LINKS].columns| == if k < |f.tables[LINKS].columns| then |f.tables[LINKS].columns| else k + 1
  {
    var columns := f.tables[LINKS].columns;
    if k < |columns| {
      assert columns[k] == CURRENT[k];
      assert HasColumn(f.tables[LINKS], CURRENT[k].name);
    } else {
      forall i | 0 <= i < |columns| ensures columns[i].name != CURRENT[k].name {
        CurrentNames(i, k);
      }
      assert CURRENT[..k + 1] == CURRENT[..k] + [CURRENT[k]];
    }
  }

  lemma CreateKeepsConsistent(f: File, s: Statement)
    requires Consistent(f) && Creates(s)
    ensures Consistent(Exec(f, s)) && Exec(f, s).version == f.version
    ensures LINKS in f.tables || (s.CreateTable? && s.table == LINKS) ==> LINKS in Exec(f, s).tables
  {
    assert CURRENT[..|CURRENT|] == CURRENT;
  }

  lemma {:induction false} CreatesKeepConsistent(f: File, queries: seq<Statement>, n: nat)
    requires Consistent(f) && n <= |queries|
    requires forall i | 0 <= i < |queries| :: Creates(queries[i])
    ensures var g := ExecAll(f, queries[..n]); Consistent(g) && g.version == f.version
    ensures LINKS in f.tables || CreateTable(LINKS, CURRENT) in queries[..n] ==> LINKS in ExecAll(f, queries[..n]).tables
  {
    if n > 0 {
      CreatesKeepConsistent(f, queries, n - 1);
      ExecNext(f, queries, n - 1);
      CreateKeepsConsistent(ExecAll(f, queries[..n - 1]), queries[n - 1]);
    }
  }

  /** The last two columns and the stamp, after any number of the three statements. */
  lemma LastStepsKeepConsistent(f: File, n: nat)
    requires Consistent(f) && LINKS in f.tables && |f.tables[LINKS].columns| > BASE && f.version < SCHEMA_VERSION && n <= 3
    ensures Consistent(ExecAll(f, LastSteps()[..n]))
    ensures n == 3 ==> var g := ExecAll(f, LastSteps());
      g.version == SCHEMA_VERSION && LINKS in g.tables && g.tables[LINKS].columns == CURRENT
  {
    var p := LastSteps();
    LaterColumns();
    var f1 := Exec(f, AddColumnIfMissing(LINKS, LOCAL));
    AddsInOrder(f, BASE + 1);
    var f2 := Exec(f1, AddColumnIfMissing(LINKS, PEER));
    AddsInOrder(f1, BASE + 2);
    StampWhenComplete(f2);
    LastStepsAre(f, n);
  }

  lemma LaterColumns()
    ensures |CURRENT| == BASE + 3 && CURRENT[BASE] == MTU && CURRENT[BASE + 1] == LOCAL && CURRENT[BASE + 2] == PEER
  {
  }

  lemma StampWhenComplete(f: File)
    requires Consistent(f) && LINKS in f.tables && |f.tables[LINKS].columns| == |CURRENT|
    ensures var g := Exec(f, Stamp);
      Consistent(g) && g.version == SCHEMA_VERSION && LINKS in g.tables && g.tables[LINKS].columns == CURRENT
  {
    LaterColumns();
    assert CURRENT[..|CURRENT|] == CURRENT;
  }

  lemma LastStepsAre(f: File, n: nat)
    requires n <= 3
    ensures var f1 := Exec(f, AddColumnIfMissing(LINKS, LOCAL));
      var f2 := Exec(f1, AddColumnIfMissing(LINKS, PEER));
      ExecAll(f, LastSteps()[..n]) == if n == 0 then f else if n == 1 then f1 else if n == 2 then f2 else Exec(f2, Stamp)
    ensures n == 3 ==> LastSteps()[..n] == LastSteps()
  {
    var p := LastSteps();
    ExecNext(f, p, 0);
    ExecNext(f, p, 1);
    ExecNext(f, p, 2);
  }

  /** The migration after any number of its statements. */
  lemma MigrationKeepsConsistent(f: File, n: nat)
    requires Consistent(f) && LINKS in f.tables && n <= |Pending(f.version)|
    ensures Consistent(ExecAll(f, Pending(f.version)[..n]))
    ensures n == |Pending(f.version)| && f.version <= SCHEMA_VERSION ==>
      var g := ExecAll(f, Pending(f.version));
      g.version == SCHEMA_VERSION && LINKS in g.tables && g.tables[LINKS].columns == CURRENT
  {
    var p := Pending(f.version);
    assert p[..|p|] == p;
    if f.version < 2 {
      AddsInOrder(f, BASE);
      if n > 0 {
        ExecNext(f, p, 0);
        ExecAppend(f, p[..1], LastSteps()[..n - 1]);
        assert p[..n] == p[..1] + LastSteps()[..n - 1];
        LastStepsKeepConsistent(Exec(f, p[0]), n - 1);
        assert n == 4 ==> LastSteps()[..3] == LastSteps();
      }
    } else if f.version == 2 {
      assert p == LastSteps();
      LastStepsKeepConsistent(f, n);
    } else {
      assert CURRENT[..|CURRENT|] == CURRENT;
    }
  }

  lemma {:induction false} ExecAppend(f: File, a: seq<Statement>, b: seq<Statement>)
    ensures ExecAll(f, a + b) == ExecAll(ExecAll(f, a), b)
  {
    if b == [] {
      assert a + b == a;
    } else {
      assert (a + b)[..|a + b| - 1] == a + b[..|b| - 1];
      ExecAppend(f, a, b[..|b| - 1]);
    }
  }

  /** A start-up cut off anywhere leaves a file the next one can take over; one that
      runs to its end leaves the current columns and version. */
  lemma StartupKeepsConsistent(f: File, queries: seq<Statement>, n: nat)
    requires Consistent(f) && Queries(queries) && n <= |Startup(queries, f.version)|
    ensures Consistent(ExecAll(f, Startup(queries, f.version)[..n]))
    ensures n == |Startup(queries, f.version)| && f.version <= SCHEMA_VERSION ==>
      var g := ExecAll(f, Startup(queries, f.version));
      g.version == SCHEMA_VERSION && LINKS in g.tables && g.tables[LINKS].columns == CURRENT
  {
    var all := Startup(queries, f.version);
    if n <= |queries| {
      assert all[..n] == queries[..n];
      CreatesKeepConsistent(f, queries, n);
    }
    if n >= |queries| {
      assert queries[..|queries|] == queries;
      CreatesKeepConsistent(f, queries, |queries|);
      var m := n - |queries|;
      assert all[..n] == queries + Pending(f.version)[..m];
      ExecAppend(f, queries, Pending(f.version)[..m]);
      MigrationKeepsConsistent(ExecAll(f, queries), m);
      if n == |all| {
        assert all[..n] == all && Pending(f.version)[..m] == Pending(f.version);
      }
    }
  }

  /** The file after start-ups cut off after cuts[0], cuts[1], ... statements. */
  function AfterCutStartups(f: File, queries: seq<Statement>, cuts: seq<nat>): File {
    if cuts == [] then f
    else
      var g := AfterCutStartups(f, queries, cuts[..|cuts| - 1]);
      var all := Startup(queries, g.version);
      ExecAll(g, all[..Least(cuts[|cuts| - 1], |all|)])
  }

  /** From any consistent file at version 3 or below, after any number of start-ups
      cut off anywhere, a stamped version still implies its columns, and the next
      complete start-up ends at version 3 with exactly the columns, declarations and
      column order a new file gets. */
  lemma {:induction false} CutStartupsConverge(f: File, queries: seq<Statement>, cuts: seq<nat>)
    requires Consistent(f) && Queries(queries) && f.version <= SCHEMA_VERSION
    ensures var g := AfterCutStartups(f, queries, cuts);
      && Consistent(g) && g.version <= SCHEMA_VERSION
      && var h := ExecAll(g, Startup(queries, g.version));
         h.version == SCHEMA_VERSION && LINKS in h.tables && h.tables[LINKS].columns == CURRENT
  {
    var g := AfterCutStartups(f, queries, cuts);
    if cuts != [] {
      var before := AfterCutStartups(f, queries, cuts[..|cuts| - 1]);
      CutStartupsConverge(f, queries, cuts[..|cuts| - 1]);
      var all := Startup(queries, before.version);
      var n := Least(cuts[|cuts| - 1], |all|);
      StartupKeepsConsistent(before, queries, n);
      VersionStaysOrStamped(before, all[..n]);
    }
    StartupKeepsConsistent(g, queries, |Startup(queries, g.version)|);
  }

  lemma {:induction false} VersionStaysOrStamped(f: File, ss: seq<Statement>)
    ensures ExecAll(f, ss).version in {f.version, SCHEMA_VERSION}
  {
    if ss != [] {
      VersionStaysOrStamped(f, ss[..|ss| - 1]);
    }
  }

  /** t grew into u: columns were only appended, rows kept in order, and every value
      a row had under a column it has still. */
  ghost predicate Grew(t: Table, u: Table) {
    && t.columns <= u.columns
    && |t.rows| == |u.rows|
    && forall i, c | 0 <= i < |t.columns| && 0 <= c < |t.rows| && t.columns[i].name in t.rows[c] ::
         t.columns[i].name in u.rows[c] && u.rows[c][t.columns[i].name] == t.rows[c][t.columns[i].name]
  }

  lemma ExecGrows(f: File, s: Statement, table: string)
    requires table in f.tables
    ensures table in Exec(f, s).tables && Grew(f.tables[table], Exec(f, s).tables[table])
  {
  }

  /** No statement of any start-up ever drops a table, a column, a row or a value. */
  lemma {:induction false} NothingIsDropped(f: File, ss: seq<Statement>, table: string)
    requires table in f.tables
    ensures table in ExecAll(f, ss).tables && Grew(f.tables[table], ExecAll(f, ss).tables[table])
  {
    if ss != [] {
      var g := ExecAll(f, ss[..|ss| - 1]);
      NothingIsDropped(f, ss[..|ss| - 1], table);
      ExecGrows(g, ss[|ss| - 1], table);
      GrewTransitive(f.tables[table], g.tables[table], ExecAll(f, ss).tables[table]);
    }
  }

  /** Nor an index. */
  lemma {:induction false} NoIndexIsDropped(f: File, ss: seq<Statement>)
    ensures f.indexes <= ExecAll(f, ss).indexes
  {
    if ss != [] {
      NoIndexIsDropped(f, ss[..|ss| - 1]);
    }
  }

  /** A complete start-up of any file that is not refused leaves every table of the list,
      and every index on a table before it in the list. */
  lemma EverythingIsCreated(f: File, queries: seq<Statement>, i: nat)
    requires i < |queries|
    ensures var g := ExecAll(f, Startup(queries, f.version));
      && (queries[i].CreateTable? ==> queries[i].table in g.tables)
      && (queries[i].CreateIndex? && (exists j | 0 <= j < i :: queries[j].CreateTable? && queries[j].table == queries[i].on)
          ==> queries[i].index in g.indexes)
  {
    var rest := queries[i + 1..] + Pending(f.version);
    assert Startup(queries, f.version) == queries[..i + 1] + rest;
    ExecAppend(f, queries[..i + 1], rest);
    ExecNext(f, queries, i);
    var before, after := ExecAll(f, queries[..i]), ExecAll(f, queries[..i + 1]);
    if queries[i].CreateTable? {
      NothingIsDropped(after, rest, queries[i].table);
    } else if queries[i].CreateIndex? {
      if j :| 0 <= j < i && queries[j].CreateTable? && queries[j].table == queries[i].on {
        TableStays(f, queries, j, i);
        NoIndexIsDropped(after, rest);
      }
    }
  }

  lemma TableStays(f: File, queries: seq<Statement>, j: nat, i: nat)
    requires j < i <= |queries| && queries[j].CreateTable?
    ensures queries[j].table in ExecAll(f, queries[..i]).tables
  {
    ExecNext(f, queries, j);
    assert queries[..i] == queries[..j + 1] + queries[j + 1..i];
    ExecAppend(f, queries[..j + 1], queries[j + 1..i]);
    NothingIsDropped(ExecAll(f, queries[..j + 1]), queries[j + 1..i], queries[j].table);
  }

  lemma GrewTransitive(t: Table, u: Table, v: Table)
    requires Grew(t, u) && Grew(u, v)
    ensures Grew(t, v)
  {
    forall i, c | 0 <= i < |t.columns| && 0 <= c < |t.rows| && t.columns[i].name in t.rows[c]
      ensures t.columns[i].name in v.rows[c] && v.rows[c][t.columns[i].name] == t.rows[c][t.columns[i].name]
    {
      assert u.columns[i] == t.columns[i];
    }
  }

  /** Every row has a value under every column. */
  ghost predicate Full(t: Table) {
    forall i, c | 0 <= i < |t.columns| && 0 <= c < |t.rows| :: t.columns[i].name in t.rows[c]
  }

  /** Under the columns from a place on, every row has the column's default. */
  ghost predicate DefaultsFrom(t: Table, from: nat) {
    Full(t) && forall i, c | from <= i < |t.columns| && 0 <= c < |t.rows| :: t.rows[c][t.columns[i].name] == t.columns[i].default
  }

  lemma AddColumnFills(t: Table, column: Column, from: nat)
    requires DefaultsFrom(t, from) && !HasColumn(t, column.name)
    ensures DefaultsFrom(AddColumn(t, column), from)
  {
    var u := AddColumn(t, column);
    forall i, c | 0 <= i < |u.columns| && 0 <= c < |u.rows|
      ensures u.columns[i].name in u.rows[c] && (i >= from ==> u.rows[c][u.columns[i].name] == u.columns[i].default)
    {
      if i < |t.columns| {
        assert t.columns[i].name != column.name;
      }
    }
  }

  /** Rows that were there before a column was added have its default under it. */
  lemma {:induction false} OldRowsGetDefaults(f: File, ss: seq<Statement>, table: string)
    requires table in f.tables && Full(f.tables[table])
    ensures table in ExecAll(f, ss).tables && DefaultsFrom(ExecAll(f, ss).tables[table], |f.tables[table].columns|)
  {
    if ss != [] {
      var last := |ss| - 1;
      var g, s := ExecAll(f, ss[..last]), ss[last];
      OldRowsGetDefaults(f, ss[..last], table);
      if s.AddColumnIfMissing? && s.table == table && !HasColumn(g.tables[table], s.column.name) {
        AddColumnFills(g.tables[table], s.column, |f.tables[table].columns|);
      }
    }
  }

  /** From the links of version 1, after a complete start-up: version 3, and every row
      has no MTU of its own and no addresses. */
  lemma FirstVersionUpgrades(f: File, queries: seq<Statement>, c: nat)
    requires Consistent(f) && Queries(queries) && f.version <= 3
    requires "link_attributes" in f.tables && Full(f.tables["link_attributes"])
    requires |f.tables["link_attributes"].columns| == 10 && c < |f.tables["link_attributes"].rows|
    ensures var g := ExecAll(f, Startup(queries, f.version));
      && g.version == 3 && "link_attributes" in g.tables
      && var t := g.tables["link_attributes"];
         && |t.columns| == 13 && |t.rows| == |f.tables["link_attributes"].rows|
         && t.columns[10] == Column("mtu", "INTEGER NOT NULL DEFAULT 0", "0")
         && t.columns[11] == Column("local_addresses", "TEXT NOT NULL DEFAULT ''", "")
         && t.columns[12] == Column("peer_addresses", "TEXT NOT NULL DEFAULT ''", "")
         && "mtu" in t.rows[c] && t.rows[c]["mtu"] == "0"
         && "local_addresses" in t.rows[c] && t.rows[c]["local_addresses"] == ""
         && "peer_addresses" in t.rows[c] && t.rows[c]["peer_addresses"] == ""
  {
    var all := Startup(queries, f.version);
    StartupKeepsConsistent(f, queries, |all|);
    OldRowsGetDefaults(f, all, LINKS);
    NothingIsDropped(f, all, LINKS);
    LaterColumns();
    var t := ExecAll(f, all).tables[LINKS];
    assert t.columns[10].name == "mtu" && t.columns[11].name == "local_addresses" && t.columns[12].name == "peer_addresses";
  }

  /** The columns a complete start-up ends with, which a new file has from the first. */
  lemma ColumnsInFull(f: File, queries: seq<Statement>)
    requires Consistent(f) && Queries(queries) && f.version <= 3
    ensures var g := ExecAll(f, Startup(queries, f.version));
      "link_attributes" in g.tables && Names(g.tables["link_attributes"].columns)
        == ["cluster_id", "namespace", "node", "intf", "peer_node", "peer_intf", "delay", "jitter", "loss", "bandwidth",
            "mtu", "local_addresses", "peer_addresses"]
  {
    StartupKeepsConsistent(f, queries, |Startup(queries, f.version)|);
    CurrentInFull();
  }

  lemma CurrentInFull()
    ensures Names(CURRENT)
      == ["cluster_id", "namespace", "node", "intf", "peer_node", "peer_intf", "delay", "jitter", "loss", "bandwidth",
          "mtu", "local_addresses", "peer_addresses"]
  {
    assert |CURRENT| == 13;
  }

  function Names(columns: seq<Column>): (r: seq<string>)
    ensures |r| == |columns| && forall i | 0 <= i < |r| :: r[i] == columns[i].name
  {
    seq(|columns|, i requires 0 <= i < |columns| => columns[i].name)
  }

  /** A file stamped by a newer build is refused: none of its tables changes and its
      version stays. */
  lemma NewerFileUntouched(f: File, queries: seq<Statement>, table: string)
    requires Queries(queries) && f.version > SCHEMA_VERSION && table in f.tables
    ensures var g := ExecAll(f, Startup(queries, f.version));
      g.version == f.version && table in g.tables && g.tables[table] == f.tables[table]
  {
    assert Startup(queries, f.version) == queries;
    CreatesChangeNothing(f, queries, table);
  }

  lemma {:induction false} CreatesChangeNothing(f: File, ss: seq<Statement>, table: string)
    requires table in f.tables && forall i | 0 <= i < |ss| :: Creates(ss[i])
    ensures var g := ExecAll(f, ss); g.version == f.version && table in g.tables && g.tables[table] == f.tables[table]
  {
    if ss != [] {
      CreatesChangeNothing(f, ss[..|ss| - 1], table);
    }
  }
}
