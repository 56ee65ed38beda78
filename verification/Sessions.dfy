/** Browser sessions of auth/auth.go: a row per token with the creation and last
    accepted use in whole seconds, an idle and an absolute timeout.  The clock is in
    nanoseconds and monotone; tokens stand for their hashes. */
module Sessions {
  import opened Options
  import opened GoStrings

  const SECOND := 1_000_000_000

  /** time.Unix(): the whole second a time falls in, as nanoseconds. */
  function Whole(at: int): (floor: int)
    ensures at - SECOND < floor <= at
    ensures floor == Unix(at) * SECOND
  {
    Unix(at) * SECOND
  }

  function Unix(at: int): int { at / SECOND }

  datatype Row = Row(identity: string, roles: string, createdAt: int, lastSeen: int)

  datatype Timeouts = Timeouts(idle: int, max: int)

  datatype Principal = Principal(identity: string, roles: seq<string>)

  type Table = map<string, Row>

  predicate Expired(c: Timeouts, row: Row, now: int) {
    now - row.lastSeen * SECOND > c.idle || now - row.createdAt * SECOND > c.max
  }

  predicate Accepts(c: Timeouts, rows: Table, raw: string, now: int) {
    raw != "" && raw in rows && !Expired(c, rows[raw], now)
  }

  function SplitRoles(s: string): seq<string> {
    if s == "" then [] else Split(s, ',')
  }

  /** The sessions table with the configured timeouts.  The flags say whether a
      write of the store takes effect: the source ignores the error of the two
      writes in ValidateSession. */
  class Store {
    const timeouts: Timeouts
    var rows: Table

    constructor (timeouts: Timeouts)
      ensures rows == map[] && this.timeouts == timeouts
    {
      this.timeouts := timeouts;
      rows := map[];
    }

    method CreateSession(raw: string, identity: string, roles: seq<string>, now: int) returns (ok: bool)
      modifies this
      ensures ok <==> raw !in old(rows)
      ensures rows == AfterCreate(old(rows), raw, identity, roles, now)
    {
      if raw in rows {
        return false;
      }
      rows := rows[raw := Row(identity, Join(roles, ","), Unix(now), Unix(now))];
      return true;
    }

    method ValidateSession(raw: string, now: int, updateWorks: bool, deleteWorks: bool) returns (p: Option<Principal>)
      modifies this
      ensures p.Some? <==> Accepts(timeouts, old(rows), raw, now)
      ensures p.Some? ==> p.value == Principal(old(rows)[raw].identity, SplitRoles(old(rows)[raw].roles))
      ensures rows == AfterValidate(timeouts, old(rows), raw, now, updateWorks, deleteWorks)
    {
      if raw == "" || raw !in rows {
        return None;
      }
      var row := rows[raw];
      if now - row.lastSeen * SECOND > timeouts.idle || now - row.createdAt * SECOND > timeouts.max {
        DeleteSession(raw, deleteWorks);
        return None;
      }
      if updateWorks {
        rows := rows[raw := row.(lastSeen := Unix(now))];
      }
      return Some(Principal(row.identity, SplitRoles(row.roles)));
    }

    method DeleteSession(raw: string, works: bool)
      modifies this
      ensures rows == if works then old(rows) - {raw} else old(rows)
    {
      if works {
        rows := rows - {raw};
      }
    }

    method InvalidateAllSessions(works: bool) returns (removed: nat)
      modifies this
      ensures rows == if works then map[] else old(rows)
      ensures removed == if works then |old(rows)| else 0
    {
      removed := if works then |rows| else 0;
      if works {
        rows := map[];
      }
    }
  }

  function AfterCreate(rows: Table, raw: string, identity: string, roles: seq<string>, now: int): Table {
    if raw in rows then rows else rows[raw := Row(identity, Join(roles, ","), Unix(now), Unix(now))]
  }

  function AfterValidate(c: Timeouts, rows: Table, raw: string, now: int, updateWorks: bool, deleteWorks: bool): Table {
    if raw == "" || raw !in rows then rows
    else if Expired(c, rows[raw], now) then if deleteWorks then rows - {raw} else rows
    else if updateWorks then rows[raw := rows[raw].(lastSeen := Unix(now))] else rows
  }

  // ------------------------------------------------------------ whole runs

  datatype Op =
    | Create(raw: string, identity: string, roles: seq<string>, at: int)
    | Validate(raw: string, at: int, updateWorks: bool, deleteWorks: bool)
    | Delete(raw: string, at: int, works: bool)
    | InvalidateAll(at: int, works: bool)

  function Apply(c: Timeouts, rows: Table, op: Op): Table {
    match op
    case Create(raw, identity, roles, at) => AfterCreate(rows, raw, identity, roles, at)
    case Validate(raw, at, updateWorks, deleteWorks) => AfterValidate(c, rows, raw, at, updateWorks, deleteWorks)
    case Delete(raw, _, works) => if works then rows - {raw} else rows
    case InvalidateAll(_, works) => if works then map[] else rows
  }

  function Run(c: Timeouts, log: seq<Op>): Table {
    if log == [] then map[] else Apply(c, Run(c, log[..|log| - 1]), log[|log| - 1])
  }

  ghost predicate Monotone(log: seq<Op>) {
    forall i, j | 0 <= i < j < |log| :: log[i].at <= log[j].at
  }

  /** Tokens are random, so none is issued twice. */
  ghost predicate FreshTokens(log: seq<Op>) {
    forall i, j | 0 <= i < j < |log| && log[i].Create? && log[j].Create? :: log[i].raw != log[j].raw
  }

  /** The k-th operation of the run is a validation, and it succeeds. */
  predicate AcceptedAt(c: Timeouts, log: seq<Op>, k: nat)
    requires k < |log|
  {
    log[k].Validate? && Accepts(c, Run(c, log[..k]), log[k].raw, log[k].at)
  }

  /** A use of a token, and whether the row was stamped with it. */
  datatype Use = Use(at: int, stamped: bool)

  /** The token's creation followed by every attempt to use it since, or nothing
      when it was never issued or has been revoked. */
  function Uses(log: seq<Op>, raw: string): seq<Use> {
    if log == [] then []
    else
      var before := Uses(log[..|log| - 1], raw);
      match log[|log| - 1]
      case Create(r, _, _, at) => if r == raw then [Use(at, true)] else before
      case Validate(r, at, updateWorks, _) => if r == raw && before != [] then before + [Use(at, updateWorks)] else before
      case Delete(r, _, works) => if r == raw && works then [] else before
      case InvalidateAll(_, works) => if works then [] else before
  }

  /** The last use the row was stamped with, the creation if none was. */
  function LastStamp(uses: seq<Use>): int
    requires uses != []
  {
    var last := |uses| - 1;
    if last == 0 || uses[last].stamped then uses[last].at else LastStamp(uses[..last])
  }

  predicate Timely(c: Timeouts, before: seq<Use>, at: int)
    requires before != []
  {
    at - Whole(LastStamp(before)) <= c.idle && at - Whole(before[0].at) <= c.max
  }

  /** Every use is within the idle timeout of the last one stamped before it and within
      the maximum lifetime of the creation, both from the whole second they fell in. */
  predicate InTime(c: Timeouts, uses: seq<Use>) {
    |uses| <= 1
    || (InTime(c, uses[..|uses| - 1]) && Timely(c, uses[..|uses| - 1], uses[|uses| - 1].at))
  }

  /** That is, each of them. */
  lemma {:induction false} InTimeIsEach(c: Timeouts, uses: seq<Use>)
    ensures InTime(c, uses) <==> forall i | 1 <= i < |uses| :: Timely(c, uses[..i], uses[i].at)
  {
    if |uses| > 1 {
      var last := |uses| - 1;
      InTimeIsEach(c, uses[..last]);
      assert forall i | 1 <= i < last :: uses[..last][..i] == uses[..i];
    }
  }

  ghost predicate Tracks(c: Timeouts, rows: Table, uses: seq<Use>, raw: string, now: int) {
    if uses == [] then raw !in rows
    else if InTime(c, uses) then
      raw in rows && rows[raw].createdAt == Unix(uses[0].at) && rows[raw].lastSeen == Unix(LastStamp(uses))
    else
      raw in rows ==> Expired(c, rows[raw], now)
  }

  lemma {:induction false} RunTracks(c: Timeouts, log: seq<Op>, raw: string, now: int)
    requires Monotone(log) && FreshTokens(log) && raw != ""
    requires log != [] ==> log[|log| - 1].at <= now
    ensures Tracks(c, Run(c, log), Uses(log, raw), raw, now)
    ensures (forall k | 0 <= k < |log| && log[k].Create? :: log[k].raw != raw) ==> Uses(log, raw) == []
  {
    if log != [] {
      var last := |log| - 1;
      var before := log[..last];
      RunTracks(c, before, raw, log[last].at);
      if log[last].Validate? && log[last].raw == raw {
        UseTracks(c, Run(c, before), Uses(before, raw), log[last]);
      }
    }
  }

  /** One use of the token. */
  lemma UseTracks(c: Timeouts, rows: Table, uses: seq<Use>, op: Op)
    requires op.Validate? && op.raw != ""
    requires Tracks(c, rows, uses, op.raw, op.at)
    ensures Tracks(c, Apply(c, rows, op), if uses == [] then [] else uses + [Use(op.at, op.updateWorks)], op.raw, op.at)
  {
    if uses != [] {
      var longer := uses + [Use(op.at, op.updateWorks)];
      assert longer[..|uses|] == uses && longer[0] == uses[0];
      assert LastStamp(longer) == if op.updateWorks then op.at else LastStamp(uses);
    }
  }

  /** When a use is accepted, exactly, whatever writes failed: the token was issued and
      not revoked since, and every use of it so far, this one included, came within the
      idle timeout of the last one stamped and within the maximum lifetime.  So one late
      use ends a session for good, whether or not the delete on refusal takes effect. */
  lemma AcceptedExactlyInTime(c: Timeouts, log: seq<Op>, raw: string, now: int)
    requires Monotone(log) && FreshTokens(log) && raw != ""
    requires log != [] ==> log[|log| - 1].at <= now
    ensures Accepts(c, Run(c, log), raw, now) <==>
            Uses(log, raw) != [] && InTime(c, Uses(log, raw)) && Timely(c, Uses(log, raw), now)
  {
    RunTracks(c, log, raw, now);
  }

  // ------------------------------------------- with writes that may fail

  /** Once refused, whatever happens next (short of issuing the token), refused. */
  lemma {:induction false} RefusedStays(c: Timeouts, rows: Table, ops: seq<Op>, raw: string, now: int, later: int)
    requires !Accepts(c, rows, raw, now) && now <= later
    requires Monotone(ops) && forall k | 0 <= k < |ops| :: now <= ops[k].at <= later
    requires forall k | 0 <= k < |ops| && ops[k].Create? :: ops[k].raw != raw
    ensures !Accepts(c, RunFrom(c, rows, ops), raw, later)
    decreases |ops|
  {
    if ops != [] {
      var next := Apply(c, rows, ops[0]);
      assert !Accepts(c, next, raw, ops[0].at);
      RefusedStays(c, next, ops[1..], raw, ops[0].at, later);
    }
  }

  function RunFrom(c: Timeouts, rows: Table, ops: seq<Op>): Table
    decreases |ops|
  {
    if ops == [] then rows else RunFrom(c, Apply(c, rows, ops[0]), ops[1..])
  }

  lemma {:induction false} RunSplits(c: Timeouts, log: seq<Op>, j: nat)
    requires j <= |log|
    ensures Run(c, log) == RunFrom(c, Run(c, log[..j]), log[j..])
    decreases |log| - j
  {
    if j < |log| {
      RunSplits(c, log, j + 1);
      assert log[..j + 1][..j] == log[..j];
      assert log[j..][0] == log[j] && log[j..][1..] == log[j + 1..];
    } else {
      assert log[..j] == log;
    }
  }

  /** A session refused once is refused forever, for any outcome of any write. */
  lemma RefusedOnceRefusedForever(c: Timeouts, log: seq<Op>, j: nat, k: nat)
    requires j < k < |log| && Monotone(log) && log[j].Validate? && log[k].Validate? && log[j].raw == log[k].raw
    requires forall i | j < i < k && log[i].Create? :: log[i].raw != log[j].raw
    requires !AcceptedAt(c, log, j)
    ensures !AcceptedAt(c, log, k)
  {
    RunSplits(c, log[..k], j);
    assert log[..k][..j] == log[..j];
    RefusedStays(c, Run(c, log[..j]), log[..k][j..], log[j].raw, log[j].at, log[k].at);
  }

  /** The last accepted use of the token before the end of the log, or its creation. */
  function LastAccepted(c: Timeouts, log: seq<Op>, raw: string): Option<int> {
    if log == [] then None
    else
      var last := |log| - 1;
      if log[last].Create? && log[last].raw == raw then Some(log[last].at)
      else if log[last].Validate? && log[last].raw == raw && AcceptedAt(c, log, last) then Some(log[last].at)
      else LastAccepted(c, log[..last], raw)
  }

  function Creation(log: seq<Op>, raw: string): Option<int> {
    if log == [] then None
    else if log[|log| - 1].Create? && log[|log| - 1].raw == raw then Some(log[|log| - 1].at)
    else Creation(log[..|log| - 1], raw)
  }

  lemma {:induction false} RowsAreOld(c: Timeouts, log: seq<Op>, raw: string)
    requires Monotone(log) && FreshTokens(log) && raw in Run(c, log)
    ensures Creation(log, raw).Some? && LastAccepted(c, log, raw).Some?
    ensures Run(c, log)[raw].createdAt == Unix(Creation(log, raw).value)
    ensures Run(c, log)[raw].lastSeen <= Unix(LastAccepted(c, log, raw).value)
    ensures LastAccepted(c, log, raw).value <= log[|log| - 1].at
  {
    var last := |log| - 1;
    var before := log[..last];
    if raw in Run(c, before) {
      RowsAreOld(c, before, raw);
      CreationIsThere(before, raw);
    }
  }

  lemma {:induction false} CreationIsThere(log: seq<Op>, raw: string)
    requires Creation(log, raw).Some?
    ensures exists k | 0 <= k < |log| :: log[k].Create? && log[k].raw == raw
  {
    var last := |log| - 1;
    if log[last].Create? && log[last].raw == raw {
    } else {
      CreationIsThere(log[..last], raw);
      var k :| 0 <= k < last && log[..last][k].Create? && log[..last][k].raw == raw;
      assert log[k].Create? && log[k].raw == raw;
    }
  }

  /** Whatever writes failed, an accepted use is within the maximum lifetime of the
      token's creation and within the idle timeout of its previous accepted use. */
  lemma AcceptedWithinBothTimeouts(c: Timeouts, log: seq<Op>, k: nat)
    requires k < |log| && Monotone(log) && FreshTokens(log) && AcceptedAt(c, log, k)
    ensures Creation(log[..k], log[k].raw).Some? && LastAccepted(c, log[..k], log[k].raw).Some?
    ensures log[k].at - Whole(Creation(log[..k], log[k].raw).value) <= c.max
    ensures log[k].at - Whole(LastAccepted(c, log[..k], log[k].raw).value) <= c.idle
  {
    RowsAreOld(c, log[..k], log[k].raw);
  }

  lemma {:induction false} NoRowUnissued(c: Timeouts, log: seq<Op>, raw: string)
    requires forall k | 0 <= k < |log| && log[k].Create? :: log[k].raw != raw
    ensures raw !in Run(c, log)
  {
    if log != [] {
      NoRowUnissued(c, log[..|log| - 1], raw);
    }
  }

  /** Whatever happens to a row afterwards, it says who the token was issued to. */
  lemma {:induction false} RowIsAsIssued(c: Timeouts, log: seq<Op>, k: nat)
    requires FreshTokens(log) && k < |log| && log[k].Create? && log[k].raw in Run(c, log)
    ensures Run(c, log)[log[k].raw].identity == log[k].identity
    ensures Run(c, log)[log[k].raw].roles == Join(log[k].roles, ",")
  {
    var last := |log| - 1;
    var before := log[..last];
    if k == last {
      NoRowUnissued(c, before, log[k].raw);
    } else if log[k].raw in Run(c, before) {
      RowIsAsIssued(c, before, k);
    }
  }

  /** The principal of an accepted use has the identity the token was issued to, and its
      roles exactly when those can be stored. */
  lemma AcceptedAsIssued(c: Timeouts, log: seq<Op>, k: nat, now: int)
    requires FreshTokens(log) && k < |log| && log[k].Create? && Accepts(c, Run(c, log), log[k].raw, now)
    ensures var row := Run(c, log)[log[k].raw];
      var roles := log[k].roles;
      && row.identity == log[k].identity
      && (SplitRoles(row.roles) == roles <==> (forall i | 0 <= i < |roles| :: ',' !in roles[i]) && roles != [""])
  {
    RowIsAsIssued(c, log, k);
    RolesRoundTrip(log[k].roles);
  }

  /** The roles a session was created with are the roles it validates with, exactly
      when no role contains the comma they are stored with and the list is not one
      empty role. */
  lemma RolesRoundTrip(roles: seq<string>)
    ensures SplitRoles(Join(roles, ",")) == roles <==> (forall i | 0 <= i < |roles| :: ',' !in roles[i]) && roles != [""]
  {
    if roles != [] && forall i | 0 <= i < |roles| :: ',' !in roles[i] {
      SplitJoin(roles, ',');
      if Join(roles, ",") == "" {
        assert Split("", ',') == [""];
      }
    }
    if SplitRoles(Join(roles, ",")) == roles && Join(roles, ",") != "" {
      JoinSplit(Join(roles, ","), ',');
    }
  }
}
