/** The login limiter of auth/loginlimit.go: per client, a failure counter with a
    deadline that every failure pushes forward, and a purge of expired counters
    on every failure of anybody.  Times are nanoseconds on a monotone clock. */
module LoginLimit {

  const MAX_ATTEMPTS := 8
  const WINDOW := 15 * 60 * 1_000_000_000

  class LoginAttempt {
    var fails: nat
    var resetAt: int

    constructor ()
      ensures fails == 0
    {
      fails, resetAt := 0, 0;
    }
  }

  /** What the map holds for one client. */
  datatype Entry = Entry(fails: nat, resetAt: int)

  class Limiter {
    var attempts: map<string, LoginAttempt>

    /** No two clients share a counter. */
    ghost predicate Valid()
      reads this
    {
      forall a, b | a in attempts && b in attempts && a != b :: attempts[a] != attempts[b]
    }

    ghost function Entries(): map<string, Entry>
      reads this, attempts.Values
    {
      map ip | ip in attempts :: Entry(attempts[ip].fails, attempts[ip].resetAt)
    }

    constructor ()
      ensures Valid() && Entries() == map[]
    {
      attempts := map[];
    }

    /** now is the clock at the comparison, later at the computation of the wait. */
    method LoginAllowed(ip: string, now: int, later: int) returns (allowed: bool, wait: int)
      requires Valid()
      ensures allowed == Allowed(Entries(), ip, now)
      ensures wait == if allowed then 0 else Entries()[ip].resetAt - later
    {
      if ip !in attempts || now > attempts[ip].resetAt {
        return true, 0;
      }
      if attempts[ip].fails >= MAX_ATTEMPTS {
        return false, attempts[ip].resetAt - later;
      }
      return true, 0;
    }

    /** The client's counter, a new one when it has none or an expired one. */
    method CounterOf(ip: string, now: int) returns (a: LoginAttempt)
      requires Valid()
      modifies this
      ensures Valid() && fresh(attempts.Values - old(attempts.Values))
      ensures attempts == old(attempts)[ip := a]
      ensures fresh(a) || (ip in old(attempts) && a == old(attempts)[ip])
      ensures a.fails == FailsBefore(old(Entries()), ip, now)
    {
      if ip !in attempts || now > attempts[ip].resetAt {
        a := new LoginAttempt();
        attempts := attempts[ip := a];
      } else {
        a := attempts[ip];
      }
    }

    method CountFailure(ip: string, now: int)
      requires Valid()
      modifies this, attempts.Values
      ensures Valid() && fresh(attempts.Values - old(attempts.Values))
      ensures Entries() == Counted(old(Entries()), ip, now)
    {
      var a := CounterOf(ip, now);
      a.fails := a.fails + 1;
      a.resetAt := now + WINDOW;
    }

    method RegisterLoginFailure(ip: string, now: int)
      requires Valid()
      modifies this, attempts.Values
      ensures Valid() && fresh(attempts.Values - old(attempts.Values))
      ensures Entries() == AfterFailure(old(Entries()), ip, now)
    {
      CountFailure(ip, now);
      PurgeExpired(now);
    }

    /** The loop over the map that deletes while it iterates. */
    method PurgeExpired(now: int)
      requires Valid()
      modifies this
      ensures Valid() && attempts.Values <= old(attempts.Values)
      ensures Entries() == Unexpired(old(Entries()), now)
    {
      var keys := attempts.Keys;
      while keys != {}
        invariant keys <= attempts.Keys <= old(attempts.Keys)
        invariant forall k | k in attempts :: attempts[k] == old(attempts)[k]
        invariant forall k | k in old(attempts) && k !in keys :: k in attempts <==> now <= old(attempts)[k].resetAt
        decreases |keys|
      {
        var k :| k in keys;
        if now > attempts[k].resetAt {
          attempts := attempts - {k};
        }
        keys := keys - {k};
      }
    }

    method RegisterLoginSuccess(ip: string)
      requires Valid()
      modifies this
      ensures Valid() && attempts.Values <= old(attempts.Values)
      ensures Entries() == old(Entries()) - {ip}
    {
      attempts := attempts - {ip};
    }
  }

  // ------------------------------------------------------------ on values

  predicate Allowed(entries: map<string, Entry>, ip: string, now: int) {
    ip !in entries || now > entries[ip].resetAt || entries[ip].fails < MAX_ATTEMPTS
  }

  function Unexpired(entries: map<string, Entry>, now: int): map<string, Entry> {
    map ip | ip in entries && now <= entries[ip].resetAt :: entries[ip]
  }

  function FailsBefore(entries: map<string, Entry>, ip: string, now: int): nat {
    if ip in entries && now <= entries[ip].resetAt then entries[ip].fails else 0
  }

  function Counted(entries: map<string, Entry>, ip: string, now: int): map<string, Entry> {
    entries[ip := Entry(FailsBefore(entries, ip, now) + 1, now + WINDOW)]
  }

  function AfterFailure(entries: map<string, Entry>, ip: string, now: int): map<string, Entry> {
    Unexpired(Counted(entries, ip, now), now)
  }

  // ------------------------------------------------------------ whole runs

  datatype Event = Failure(ip: string, at: int) | Success(ip: string, at: int)

  function Apply(entries: map<string, Entry>, e: Event): map<string, Entry> {
    match e
    case Failure(ip, at) => AfterFailure(entries, ip, at)
    case Success(ip, _) => entries - {ip}
  }

  /** The limiter's map after a run, oldest event first. */
  function Run(log: seq<Event>): map<string, Entry> {
    if log == [] then map[] else Apply(Run(log[..|log| - 1]), log[|log| - 1])
  }

  predicate Monotone(log: seq<Event>) {
    forall i, j | 0 <= i < j < |log| :: log[i].at <= log[j].at
  }

  /** The times of the client's failures since its last success, oldest first: all
      the limiter is meant to depend on. */
  function Failures(log: seq<Event>, ip: string): seq<int> {
    if log == [] then []
    else
      var e := log[|log| - 1];
      if e.ip != ip then Failures(log[..|log| - 1], ip)
      else match e
           case Failure(_, at) => Failures(log[..|log| - 1], ip) + [at]
           case Success(_, _) => []
  }

  /** The list ends in at least n failures, each within the window of the one before. */
  predicate EndsInChain(times: seq<int>, n: nat) {
    && n <= |times|
    && forall i | |times| - n < i < |times| :: times[i] - times[i - 1] <= WINDOW
  }

  /** How long the chain at the end of the list is. */
  function ChainLength(times: seq<int>): (n: nat)
    ensures n <= |times|
  {
    if times == [] then 0
    else if |times| == 1 || times[|times| - 1] - times[|times| - 2] > WINDOW then 1
    else ChainLength(times[..|times| - 1]) + 1
  }

  lemma {:induction false} ChainLengthIsLongest(times: seq<int>, n: nat)
    ensures EndsInChain(times, n) <==> n <= ChainLength(times)
  {
    if times != [] && n > 0 {
      var last := |times| - 1;
      var init := times[..last];
      if |times| > 1 && times[last] - times[last - 1] <= WINDOW {
        ChainLengthIsLongest(init, n - 1);
        assert forall i | 0 <= i < last :: init[i] == times[i];
        if EndsInChain(init, n - 1) {
          forall i | |times| - n < i < |times| ensures times[i] - times[i - 1] <= WINDOW {
            if i < last {
              assert init[i] - init[i - 1] <= WINDOW;
            }
          }
        }
        if EndsInChain(times, n) {
          forall i | last - (n - 1) < i < last ensures init[i] - init[i - 1] <= WINDOW {
            assert times[i] - times[i - 1] <= WINDOW;
          }
        }
      }
    }
  }

  /** The map's entry for a client against its failures: while the client's last
      failure is within the window the entry is there and exact, and afterwards an
      entry is either gone or expired. */
  ghost predicate Tracks(entries: map<string, Entry>, times: seq<int>, ip: string, now: int) {
    if times == [] then ip !in entries
    else
      var last := times[|times| - 1];
      && (ip in entries ==> entries[ip] == Entry(ChainLength(times), last + WINDOW))
      && (ip !in entries ==> now > last + WINDOW)
  }

  /** One more failure counts on the chain, or starts a new one. */
  lemma FailureCounts(entries: map<string, Entry>, times: seq<int>, ip: string, at: int)
    requires Tracks(entries, times, ip, at)
    ensures FailsBefore(entries, ip, at) + 1 == ChainLength(times + [at])
  {
    var more := times + [at];
    assert more[..|more| - 1] == times;
  }

  lemma ApplyTracks(entries: map<string, Entry>, times: seq<int>, e: Event)
    requires Tracks(entries, times, e.ip, e.at)
    ensures Tracks(Apply(entries, e), if e.Failure? then times + [e.at] else [], e.ip, e.at)
  {
    if e.Failure? {
      FailureCounts(entries, times, e.ip, e.at);
    }
  }

  lemma OtherApplyTracks(entries: map<string, Entry>, times: seq<int>, e: Event, ip: string)
    requires Tracks(entries, times, ip, e.at) && ip != e.ip
    ensures Tracks(Apply(entries, e), times, ip, e.at)
  {
  }

  lemma LaterTracks(entries: map<string, Entry>, times: seq<int>, ip: string, now: int, later: int)
    requires Tracks(entries, times, ip, now) && now <= later
    ensures Tracks(entries, times, ip, later)
  {
  }

  lemma {:induction false} RunTracks(log: seq<Event>, ip: string, now: int)
    requires Monotone(log)
    requires log != [] ==> log[|log| - 1].at <= now
    ensures Tracks(Run(log), Failures(log, ip), ip, now)
  {
    if log != [] {
      var e, before := log[|log| - 1], log[..|log| - 1];
      RunTracks(before, ip, e.at);
      if e.ip == ip {
        ApplyTracks(Run(before), Failures(before, ip), e);
      } else {
        OtherApplyTracks(Run(before), Failures(before, ip), e, ip);
      }
      LaterTracks(Run(log), Failures(log, ip), ip, e.at, now);
    }
  }

  /** The limiter's answer at any time after any run: it refuses exactly when the
      client's failures since its last success end in at least eight, each within
      fifteen minutes of the one before and the last within fifteen minutes of now.
      What other clients did, and what was purged, makes no difference. */
  lemma RefusesExactlyChains(log: seq<Event>, ip: string, now: int)
    requires Monotone(log)
    requires log != [] ==> log[|log| - 1].at <= now
    ensures !Allowed(Run(log), ip, now) <==>
            var times := Failures(log, ip);
            && |times| >= 8
            && (forall i | |times| - 8 < i < |times| :: times[i] - times[i - 1] <= 15 * 60 * 1_000_000_000)
            && now - times[|times| - 1] <= 15 * 60 * 1_000_000_000
    ensures !Allowed(Run(log), ip, now) ==>
            Failures(log, ip) != [] && ip in Run(log)
            && Run(log)[ip].resetAt == Failures(log, ip)[|Failures(log, ip)| - 1] + 15 * 60 * 1_000_000_000
  {
    RunTracks(log, ip, now);
    ChainLengthIsLongest(Failures(log, ip), MAX_ATTEMPTS);
  }

  /** The run without the purge. */
  function RunUnpurged(log: seq<Event>): map<string, Entry> {
    if log == [] then map[]
    else
      var entries := RunUnpurged(log[..|log| - 1]);
      match log[|log| - 1]
      case Failure(ip, at) =>
        Counted(entries, ip, at)
      case Success(ip, _) => entries - {ip}
  }

  lemma {:induction false} UnpurgedTracks(log: seq<Event>, ip: string, now: int)
    requires Monotone(log)
    requires log != [] ==> log[|log| - 1].at <= now
    ensures Tracks(RunUnpurged(log), Failures(log, ip), ip, now)
    ensures ip !in RunUnpurged(log) <==> Failures(log, ip) == []
  {
    if log != [] {
      var e, before := log[|log| - 1], log[..|log| - 1];
      UnpurgedTracks(before, ip, e.at);
      if e.Failure? && e.ip == ip {
        FailureCounts(RunUnpurged(before), Failures(before, ip), ip, e.at);
      }
    }
  }

  /** Dropping stale entries changes no answer, ever; the map only ever holds
      clients that failed within the window before the last failure. */
  lemma PurgeIsInvisible(log: seq<Event>, ip: string, now: int)
    requires Monotone(log)
    requires log != [] ==> log[|log| - 1].at <= now
    ensures Allowed(Run(log), ip, now) <==> Allowed(RunUnpurged(log), ip, now)
  {
    RunTracks(log, ip, now);
    UnpurgedTracks(log, ip, now);
  }

  /** Right after a failure the map holds only clients whose own last failure is
      within the window: it cannot grow with clients long gone. */
  lemma MapHoldsRecentClients(log: seq<Event>, ip: string)
    requires Monotone(log) && log != [] && log[|log| - 1].Failure?
    requires ip in Run(log)
    ensures var times := Failures(log, ip);
      times != [] && log[|log| - 1].at - times[|times| - 1] <= WINDOW
  {
    RunTracks(log, ip, log[|log| - 1].at);
  }
}
