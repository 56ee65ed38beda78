/** The worker pool of ConfigureNetwork as a step system: the handler goroutine
    starts the workers, fills the jobs channel, closes it, starts the closer and
    collects; every worker ranges over jobs and posts to results; the closer waits
    for the workers and closes results.  One action is one channel or wait-group
    operation, so a run is any interleaving the Go scheduler may choose. */
module WorkerPool {

  import opened Options

  /** A buffered Go channel. */
  datatype Channel<T> = Channel(buf: seq<T>, cap: nat, closed: bool)

  /** What one worker goroutine is doing. */
  datatype Worker<R> =
    | Unborn
    | Idle                           // at the head of its range loop
    | Holding(job: nat)              // took a job, has not processed it yet
    | Posting(index: nat, result: R) // processed it, about to send the result
    | Exited                         // range ended and wg.Done ran

  datatype MainPc = Spawning(started: nat) | Sending(sent: nat) | StartingCloser | Collecting | Finished

  datatype CloserPc = Unstarted | Waiting | Gone

  datatype Config<!T, !R> = Config(targets: seq<T>, pool: nat, process: (nat, T) -> R)

  datatype State<R> = State(
    main: MainPc,
    jobs: Channel<nat>,
    results: Channel<(nat, R)>,
    workers: seq<Worker<R>>,
    wg: nat,
    closer: CloserPc,
    slots: seq<Option<R>>,
    processed: seq<nat>) // the indices processPod was called with, in call order

  datatype Action =
    | Spawn
    | SendJob
    | CloseJobs
    | StartCloser
    | Range(w: nat)
    | Process(w: nat)
    | Post(w: nat)
    | CloseResults
    | Collect

  /** The number of workers for n targets on a machine with numCPU processors. */
  function PoolSize(numCPU: int, n: nat): (size: nat)
    ensures size >= 1 && (size > 1 ==> size <= n && size <= numCPU)
    ensures n >= 1 && numCPU >= 1 ==> size == n || size == numCPU
  {
    var capped := if numCPU > n then n else numCPU;
    if capped < 1 then 1 else capped
  }

  predicate GoodConfig<T, R>(c: Config<T, R>) {
    c.pool >= 1
  }

  function Init<T, R>(c: Config<T, R>): State<R> {
    var n := |c.targets|;
    State(Spawning(0), Channel([], n, false), Channel([], n, false),
          seq(c.pool, _ => Unborn), 0, Unstarted, seq(n, _ => None), [])
  }

  /** Some goroutine's next operation is a. */
  predicate At<T, R>(c: Config<T, R>, s: State<R>, a: Action) {
    match a
    case Spawn => s.main.Spawning? && s.main.started < |s.workers|
    case SendJob => s.main.Sending? && s.main.sent < |c.targets|
    case CloseJobs => s.main.Sending? && s.main.sent == |c.targets|
    case StartCloser => s.main.StartingCloser?
    case Range(w) => w < |s.workers| && s.workers[w].Idle?
    case Process(w) => w < |s.workers| && s.workers[w].Holding?
    case Post(w) => w < |s.workers| && s.workers[w].Posting?
    case CloseResults => s.closer.Waiting?
    case Collect => s.main.Collecting?
  }

  /** The operation would make its goroutine wait. */
  predicate Blocked<R>(s: State<R>, a: Action) {
    match a
    case SendJob => |s.jobs.buf| >= s.jobs.cap
    case Post(_) => |s.results.buf| >= s.results.cap
    case Range(_) => s.jobs.buf == [] && !s.jobs.closed
    case Collect => s.results.buf == [] && !s.results.closed
    case CloseResults => s.wg != 0
    case _ => false
  }

  /** The operation would panic: a send on or a close of a closed channel, a
      wait-group counter below zero, or an index outside a slice. */
  predicate Panics<T, R>(c: Config<T, R>, s: State<R>, a: Action) {
    match a
    case SendJob => s.jobs.closed
    case CloseJobs => s.jobs.closed
    case Post(_) => s.results.closed
    case CloseResults => s.results.closed
    case Range(_) => s.jobs.buf == [] && s.wg == 0
    case Process(w) => w < |s.workers| && s.workers[w].Holding? && s.workers[w].job >= |c.targets|
    case Collect => s.results.buf != [] && s.results.buf[0].0 >= |s.slots|
    case _ => false
  }

  predicate CanStep<T, R>(c: Config<T, R>, s: State<R>, a: Action) {
    At(c, s, a) && !Blocked(s, a) && !Panics(c, s, a)
  }

  function Step<T, R>(c: Config<T, R>, s: State<R>, a: Action): State<R>
    requires CanStep(c, s, a)
  {
    match a
    case Spawn =>
      var k := s.main.started;
      s.(main := if k + 1 == |s.workers| then Sending(0) else Spawning(k + 1),
         workers := s.workers[k := Idle],
         wg := s.wg + 1)
    case SendJob =>
      s.(main := Sending(s.main.sent + 1), jobs := s.jobs.(buf := s.jobs.buf + [s.main.sent]))
    case CloseJobs =>
      s.(main := StartingCloser, jobs := s.jobs.(closed := true))
    case StartCloser =>
      s.(main := Collecting, closer := Waiting)
    case Range(w) =>
      if s.jobs.buf != [] then
        s.(workers := s.workers[w := Holding(s.jobs.buf[0])], jobs := s.jobs.(buf := s.jobs.buf[1..]))
      else
        s.(workers := s.workers[w := Exited], wg := s.wg - 1)
    case Process(w) =>
      var i := s.workers[w].job;
      s.(workers := s.workers[w := Posting(i, c.process(i, c.targets[i]))], processed := s.processed + [i])
    case Post(w) =>
      s.(workers := s.workers[w := Idle],
         results := s.results.(buf := s.results.buf + [(s.workers[w].index, s.workers[w].result)]))
    case CloseResults =>
      s.(closer := Gone, results := s.results.(closed := true))
    case Collect =>
      if s.results.buf != [] then
        var (i, r) := s.results.buf[0];
        s.(slots := s.slots[i := Some(r)], results := s.results.(buf := s.results.buf[1..]))
      else
        s.(main := Finished)
  }

  /** t is reached from s by performing acts in order. */
  ghost predicate Execution<T, R>(c: Config<T, R>, s: State<R>, acts: seq<Action>, t: State<R>)
    decreases |acts|
  {
    if acts == [] then s == t
    else CanStep(c, s, acts[0]) && Execution(c, Step(c, s, acts[0]), acts[1..], t)
  }

  // ---------------------------------------------------------------- sums

  function Sum<X>(xs: seq<X>, f: X -> nat): nat {
    if xs == [] then 0 else f(xs[0]) + Sum(xs[1..], f)
  }

  lemma {:induction false} SumUpdate<X>(xs: seq<X>, i: nat, x: X, f: X -> nat)
    requires i < |xs|
    ensures Sum(xs[i := x], f) + f(xs[i]) == Sum(xs, f) + f(x)
  {
    if i == 0 {
      assert xs[i := x][1..] == xs[1..];
    } else {
      assert xs[i := x][1..] == xs[1..][i - 1 := x];
      SumUpdate(xs[1..], i - 1, x, f);
    }
  }

  lemma {:induction false} SumOfConstant<X>(xs: seq<X>, k: nat, f: X -> nat)
    requires forall i | 0 <= i < |xs| :: f(xs[i]) == k
    ensures Sum(xs, f) == k * |xs|
  {
    if xs != [] {
      assert forall i | 0 <= i < |xs[1..]| :: xs[1..][i] == xs[i + 1];
      SumOfConstant(xs[1..], k, f);
    }
  }

  lemma {:induction false} PositiveSumHasPositiveTerm<X>(xs: seq<X>, f: X -> nat) returns (i: nat)
    requires Sum(xs, f) > 0
    ensures i < |xs| && f(xs[i]) > 0
  {
    if f(xs[0]) > 0 {
      i := 0;
    } else {
      var j := PositiveSumHasPositiveTerm(xs[1..], f);
      i := j + 1;
    }
  }

  lemma {:induction false} SumBoundsTerm<X>(xs: seq<X>, i: nat, f: X -> nat)
    requires i < |xs|
    ensures f(xs[i]) <= Sum(xs, f)
  {
    if i > 0 {
      SumBoundsTerm(xs[1..], i - 1, f);
    }
  }

  function Running<R>(w: Worker<R>): nat {
    if w.Unborn? || w.Exited? then 0 else 1
  }

  /** Operations a worker will perform for the job it has, and for its own end. */
  function WorkLeft<R>(w: Worker<R>): nat {
    match w
    case Unborn => 2
    case Idle => 1
    case Holding(_) => 4
    case Posting(_, _) => 3
    case Exited => 0
  }

  function MainLeft(n: nat, m: MainPc): int {
    match m
    case Spawning(_) => 5 * n + 3
    case Sending(k) => 5 * (n - k) + 3
    case StartingCloser => 2
    case Collecting => 1
    case Finished => 0
  }

  /** The number of operations left before everything has ended. */
  ghost function StepsLeft<T, R>(c: Config<T, R>, s: State<R>): int {
    MainLeft(|c.targets|, s.main)
    + 4 * |s.jobs.buf|
    + Sum(s.workers, WorkLeft)
    + |s.results.buf|
    + if s.closer.Gone? then 0 else 1
  }

  // ----------------------------------------------------------- invariant

  function SentCount(n: nat, m: MainPc): nat {
    match m
    case Spawning(_) => 0
    case Sending(k) => k
    case _ => n
  }

  function SpawnedCount(p: nat, m: MainPc): nat {
    match m
    case Spawning(k) => k
    case _ => p
  }

  /** The number of jobs some worker has taken off the channel. */
  function Taken<T, R>(c: Config<T, R>, s: State<R>): int {
    SentCount(|c.targets|, s.main) - |s.jobs.buf|
  }

  predicate Holds<R>(w: Worker<R>, i: nat) {
    (w.Holding? && w.job == i) || (w.Posting? && w.index == i)
  }

  /** Control: how far each goroutine is and what that says of the channels. */
  ghost predicate Control<T, R>(c: Config<T, R>, s: State<R>) {
    var n := |c.targets|;
    && |s.workers| == c.pool >= 1
    && |s.slots| == n
    && s.jobs.cap == n && s.results.cap == n
    && (s.main.Spawning? ==> s.main.started < c.pool)
    && SentCount(n, s.main) <= n
    && |s.jobs.buf| <= SentCount(n, s.main)
    && (s.jobs.closed <==> s.main.StartingCloser? || s.main.Collecting? || s.main.Finished?)
    && (s.closer.Unstarted? <==> !(s.main.Collecting? || s.main.Finished?))
    && (s.results.closed <==> s.closer.Gone?)
    && (s.main.Finished? ==> s.closer.Gone? && s.results.buf == [])
    && s.wg == Sum(s.workers, Running)
    && (forall w | 0 <= w < c.pool :: s.workers[w].Unborn? <==> w >= SpawnedCount(c.pool, s.main))
    && (forall w | 0 <= w < c.pool && s.workers[w].Exited? :: s.jobs.closed && s.jobs.buf == [])
    && (s.closer.Gone? ==> forall w | 0 <= w < c.pool :: s.workers[w].Exited?)
  }

  /** Data: the channel hands indices out in order, and every index handed out is
      in exactly one place with the value processPod gives it. */
  ghost predicate Data<T, R>(c: Config<T, R>, s: State<R>)
    requires Control(c, s)
  {
    && (forall k | 0 <= k < |s.jobs.buf| :: s.jobs.buf[k] == Taken(c, s) + k)
    && HeldJobs(c, s) && PostedResults(c, s) && FilledSlots(c, s) && NothingLost(c, s) && CallLog(c, s)
  }

  ghost predicate HeldJobs<T, R>(c: Config<T, R>, s: State<R>)
    requires Control(c, s)
  {
    && (forall w | 0 <= w < c.pool && s.workers[w].Holding? ::
          s.workers[w].job < Taken(c, s) && s.slots[s.workers[w].job].None?)
    && (forall w | 0 <= w < c.pool && s.workers[w].Posting? ::
          && s.workers[w].index < Taken(c, s)
          && s.slots[s.workers[w].index].None?
          && s.workers[w].result == c.process(s.workers[w].index, c.targets[s.workers[w].index]))
    && (forall v, w, i | 0 <= v < c.pool && 0 <= w < c.pool && Holds(s.workers[v], i) && Holds(s.workers[w], i) :: v == w)
  }

  ghost predicate PostedResults<T, R>(c: Config<T, R>, s: State<R>)
    requires Control(c, s)
  {
    && (forall k | 0 <= k < |s.results.buf| ::
          && s.results.buf[k].0 < Taken(c, s)
          && s.slots[s.results.buf[k].0].None?
          && s.results.buf[k].1 == c.process(s.results.buf[k].0, c.targets[s.results.buf[k].0]))
    && (forall j, k | 0 <= j < k < |s.results.buf| :: s.results.buf[j].0 != s.results.buf[k].0)
    && (forall k, w | 0 <= k < |s.results.buf| && 0 <= w < c.pool :: !Holds(s.workers[w], s.results.buf[k].0))
  }

  ghost predicate FilledSlots<T, R>(c: Config<T, R>, s: State<R>)
    requires Control(c, s)
  {
    forall i | 0 <= i < |s.slots| && s.slots[i].Some? ::
      i < Taken(c, s) && s.slots[i] == Some(c.process(i, c.targets[i]))
  }

  ghost predicate InHand<R>(s: State<R>, i: nat) {
    exists w | 0 <= w < |s.workers| :: Holds(s.workers[w], i)
  }

  ghost predicate InResults<R>(s: State<R>, i: nat) {
    exists k | 0 <= k < |s.results.buf| :: s.results.buf[k].0 == i
  }

  ghost predicate NothingLost<T, R>(c: Config<T, R>, s: State<R>)
    requires Control(c, s)
  {
    forall i: nat | i < Taken(c, s) && s.slots[i].None? :: InHand(s, i) || InResults(s, i)
  }

  /** processPod has been called at most once for any index, and for every index
      taken that no worker still holds unprocessed. */
  ghost predicate CallLog<T, R>(c: Config<T, R>, s: State<R>)
    requires Control(c, s)
  {
    && (forall j, k | 0 <= j < k < |s.processed| :: s.processed[j] != s.processed[k])
    && (forall k | 0 <= k < |s.processed| ::
          && s.processed[k] < Taken(c, s)
          && forall w | 0 <= w < c.pool :: s.workers[w] != Holding(s.processed[k]))
    && (forall i: nat | i < Taken(c, s) :: i in s.processed || exists w | 0 <= w < c.pool :: s.workers[w] == Holding(i))
  }

  ghost predicate Inv<T, R>(c: Config<T, R>, s: State<R>) {
    Control(c, s) && Data(c, s)
  }

  lemma InitInv<T, R>(c: Config<T, R>)
    requires GoodConfig(c)
    ensures Inv(c, Init(c))
    ensures StepsLeft(c, Init(c)) == 5 * |c.targets| + 2 * c.pool + 4
  {
    var s := Init(c);
    SumOfConstant(s.workers, 0, Running);
    SumOfConstant(s.workers, 2, WorkLeft);
  }

  /** No goroutine that reaches a send ever waits for room, and none panics. */
  lemma SendsNeverWait<T, R>(c: Config<T, R>, s: State<R>, a: Action)
    requires Inv(c, s) && At(c, s, a)
    ensures a.SendJob? || a.Post? ==> !Blocked(s, a)
    ensures !Blocked(s, a) ==> !Panics(c, s, a)
  {
    match a
    case Post(w) =>
      var firsts := seq(|s.results.buf|, k requires 0 <= k < |s.results.buf| => s.results.buf[k].0);
      DistinctBelowMissingOne(firsts, |c.targets|, s.workers[w].index);
    case Range(w) =>
      SumBoundsTerm(s.workers, w, Running);
    case _ =>
  }

  /** Distinct numbers below n that leave one out are fewer than n. */
  lemma DistinctBelowMissingOne(xs: seq<nat>, n: nat, missing: nat)
    requires missing < n
    requires forall k | 0 <= k < |xs| :: xs[k] < n && xs[k] != missing
    requires forall j, k | 0 <= j < k < |xs| :: xs[j] != xs[k]
    ensures |xs| < n
  {
    var members := set k | 0 <= k < |xs| :: xs[k];
    DistinctCount(xs);
    SubsetCount(members + {missing}, Below(n));
  }

  lemma {:induction false} DistinctCount<X>(xs: seq<X>)
    requires forall j, k | 0 <= j < k < |xs| :: xs[j] != xs[k]
    ensures |set k | 0 <= k < |xs| :: xs[k]| == |xs|
  {
    if xs != [] {
      var last := xs[|xs| - 1];
      var init := xs[..|xs| - 1];
      DistinctCount(init);
      assert (set k | 0 <= k < |xs| :: xs[k]) == (set k | 0 <= k < |init| :: init[k]) + {last};
    }
  }

  ghost function Below(n: nat): (all: set<nat>)
    ensures |all| == n && forall i: nat :: i in all <==> i < n
  {
    if n == 0 then {} else Below(n - 1) + {n - 1}
  }

  lemma {:induction false} SubsetCount<X>(a: set<X>, b: set<X>)
    requires a <= b
    ensures |a| <= |b|
  {
    if a != {} {
      var x :| x in a;
      SubsetCount(a - {x}, b - {x});
    }
  }

  /** Every operation takes exactly one off the count of operations left. */
  lemma StepCounts<T, R>(c: Config<T, R>, s: State<R>, a: Action)
    requires Inv(c, s) && CanStep(c, s, a)
    ensures StepsLeft(c, Step(c, s, a)) == StepsLeft(c, s) - 1
  {
    var t := Step(c, s, a);
    match a
    case Spawn => SumUpdate(s.workers, s.main.started, Idle, WorkLeft);
    case Range(w) =>
      SumUpdate(s.workers, w, t.workers[w], WorkLeft);
    case Process(w) => SumUpdate(s.workers, w, t.workers[w], WorkLeft);
    case Post(w) => SumUpdate(s.workers, w, t.workers[w], WorkLeft);
    case _ =>
  }

  lemma ControlKept<T, R>(c: Config<T, R>, s: State<R>, a: Action)
    requires Inv(c, s) && CanStep(c, s, a)
    ensures Control(c, Step(c, s, a))
  {
    match a
    case Range(w) => WorkerKeepsControl(c, s, a, w);
    case Process(w) => WorkerKeepsControl(c, s, a, w);
    case Post(w) => WorkerKeepsControl(c, s, a, w);
    case _ => OthersKeepControl(c, s, a);
  }

  lemma WorkerKeepsControl<T, R>(c: Config<T, R>, s: State<R>, a: Action, w: nat)
    requires Inv(c, s) && CanStep(c, s, a) && (a == Range(w) || a == Process(w) || a == Post(w))
    ensures Control(c, Step(c, s, a))
  {
    SumUpdate(s.workers, w, Step(c, s, a).workers[w], Running);
  }

  lemma OthersKeepControl<T, R>(c: Config<T, R>, s: State<R>, a: Action)
    requires Inv(c, s) && CanStep(c, s, a) && !a.Range? && !a.Process? && !a.Post?
    ensures Control(c, Step(c, s, a))
  {
    if a.Spawn? {
      SumUpdate(s.workers, s.main.started, Idle, Running);
    } else if a.CloseResults? {
      forall w | 0 <= w < c.pool ensures s.workers[w].Exited? {
        SumBoundsTerm(s.workers, w, Running);
      }
    }
  }

  lemma DataKept<T, R>(c: Config<T, R>, s: State<R>, a: Action)
    requires Inv(c, s) && CanStep(c, s, a) && Control(c, Step(c, s, a))
    ensures Data(c, Step(c, s, a))
  {
    match a
    case Spawn => SpawnKeepsData(c, s);
    case Range(w) => RangeKeepsData(c, s, w);
    case Process(w) => ProcessKeepsData(c, s, w);
    case Post(w) => PostKeepsData(c, s, w);
    case Collect => CollectKeepsData(c, s);
    case _ => SameDataKept(c, s, Step(c, s, a));
  }

  /** Data does not depend on the program counters or the closed flags. */
  lemma SameDataKept<T, R>(c: Config<T, R>, s: State<R>, t: State<R>)
    requires Inv(c, s) && Control(c, t)
    requires t.workers == s.workers && t.results.buf == s.results.buf && t.slots == s.slots && t.processed == s.processed
    requires Taken(c, t) == Taken(c, s)
    requires forall k | 0 <= k < |t.jobs.buf| :: t.jobs.buf[k] == Taken(c, t) + k
    ensures Data(c, t)
  {
    assert forall i: nat :: InHand(s, i) ==> InHand(t, i);
    assert forall i: nat :: InResults(s, i) ==> InResults(t, i);
  }

  lemma SpawnKeepsData<T, R>(c: Config<T, R>, s: State<R>)
    requires Inv(c, s) && CanStep(c, s, Spawn) && Control(c, Step(c, s, Spawn))
    ensures Data(c, Step(c, s, Spawn))
  {
    var t := Step(c, s, Spawn);
    assert Taken(c, t) == Taken(c, s) == 0;
  }

  lemma RangeKeepsData<T, R>(c: Config<T, R>, s: State<R>, w: nat)
    requires Inv(c, s) && CanStep(c, s, Range(w)) && Control(c, Step(c, s, Range(w)))
    ensures Data(c, Step(c, s, Range(w)))
  {
    var t := Step(c, s, Range(w));
    OtherPlacesKept(c, s, t, w);
    if s.jobs.buf == [] {
      ExitKeepsHeld(c, s, t, w);
      ExitKeepsCallLog(c, s, t, w);
    } else {
      assert t.jobs.buf == s.jobs.buf[1..];
      TakeKeepsHeld(c, s, t, w);
      TakeKeepsCallLog(c, s, t, w);
      assert Holds(t.workers[w], s.jobs.buf[0]);
    }
  }

  lemma ExitKeepsHeld<T, R>(c: Config<T, R>, s: State<R>, t: State<R>, w: nat)
    requires Inv(c, s) && CanStep(c, s, Range(w)) && s.jobs.buf == [] && t == Step(c, s, Range(w)) && Control(c, t)
    ensures HeldJobs(c, t) && PostedResults(c, t)
  {
    assert forall i: nat, v | 0 <= v < c.pool :: Holds(t.workers[v], i) <==> Holds(s.workers[v], i);
  }

  lemma ExitKeepsCallLog<T, R>(c: Config<T, R>, s: State<R>, t: State<R>, w: nat)
    requires Inv(c, s) && CanStep(c, s, Range(w)) && s.jobs.buf == [] && t == Step(c, s, Range(w)) && Control(c, t)
    ensures CallLog(c, t)
  {
    forall i: nat | i < Taken(c, t) && i !in t.processed ensures exists v | 0 <= v < c.pool :: t.workers[v] == Holding(i) {
      var v :| 0 <= v < c.pool && s.workers[v] == Holding(i);
      assert t.workers[v] == Holding(i);
    }
  }

  lemma TakeKeepsHeld<T, R>(c: Config<T, R>, s: State<R>, t: State<R>, w: nat)
    requires Inv(c, s) && CanStep(c, s, Range(w)) && s.jobs.buf != [] && t == Step(c, s, Range(w)) && Control(c, t)
    ensures HeldJobs(c, t)
  {
    var job := s.jobs.buf[0];
    assert job == Taken(c, s) && Taken(c, t) == job + 1;
    assert s.slots[job].None?;
    assert forall v | 0 <= v < c.pool && v != w :: t.workers[v] == s.workers[v] && !Holds(t.workers[v], job);
  }

  lemma TakeKeepsCallLog<T, R>(c: Config<T, R>, s: State<R>, t: State<R>, w: nat)
    requires Inv(c, s) && CanStep(c, s, Range(w)) && s.jobs.buf != [] && t == Step(c, s, Range(w)) && Control(c, t)
    ensures CallLog(c, t)
  {
    var job := s.jobs.buf[0];
    assert job == Taken(c, s) && Taken(c, t) == job + 1;
    assert job !in s.processed;
    assert t.workers[w] == Holding(job);
    forall i: nat | i < Taken(c, s) && i !in t.processed ensures exists v | 0 <= v < c.pool :: t.workers[v] == Holding(i) {
      var v :| 0 <= v < c.pool && s.workers[v] == Holding(i);
      assert t.workers[v] == Holding(i);
    }
  }

  /** Changing one ready worker leaves everything that was in a hand or in the
      results channel where it was. */
  lemma OtherPlacesKept<T, R>(c: Config<T, R>, s: State<R>, t: State<R>, w: nat)
    requires Inv(c, s) && w < c.pool && s.workers[w].Idle?
    requires |t.workers| == |s.workers| && t.workers == s.workers[w := t.workers[w]] && t.results.buf == s.results.buf
    ensures forall i: nat :: InHand(s, i) ==> InHand(t, i)
    ensures forall i: nat :: InResults(s, i) ==> InResults(t, i)
  {
    forall i: nat | InHand(s, i) ensures InHand(t, i) {
      var v :| 0 <= v < c.pool && Holds(s.workers[v], i);
      assert Holds(t.workers[v], i);
    }
  }

  lemma ProcessKeepsData<T, R>(c: Config<T, R>, s: State<R>, w: nat)
    requires Inv(c, s) && CanStep(c, s, Process(w)) && Control(c, Step(c, s, Process(w)))
    ensures Data(c, Step(c, s, Process(w)))
  {
    var t := Step(c, s, Process(w));
    assert Holds(s.workers[w], s.workers[w].job);
    assert forall v, i: nat | 0 <= v < c.pool :: Holds(t.workers[v], i) <==> Holds(s.workers[v], i);
    forall i: nat | InHand(s, i) ensures InHand(t, i) {
      var v :| 0 <= v < c.pool && Holds(s.workers[v], i);
      assert Holds(t.workers[v], i);
    }
    assert forall i: nat :: InResults(s, i) ==> InResults(t, i);
    ProcessKeepsCallLog(c, s, t, w);
  }

  lemma ProcessKeepsCallLog<T, R>(c: Config<T, R>, s: State<R>, t: State<R>, w: nat)
    requires Inv(c, s) && CanStep(c, s, Process(w)) && t == Step(c, s, Process(w)) && Control(c, t)
    ensures CallLog(c, t)
  {
    var job := s.workers[w].job;
    assert Holds(s.workers[w], job);
    assert job !in s.processed;
    assert forall v | 0 <= v < c.pool && v != w :: !Holds(s.workers[v], job);
    forall i: nat | i < Taken(c, t) && i !in t.processed ensures exists v | 0 <= v < c.pool :: t.workers[v] == Holding(i) {
      var v :| 0 <= v < c.pool && s.workers[v] == Holding(i);
      assert t.workers[v] == Holding(i);
    }
  }

  lemma PostKeepsData<T, R>(c: Config<T, R>, s: State<R>, w: nat)
    requires Inv(c, s) && CanStep(c, s, Post(w)) && Control(c, Step(c, s, Post(w)))
    ensures Data(c, Step(c, s, Post(w)))
  {
    var t := Step(c, s, Post(w));
    var index := s.workers[w].index;
    assert Holds(s.workers[w], index);
    assert forall v, i: nat | 0 <= v < c.pool && Holds(t.workers[v], i) :: Holds(s.workers[v], i) && v != w;
    PostLosesNothing(c, s, t, w);
    PostKeepsCallLog(c, s, t, w);
  }

  lemma PostLosesNothing<T, R>(c: Config<T, R>, s: State<R>, t: State<R>, w: nat)
    requires Inv(c, s) && CanStep(c, s, Post(w)) && t == Step(c, s, Post(w)) && Control(c, t)
    ensures NothingLost(c, t)
  {
    forall i: nat | i < Taken(c, t) && t.slots[i].None? ensures InHand(t, i) || InResults(t, i) {
      if InHand(s, i) {
        var v :| 0 <= v < c.pool && Holds(s.workers[v], i);
        if v == w {
          assert t.results.buf[|s.results.buf|].0 == i;
        } else {
          assert Holds(t.workers[v], i);
        }
      } else {
        var k :| 0 <= k < |s.results.buf| && s.results.buf[k].0 == i;
        assert t.results.buf[k].0 == i;
      }
    }
  }

  lemma PostKeepsCallLog<T, R>(c: Config<T, R>, s: State<R>, t: State<R>, w: nat)
    requires Inv(c, s) && CanStep(c, s, Post(w)) && t == Step(c, s, Post(w)) && Control(c, t)
    ensures CallLog(c, t)
  {
    forall i: nat | i < Taken(c, t) && i !in t.processed ensures exists v | 0 <= v < c.pool :: t.workers[v] == Holding(i) {
      var v :| 0 <= v < c.pool && s.workers[v] == Holding(i);
      assert t.workers[v] == Holding(i);
    }
  }

  lemma CollectKeepsData<T, R>(c: Config<T, R>, s: State<R>)
    requires Inv(c, s) && CanStep(c, s, Collect) && Control(c, Step(c, s, Collect))
    ensures Data(c, Step(c, s, Collect))
  {
    var t := Step(c, s, Collect);
    if s.results.buf == [] {
      SameDataKept(c, s, t);
    } else {
      assert forall k | 0 <= k < |t.results.buf| :: t.results.buf[k] == s.results.buf[k + 1];
      CollectKeepsHeld(c, s, t);
      CollectLosesNothing(c, s, t);
    }
  }

  lemma CollectKeepsHeld<T, R>(c: Config<T, R>, s: State<R>, t: State<R>)
    requires Inv(c, s) && CanStep(c, s, Collect) && s.results.buf != [] && t == Step(c, s, Collect) && Control(c, t)
    ensures HeldJobs(c, t)
  {
    var index := s.results.buf[0].0;
    forall w | 0 <= w < c.pool ensures !Holds(t.workers[w], index) {
    }
  }

  lemma CollectLosesNothing<T, R>(c: Config<T, R>, s: State<R>, t: State<R>)
    requires Inv(c, s) && CanStep(c, s, Collect) && s.results.buf != [] && t == Step(c, s, Collect) && Control(c, t)
    ensures NothingLost(c, t)
  {
    forall i: nat | i < Taken(c, t) && t.slots[i].None? ensures InHand(t, i) || InResults(t, i) {
      if InHand(s, i) {
        var v :| 0 <= v < c.pool && Holds(s.workers[v], i);
        assert Holds(t.workers[v], i);
      } else {
        var k :| 0 <= k < |s.results.buf| && s.results.buf[k].0 == i;
        assert t.results.buf[k - 1].0 == i;
      }
    }
  }

  lemma StepKeepsInv<T, R>(c: Config<T, R>, s: State<R>, a: Action)
    requires Inv(c, s) && CanStep(c, s, a)
    ensures Inv(c, Step(c, s, a))
  {
    ControlKept(c, s, a);
    DataKept(c, s, a);
  }

  // ------------------------------------------------------- whole runs

  /** Until the handler goroutine is done, some goroutine can move. */
  lemma NoDeadlock<T, R>(c: Config<T, R>, s: State<R>) returns (a: Action)
    requires Inv(c, s) && !s.main.Finished?
    ensures CanStep(c, s, a)
  {
    match s.main
    case Spawning(_) => a := Spawn;
    case Sending(k) => a := if k < |c.targets| then SendJob else CloseJobs;
    case StartingCloser => a := StartCloser;
    case Collecting =>
      if s.results.buf != [] || s.results.closed {
        a := Collect;
      } else if s.wg == 0 {
        a := CloseResults;
      } else {
        var w := PositiveSumHasPositiveTerm(s.workers, Running);
        a := match s.workers[w]
          case Holding(_) => Process(w)
          case Posting(_, _) => Post(w)
          case _ => Range(w);
      }
    SendsNeverWait(c, s, a);
  }

  /** Once the handler is done nothing else can happen. */
  lemma NothingAfterFinish<T, R>(c: Config<T, R>, s: State<R>, a: Action)
    requires Inv(c, s) && s.main.Finished?
    ensures !CanStep(c, s, a)
  {
  }

  /** The slots of a finished run: every target's result, in request order. */
  lemma FinishedSlots<T, R>(c: Config<T, R>, s: State<R>)
    requires Inv(c, s) && s.main.Finished?
    ensures forall i | 0 <= i < |c.targets| :: s.slots[i] == Some(c.process(i, c.targets[i]))
    ensures forall i: nat | i < |c.targets| :: multiset(s.processed)[i] == 1
    ensures |s.processed| == |c.targets|
  {
    assert forall i: nat :: !InHand(s, i);
    assert s.jobs.buf == [] by {
      assert s.workers[0].Exited?;
    }
    forall i: nat | i < |c.targets| ensures s.slots[i].Some? && i in s.processed {
    }
    DistinctOnce(s.processed);
    DistinctCount(s.processed);
    var called := set k | 0 <= k < |s.processed| :: s.processed[k];
    assert called == Below(|c.targets|) by {
      forall i: nat | i < |c.targets| ensures i in called {
        assert s.slots[i].Some? && i in s.processed;
        var k :| 0 <= k < |s.processed| && s.processed[k] == i;
      }
    }
  }

  lemma {:induction false} DistinctOnce<X>(xs: seq<X>)
    requires forall j, k | 0 <= j < k < |xs| :: xs[j] != xs[k]
    ensures forall x | x in xs :: multiset(xs)[x] == 1
  {
    if xs != [] {
      var last := |xs| - 1;
      DistinctOnce(xs[..last]);
      assert xs == xs[..last] + [xs[last]];
    }
  }

  lemma {:induction false} ExecutionKeeps<T, R>(c: Config<T, R>, s: State<R>, acts: seq<Action>, t: State<R>)
    requires Inv(c, s) && Execution(c, s, acts, t)
    ensures Inv(c, t) && StepsLeft(c, t) == StepsLeft(c, s) - |acts|
    decreases |acts|
  {
    if acts != [] {
      StepKeepsInv(c, s, acts[0]);
      StepCounts(c, s, acts[0]);
      ExecutionKeeps(c, Step(c, s, acts[0]), acts[1..], t);
    }
  }

  lemma NothingLeftMeansFinished<T, R>(c: Config<T, R>, s: State<R>)
    requires Inv(c, s)
    ensures StepsLeft(c, s) >= 0
    ensures StepsLeft(c, s) == 0 <==> s.main.Finished?
  {
    if s.main.Finished? {
      SumOfConstant(s.workers, 0, WorkLeft);
      assert s.workers[0].Exited?;
    }
  }

  /** Safety and termination of the whole pool.  In any interleaving, whatever the
      next operation is, a send has room and nothing panics; the results channel is
      closed only after every worker has ended; the pool stops exactly when the
      handler has collected everything, after 5N + 2P + 4 operations whatever the
      schedule, and then slot i holds processPod of target i, each target having
      been processed exactly once. */
  lemma EveryInterleaving<T, R>(c: Config<T, R>, acts: seq<Action>, s: State<R>)
    requires GoodConfig(c) && Execution(c, Init(c), acts, s)
    ensures |acts| <= 5 * |c.targets| + 2 * c.pool + 4
    ensures forall a | At(c, s, a) :: (a.SendJob? || a.Post? ==> !Blocked(s, a)) && (!Blocked(s, a) ==> !Panics(c, s, a))
    ensures s.results.closed ==> forall w | 0 <= w < |s.workers| :: s.workers[w].Exited?
    ensures forall j, k | 0 <= j < k < |s.processed| :: s.processed[j] != s.processed[k]
    ensures (forall a :: !CanStep(c, s, a)) <==> s.main.Finished?
    ensures s.main.Finished? <==> |acts| == 5 * |c.targets| + 2 * c.pool + 4
    ensures s.main.Finished? ==>
      && s.slots == seq(|c.targets|, i requires 0 <= i < |c.targets| => Some(c.process(i, c.targets[i])))
      && |s.processed| == |c.targets|
      && forall i: nat | i < |c.targets| :: multiset(s.processed)[i] == 1
  {
    InitInv(c);
    ExecutionKeeps(c, Init(c), acts, s);
    NothingLeftMeansFinished(c, s);
    forall a | At(c, s, a)
      ensures (a.SendJob? || a.Post? ==> !Blocked(s, a)) && (!Blocked(s, a) ==> !Panics(c, s, a))
    {
      SendsNeverWait(c, s, a);
    }
    if s.main.Finished? {
      FinishedSlots(c, s);
      forall a ensures !CanStep(c, s, a) {
        NothingAfterFinish(c, s, a);
      }
    } else {
      var a := NoDeadlock(c, s);
    }
  }

  // ---------------------------------------------------- running a schedule

  function AllActions(p: nat): seq<Action> {
    [Spawn, SendJob, CloseJobs, StartCloser, CloseResults, Collect] + seq(p, w requires 0 <= w < p => Range(w))
    + seq(p, w requires 0 <= w < p => Process(w)) + seq(p, w requires 0 <= w < p => Post(w))
  }

  lemma AllActionsComplete<T, R>(c: Config<T, R>, s: State<R>, a: Action)
    requires Control(c, s) && At(c, s, a)
    ensures a in AllActions(c.pool)
  {
    var all := AllActions(c.pool);
    match a
    case Range(w) => assert all[6 + w] == a;
    case Process(w) => assert all[6 + c.pool + w] == a;
    case Post(w) => assert all[6 + 2 * c.pool + w] == a;
    case Spawn => assert all[0] == a;
    case SendJob => assert all[1] == a;
    case CloseJobs => assert all[2] == a;
    case StartCloser => assert all[3] == a;
    case CloseResults => assert all[4] == a;
    case Collect => assert all[5] == a;
  }

  function Enabled<T, R>(c: Config<T, R>, s: State<R>, candidates: seq<Action>): (ready: seq<Action>)
    ensures forall a :: a in ready <==> a in candidates && CanStep(c, s, a)
  {
    if candidates == [] then []
    else
      var rest := Enabled(c, s, candidates[1..]);
      if CanStep(c, s, candidates[0]) then [candidates[0]] + rest else rest
  }

  /** Runs the pool under the schedule that resolves the n-th choice with pick(n),
      and returns podResultsByIndex.  Every schedule is some pick. */
  method RunPool<T, R>(targets: seq<T>, numCPU: int, process: (nat, T) -> R, pick: nat -> nat) returns (slots: seq<Option<R>>)
    ensures slots == seq(|targets|, i requires 0 <= i < |targets| => Some(process(i, targets[i])))
  {
    var c := Config(targets, PoolSize(numCPU, |targets|), process);
    var s: State<R> := Init(c);
    InitInv(c);
    var n := 0;
    while !s.main.Finished?
      invariant Inv(c, s)
      decreases StepsLeft(c, s)
    {
      ghost var enabled := NoDeadlock(c, s);
      AllActionsComplete(c, s, enabled);
      var ready := Enabled(c, s, AllActions(c.pool));
      var a := ready[pick(n) % |ready|];
      NothingLeftMeansFinished(c, s);
      StepKeepsInv(c, s, a);
      StepCounts(c, s, a);
      s := Step(c, s, a);
      n := n + 1;
    }
    FinishedSlots(c, s);
    slots := s.slots;
  }
}
