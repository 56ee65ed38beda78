/** ConfigureNetwork above the worker pool: what is done with one pod's actions,
    and how the per-pod reports become one response. */
module Configurator {
  import WorkerPool
  import opened Options

  /** What a request asks of a pod.  Only the type is read here; the rest of the
      action is opaque. */
  datatype ActionEntry = ActionEntry(typ: string, payload: string)

  datatype PodConfig = PodConfig(pod: string, actions: seq<ActionEntry>)

  /** An action resolved for a pod.  skip is the empty string for an action that
      is to run; repeatable is the descriptor's Repeatable flag, false
      for an unknown action. */
  datatype Plan = Plan(action: ActionEntry, persist: bool, repeatable: bool, commands: seq<string>,
                       skip: string, err: Option<string>)

  datatype Outcome = Outcome(output: string, err: Option<string>)

  datatype Status = Succeeded | Failed | Skipped

  datatype ErrorEntry = ErrorEntry(pod: string, driver: string, error: string)

  datatype ActionResult = ActionResult(pod: string, resolvedPod: string, driver: string, action: string,
                                       status: Status, commands: seq<string>, output: string, error: string)

  datatype PodResult = PodResult(index: nat, errorList: seq<ErrorEntry>, actionResults: seq<ActionResult>,
                                 successes: nat, failures: nat, skipped: nat)

  const DUPLICATE := "duplicate operation: already applied to this pod with the same payload"
  const NOT_PERSISTED := "operation executed but could not persist history: "

  /** The helpers processPod calls for one pod, with the answers they give. */
  datatype Helpers = Helpers(
    resolve: string -> Result<string>,                            // ResolvePodReference
    driverType: string -> string,                                 // "" without a driver
    plan: (string, seq<ActionEntry>) -> seq<Plan>,                // PlanActions
    appliedSince: (string, ActionEntry) -> Result<bool>,          // DriverOperationAppliedSince
    run: (string, seq<Plan>) -> seq<(Plan, Outcome)>,             // RunPlannedActions: it may set Err on a plan
    save: (string, nat, ActionEntry) -> Option<string>)           // SaveDriverOperation's error for the n-th action

  /** The successful SaveDriverOperation calls, in order. */
  class History {
    var saved: seq<(string, ActionEntry)>

    constructor ()
      ensures saved == []
    {
      saved := [];
    }
  }

  // ------------------------------------------------------------ reading reports

  function Count(rs: seq<ActionResult>, s: Status): nat {
    if rs == [] then 0
    else Count(rs[..|rs| - 1], s) + if rs[|rs| - 1].status == s then 1 else 0
  }

  function ErrorsOf(rs: seq<ActionResult>): seq<ErrorEntry> {
    if rs == [] then []
    else
      var r := rs[|rs| - 1];
      ErrorsOf(rs[..|rs| - 1]) + if r.status == Failed then [ErrorEntry(r.pod, r.driver, r.error)] else []
  }

  /** The actions a report says are in the history: those that persist and were
      reported as success. */
  function Persisted(pod: string, ran: seq<(Plan, Outcome)>, rs: seq<ActionResult>): seq<(string, ActionEntry)>
    requires |ran| == |rs|
  {
    if rs == [] then []
    else
      var last := |rs| - 1;
      Persisted(pod, ran[..last], rs[..last])
      + if rs[last].status == Succeeded && ran[last].0.persist then [(pod, ran[last].0.action)] else []
  }

  lemma {:induction false} EveryResultCounted(rs: seq<ActionResult>)
    ensures Count(rs, Succeeded) + Count(rs, Failed) + Count(rs, Skipped) == |rs|
    ensures |ErrorsOf(rs)| == Count(rs, Failed)
  {
    if rs != [] {
      EveryResultCounted(rs[..|rs| - 1]);
    }
  }

  lemma {:induction false} CountConcat(a: seq<ActionResult>, b: seq<ActionResult>, s: Status)
    ensures Count(a + b, s) == Count(a, s) + Count(b, s)
    ensures ErrorsOf(a + b) == ErrorsOf(a) + ErrorsOf(b)
  {
    if b == [] {
      assert a + b == a;
    } else {
      var last := |b| - 1;
      assert (a + b)[..|a + b| - 1] == a + b[..last];
      CountConcat(a, b[..last], s);
    }
  }

  function Places(rs: seq<ActionResult>, s: Status): set<nat> { set i: nat | i < |rs| && rs[i].status == s }

  lemma PlacesSnoc(rs: seq<ActionResult>, r: ActionResult, s: Status)
    ensures Places(rs + [r], s) == Places(rs, s) + if r.status == s then {|rs|} else {}
    ensures |rs| !in Places(rs, s)
  {
  }

  /** The counts are numbers of places, whatever the order. */
  lemma {:induction false} CountIsHowMany(rs: seq<ActionResult>, s: Status)
    ensures Count(rs, s) == |Places(rs, s)|
  {
    if rs == [] {
      assert Places(rs, s) == {};
    } else {
      var last := |rs| - 1;
      CountIsHowMany(rs[..last], s);
      PlacesSnoc(rs[..last], rs[last], s);
      assert rs[..last] + [rs[last]] == rs;
    }
  }

  lemma {:induction false} CountGrows(rs: seq<ActionResult>, i: nat, s: Status)
    requires i < |rs| && rs[i].status == s
    ensures Count(rs[..i], s) < Count(rs, s)
  {
    var last := |rs| - 1;
    if i < last {
      assert rs[..last][..i] == rs[..i];
      CountGrows(rs[..last], i, s);
    }
  }

  /** The error of each failed result, with its pod and driver, stands at the place
      given by the number of failures before it. */
  lemma {:induction false} ErrorsInOrder(rs: seq<ActionResult>, i: nat)
    requires i < |rs| && rs[i].status == Failed
    ensures Count(rs[..i], Failed) < |ErrorsOf(rs)| == Count(rs, Failed)
    ensures ErrorsOf(rs)[Count(rs[..i], Failed)] == ErrorEntry(rs[i].pod, rs[i].driver, rs[i].error)
  {
    var last := |rs| - 1;
    EveryResultCounted(rs);
    EveryResultCounted(rs[..last]);
    CountGrows(rs, i, Failed);
    if i < last {
      assert rs[..last][..i] == rs[..i];
      ErrorsInOrder(rs[..last], i);
    }
  }

  /** The report agrees with its own action results. */
  predicate Balanced(r: PodResult) {
    && r.errorList == ErrorsOf(r.actionResults)
    && r.successes == Count(r.actionResults, Succeeded)
    && r.failures == Count(r.actionResults, Failed)
    && r.skipped == Count(r.actionResults, Skipped)
  }

  // ------------------------------------------------------------ one pod

  /** The plan after the duplicate check. */
  function Checked(h: Helpers, pod: string, p: Plan): Plan {
    if p.err.Some? || !p.persist || p.repeatable then p
    else match h.appliedSince(pod, p.action)
         case Err(e) => p.(err := Some(e))
         case Ok(applied) => if applied then p.(skip := DUPLICATE) else p
  }

  /** Status and error text of the i-th action, in the order of the switch. */
  function Verdict(p: Plan, o: Outcome, saveErr: Option<string>): (Status, string) {
    if p.skip != "" then (Skipped, p.skip)
    else if p.err.Some? then (Failed, p.err.value)
    else if o.err.Some? then (Failed, o.err.value)
    else if p.persist && saveErr.Some? then (Failed, NOT_PERSISTED + saveErr.value)
    else (Succeeded, "")
  }

  function ResultOf(ref: string, pod: string, driver: string, p: Plan, o: Outcome, saveErr: Option<string>): ActionResult {
    var (status, error) := Verdict(p, o, saveErr);
    ActionResult(ref, pod, driver, p.action.typ, status,
                 if status == Skipped || p.err.Some? then [] else p.commands,
                 if status == Succeeded then o.output else "", error)
  }

  function Unresolved(ref: string, error: string, a: ActionEntry): ActionResult {
    ActionResult(ref, "", "unknown", a.typ, Failed, [], "", error)
  }

  /** What processPod reports for target i; the pool's uninterpreted function. */
  function ReportOf(h: Helpers, index: nat, cfg: PodConfig): PodResult {
    var rs := ResultsOf(h, cfg);
    PodResult(index, ErrorsOf(rs), rs, Count(rs, Succeeded), Count(rs, Failed), Count(rs, Skipped))
  }

  function ResultsOf(h: Helpers, cfg: PodConfig): seq<ActionResult> {
    match h.resolve(cfg.pod)
    case Err(e) => seq(|cfg.actions|, i requires 0 <= i < |cfg.actions| => Unresolved(cfg.pod, e, cfg.actions[i]))
    case Ok(pod) =>
      var ran := RanOf(h, pod, cfg.actions);
      seq(|ran|, i requires 0 <= i < |ran| =>
        ResultOf(cfg.pod, pod, h.driverType(pod), ran[i].0, ran[i].1, h.save(pod, i, ran[i].0.action)))
  }

  function RanOf(h: Helpers, pod: string, actions: seq<ActionEntry>): seq<(Plan, Outcome)> {
    var plans := h.plan(pod, actions);
    h.run(pod, seq(|plans|, i requires 0 <= i < |plans| => Checked(h, pod, plans[i])))
  }

  /** What the helpers promise for this pod: one plan per action and one outcome
      per plan, in order, where running may only add an error to a plan. */
  predicate OneToOne(h: Helpers, cfg: PodConfig) {
    h.resolve(cfg.pod).Ok? ==>
      var pod := h.resolve(cfg.pod).value;
      var plans := h.plan(pod, cfg.actions);
      var ran := RanOf(h, pod, cfg.actions);
      && |plans| == |ran| == |cfg.actions|
      && forall i | 0 <= i < |plans| ::
           && plans[i].action == cfg.actions[i]
           && SameButError(ran[i].0, Checked(h, pod, plans[i]))
  }

  predicate SameButError(p: Plan, q: Plan) {
    p.action == q.action && p.persist == q.persist && p.repeatable == q.repeatable && p.commands == q.commands && p.skip == q.skip
  }

  method MarkDuplicates(h: Helpers, pod: string, planned: seq<Plan>) returns (plans: seq<Plan>)
    ensures plans == seq(|planned|, i requires 0 <= i < |planned| => Checked(h, pod, planned[i]))
    ensures |plans| == |planned| && forall i | 0 <= i < |planned| ::
      var p, q, applied := planned[i], plans[i], h.appliedSince(pod, planned[i].action);
      && (p.err.Some? || !p.persist || p.repeatable || applied == Ok(false) ==> q == p)
      && (p.err.None? && p.persist && !p.repeatable && applied.Err? ==> q == p.(err := Some(applied.error)))
      && (p.err.None? && p.persist && !p.repeatable && applied == Ok(true) ==> q == p.(skip := DUPLICATE))
  {
    plans := planned;
    for i := 0 to |plans|
      invariant |plans| == |planned|
      invariant forall k | 0 <= k < i :: plans[k] == Checked(h, pod, planned[k])
      invariant forall k | i <= k < |plans| :: plans[k] == planned[k]
    {
      var p := plans[i];
      if p.err.Some? || !p.persist || p.repeatable {
        continue;
      }
      match h.appliedSince(pod, p.action) {
        case Err(e) => plans := plans[i := p.(err := Some(e))];
        case Ok(applied) =>
          if applied {
            plans := plans[i := p.(skip := DUPLICATE)];
          }
      }
    }
  }

  /** The report with one more action in it. */
  function With(result: PodResult, r: ActionResult): PodResult {
    match r.status
    case Skipped => result.(actionResults := result.actionResults + [r], skipped := result.skipped + 1)
    case Failed => result.(actionResults := result.actionResults + [r], failures := result.failures + 1,
                           errorList := result.errorList + [ErrorEntry(r.pod, r.driver, r.error)])
    case Succeeded => result.(actionResults := result.actionResults + [r], successes := result.successes + 1)
  }

  lemma WithStaysBalanced(result: PodResult, r: ActionResult)
    requires Balanced(result)
    ensures Balanced(With(result, r))
    ensures With(result, r).actionResults == result.actionResults + [r] && With(result, r).index == result.index
  {
    CountSnoc(result.actionResults, r, Succeeded);
    CountSnoc(result.actionResults, r, Failed);
    CountSnoc(result.actionResults, r, Skipped);
  }

  lemma CountSnoc(rs: seq<ActionResult>, r: ActionResult, s: Status)
    ensures Count(rs + [r], s) == Count(rs, s) + if r.status == s then 1 else 0
    ensures ErrorsOf(rs + [r]) == ErrorsOf(rs) + if r.status == Failed then [ErrorEntry(r.pod, r.driver, r.error)] else []
  {
    assert (rs + [r])[..|rs|] == rs;
  }

  method FailEvery(index: nat, cfg: PodConfig, error: string) returns (result: PodResult)
    ensures result.index == index && Balanced(result)
    ensures result.actionResults == seq(|cfg.actions|, i requires 0 <= i < |cfg.actions| => Unresolved(cfg.pod, error, cfg.actions[i]))
  {
    result := PodResult(index, [], [], 0, 0, 0);
    for i := 0 to |cfg.actions|
      invariant result.index == index && Balanced(result)
      invariant |result.actionResults| == i
      invariant forall k | 0 <= k < i :: result.actionResults[k] == Unresolved(cfg.pod, error, cfg.actions[k])
    {
      WithStaysBalanced(result, Unresolved(cfg.pod, error, cfg.actions[i]));
      result := result.(errorList := result.errorList + [ErrorEntry(cfg.pod, "unknown", error)]);
      result := result.(actionResults := result.actionResults + [Unresolved(cfg.pod, error, cfg.actions[i])]);
      result := result.(failures := result.failures + 1);
    }
  }

  function Fail(result: PodResult, ref: string, pod: string, driver: string, p: Plan, error: string, commands: seq<string>): PodResult {
    result.(errorList := result.errorList + [ErrorEntry(ref, driver, error)],
            actionResults := result.actionResults + [ActionResult(ref, pod, driver, p.action.typ, Failed, commands, "", error)],
            failures := result.failures + 1)
  }

  /** One turn of the loop over the plans: the switch. */
  method ReportAction(ref: string, pod: string, driver: string, p: Plan, o: Outcome, saveErr: Option<string>,
                      history: History, before: PodResult) returns (result: PodResult)
    modifies history
    ensures var r := ResultOf(ref, pod, driver, p, o, saveErr);
      && result == With(before, r)
      && history.saved == old(history.saved) + if r.status == Succeeded && p.persist then [(pod, p.action)] else []
  {
    if p.skip != "" {
      result := before.(skipped := before.skipped + 1,
        actionResults := before.actionResults + [ActionResult(ref, pod, driver, p.action.typ, Skipped, [], "", p.skip)]);
    } else if p.err.Some? {
      result := Fail(before, ref, pod, driver, p, p.err.value, []);
    } else if o.err.Some? {
      result := Fail(before, ref, pod, driver, p, o.err.value, p.commands);
    } else {
      if p.persist {
        if saveErr.Some? {
          result := Fail(before, ref, pod, driver, p, NOT_PERSISTED + saveErr.value, p.commands);
          return;
        }
        history.saved := history.saved + [(pod, p.action)];
      }
      result := before.(successes := before.successes + 1,
        actionResults := before.actionResults + [ActionResult(ref, pod, driver, p.action.typ, Succeeded, p.commands, o.output, "")]);
    }
  }

  lemma PersistedSnoc(pod: string, ran: seq<(Plan, Outcome)>, rs: seq<ActionResult>, x: (Plan, Outcome), r: ActionResult)
    requires |ran| == |rs|
    ensures Persisted(pod, ran + [x], rs + [r]) ==
            Persisted(pod, ran, rs) + if r.status == Succeeded && x.0.persist then [(pod, x.0.action)] else []
  {
    assert (ran + [x])[..|ran|] == ran && (rs + [r])[..|rs|] == rs;
  }

  method ReportAll(index: nat, ref: string, pod: string, driver: string, ran: seq<(Plan, Outcome)>,
                   saves: seq<Option<string>>, history: History)
    returns (result: PodResult)
    requires |saves| == |ran|
    modifies history
    ensures result.index == index && Balanced(result)
    ensures |result.actionResults| == |ran|
    ensures forall i | 0 <= i < |ran| ::
      result.actionResults[i] == ResultOf(ref, pod, driver, ran[i].0, ran[i].1, saves[i])
    ensures history.saved == old(history.saved) + Persisted(pod, ran, result.actionResults)
  {
    result := PodResult(index, [], [], 0, 0, 0);
    for i := 0 to |ran|
      invariant result.index == index && Balanced(result)
      invariant |result.actionResults| == i
      invariant forall k | 0 <= k < i ::
        result.actionResults[k] == ResultOf(ref, pod, driver, ran[k].0, ran[k].1, saves[k])
      invariant history.saved == old(history.saved) + Persisted(pod, ran[..i], result.actionResults)
    {
      ghost var before := result;
      ghost var r := ResultOf(ref, pod, driver, ran[i].0, ran[i].1, saves[i]);
      result := ReportAction(ref, pod, driver, ran[i].0, ran[i].1, saves[i], history, result);
      WithStaysBalanced(before, r);
      PersistedSnoc(pod, ran[..i], before.actionResults, ran[i], r);
      assert ran[..i + 1] == ran[..i] + [ran[i]];
    }
    assert ran[..|ran|] == ran;
  }

  method ProcessPod(h: Helpers, index: nat, cfg: PodConfig, history: History) returns (result: PodResult)
    requires OneToOne(h, cfg)
    modifies history
    ensures result == ReportOf(h, index, cfg)
    ensures match h.resolve(cfg.pod)
      case Err(_) => history.saved == old(history.saved)
      case Ok(pod) =>
        && |RanOf(h, pod, cfg.actions)| == |result.actionResults|
        && history.saved == old(history.saved) + Persisted(pod, RanOf(h, pod, cfg.actions), result.actionResults)
  {
    match h.resolve(cfg.pod) {
      case Err(e) =>
        result := FailEvery(index, cfg, e);
      case Ok(pod) =>
        var plans := MarkDuplicates(h, pod, h.plan(pod, cfg.actions));
        var ran := h.run(pod, plans);
        var saves := seq(|ran|, i requires 0 <= i < |ran| => h.save(pod, i, ran[i].0.action));
        result := ReportAll(index, cfg.pod, pod, h.driverType(pod), ran, saves, history);
    }
    assert result.actionResults == ResultsOf(h, cfg);
  }

  /** What a caller may rely on in any pod's report: one result per action in
      order, every action counted once, one error per failure. */
  lemma ReportAccountsForEveryAction(h: Helpers, index: nat, cfg: PodConfig)
    requires OneToOne(h, cfg)
    ensures var r := ReportOf(h, index, cfg);
      && Balanced(r) && r.index == index
      && |r.actionResults| == |cfg.actions|
      && (forall i | 0 <= i < |cfg.actions| :: r.actionResults[i].action == cfg.actions[i].typ && r.actionResults[i].pod == cfg.pod)
      && r.successes + r.failures + r.skipped == |cfg.actions|
      && |r.errorList| == r.failures
  {
    EveryResultCounted(ResultsOf(h, cfg));
    if h.resolve(cfg.pod).Ok? {
      var pod := h.resolve(cfg.pod).value;
      forall i | 0 <= i < |cfg.actions| ensures ResultsOf(h, cfg)[i].action == cfg.actions[i].typ && ResultsOf(h, cfg)[i].pod == cfg.pod {
        var ran := RanOf(h, pod, cfg.actions);
        assert SameButError(ran[i].0, Checked(h, pod, h.plan(pod, cfg.actions)[i]));
        assert ResultsOf(h, cfg)[i] == ResultOf(cfg.pod, pod, h.driverType(pod), ran[i].0, ran[i].1, h.save(pod, i, ran[i].0.action));
      }
    }
  }

  /** What is reported of an action, from the plan that was run, its outcome and the
      answer to saving it.  A skipped action carries the reason; one with an error in
      the plan, in the outcome or in saving has failed with the first of these; any
      other has succeeded, with its commands and output. */
  lemma EachActionReported(h: Helpers, index: nat, cfg: PodConfig, pod: string, i: nat)
    requires OneToOne(h, cfg) && h.resolve(cfg.pod) == Ok(pod) && i < |cfg.actions|
    ensures |ReportOf(h, index, cfg).actionResults| == |RanOf(h, pod, cfg.actions)| == |cfg.actions|
    ensures var r := ReportOf(h, index, cfg).actionResults[i];
      var (p, o) := RanOf(h, pod, cfg.actions)[i];
      var saveErr := h.save(pod, i, cfg.actions[i]);
      && r.pod == cfg.pod && r.resolvedPod == pod && r.driver == h.driverType(pod) && r.action == cfg.actions[i].typ
      && (p.skip != "" ==> r.status == Skipped && r.error == p.skip && r.commands == [] && r.output == "")
      && (p.skip == "" && p.err.Some? ==> r.status == Failed && r.error == p.err.value && r.commands == [] && r.output == "")
      && (p.skip == "" && p.err.None? && o.err.Some? ==>
            r.status == Failed && r.error == o.err.value && r.commands == p.commands && r.output == "")
      && (p.skip == "" && p.err.None? && o.err.None? && p.persist && saveErr.Some? ==>
            && r.status == Failed && r.commands == p.commands && r.output == ""
            && r.error == "operation executed but could not persist history: " + saveErr.value)
      && (p.skip == "" && p.err.None? && o.err.None? && !(p.persist && saveErr.Some?) ==>
            r.status == Succeeded && r.error == "" && r.commands == p.commands && r.output == o.output)
  {
    ReportAccountsForEveryAction(h, index, cfg);
    var plan := h.plan(pod, cfg.actions)[i];
    var ran := RanOf(h, pod, cfg.actions);
    assert SameButError(ran[i].0, Checked(h, pod, plan));
    assert ResultsOf(h, cfg)[i] == ResultOf(cfg.pod, pod, h.driverType(pod), ran[i].0, ran[i].1, h.save(pod, i, ran[i].0.action));
  }

  /** Running keeps the errors plans already have. */
  ghost predicate KeepsErrors(h: Helpers, pod: string) {
    forall plans: seq<Plan>, i | |h.run(pod, plans)| == |plans| && 0 <= i < |plans| && plans[i].err.Some? ::
      h.run(pod, plans)[i].0.err == plans[i].err
  }

  /** An action that cannot be planned fails with the reason; one that can, and is to be
      checked against the history, fails with the error of the check, and is skipped as
      a duplicate when it is already there. */
  lemma CheckIsReported(h: Helpers, index: nat, cfg: PodConfig, pod: string, i: nat)
    requires OneToOne(h, cfg) && h.resolve(cfg.pod) == Ok(pod) && i < |cfg.actions|
    requires KeepsErrors(h, pod) && h.plan(pod, cfg.actions)[i].skip == ""
    ensures |ReportOf(h, index, cfg).actionResults| == |cfg.actions|
    ensures var r := ReportOf(h, index, cfg).actionResults[i];
      var p := h.plan(pod, cfg.actions)[i];
      var applied := h.appliedSince(pod, cfg.actions[i]);
      && (p.err.Some? ==> r.status == Failed && r.error == p.err.value)
      && (p.err.None? && p.persist && !p.repeatable && applied.Err? ==> r.status == Failed && r.error == applied.error)
      && (p.err.None? && p.persist && !p.repeatable && applied == Ok(true) ==>
            r.status == Skipped && r.error == "duplicate operation: already applied to this pod with the same payload")
  {
    EachActionReported(h, index, cfg, pod, i);
    var plans := h.plan(pod, cfg.actions);
    var checked := seq(|plans|, k requires 0 <= k < |plans| => Checked(h, pod, plans[k]));
    assert RanOf(h, pod, cfg.actions) == h.run(pod, checked);
    assert SameButError(RanOf(h, pod, cfg.actions)[i].0, Checked(h, pod, plans[i]));
    assert checked[i] == Checked(h, pod, plans[i]);
  }

  /** A pod reference that does not resolve: every action failed with the reason. */
  lemma UnresolvedIsReported(h: Helpers, index: nat, cfg: PodConfig, e: string)
    requires h.resolve(cfg.pod) == Err(e)
    ensures var r := ReportOf(h, index, cfg);
      && |r.actionResults| == |r.errorList| == r.failures == |cfg.actions|
      && forall i | 0 <= i < |cfg.actions| ::
           && r.actionResults[i] == ActionResult(cfg.pod, "", "unknown", cfg.actions[i].typ, Failed, [], "", e)
           && r.errorList[i] == ErrorEntry(cfg.pod, "unknown", e)
  {
    var rs := ResultsOf(h, cfg);
    AllFailed(rs);
    forall i | 0 <= i < |rs| ensures ErrorsOf(rs)[i] == ErrorEntry(cfg.pod, "unknown", e) {
      ErrorsInOrder(rs, i);
      AllFailed(rs[..i]);
    }
  }

  lemma {:induction false} AllFailed(rs: seq<ActionResult>)
    requires forall i | 0 <= i < |rs| :: rs[i].status == Failed
    ensures Count(rs, Failed) == |rs| == |ErrorsOf(rs)|
  {
    if rs != [] {
      AllFailed(rs[..|rs| - 1]);
    }
  }

  /** An action is skipped exactly when it plans, persists, is not repeatable and
      its payload is already applied; a repeatable action is never skipped. */
  lemma SkippedExactlyDuplicates(h: Helpers, index: nat, cfg: PodConfig, pod: string, i: nat)
    requires OneToOne(h, cfg) && h.resolve(cfg.pod) == Ok(pod) && i < |cfg.actions|
    requires forall k | 0 <= k < |cfg.actions| :: h.plan(pod, cfg.actions)[k].skip == ""
    ensures |ReportOf(h, index, cfg).actionResults| == |cfg.actions|
    ensures ReportOf(h, index, cfg).actionResults[i].status == Skipped <==>
            var p := h.plan(pod, cfg.actions)[i];
            p.err.None? && p.persist && !p.repeatable && h.appliedSince(pod, cfg.actions[i]) == Ok(true)
  {
    ReportAccountsForEveryAction(h, index, cfg);
    var plan := h.plan(pod, cfg.actions)[i];
    var ran := RanOf(h, pod, cfg.actions);
    assert SameButError(ran[i].0, Checked(h, pod, plan));
    assert ResultsOf(h, cfg)[i] == ResultOf(cfg.pod, pod, h.driverType(pod), ran[i].0, ran[i].1, h.save(pod, i, ran[i].0.action));
  }

  /** The history entry at any place is a persistable action reported as success,
      and every such action is there: membership both ways. */
  lemma {:induction false} PersistedExactlySuccesses(pod: string, ran: seq<(Plan, Outcome)>, rs: seq<ActionResult>, a: ActionEntry)
    requires |ran| == |rs|
    ensures (pod, a) in Persisted(pod, ran, rs) <==>
            exists i | 0 <= i < |rs| :: rs[i].status == Succeeded && ran[i].0.persist && ran[i].0.action == a
    ensures |Persisted(pod, ran, rs)| <= Count(rs, Succeeded)
  {
    if rs != [] {
      var last := |rs| - 1;
      PersistedExactlySuccesses(pod, ran[..last], rs[..last], a);
      assert forall i | 0 <= i < last :: rs[..last][i] == rs[i] && ran[..last][i] == ran[i];
    }
  }

  /** Each action saved stands in the history after those saved before it. */
  lemma {:induction false} PersistedInOrder(pod: string, ran: seq<(Plan, Outcome)>, rs: seq<ActionResult>, i: nat)
    requires i < |ran| == |rs| && rs[i].status == Succeeded && ran[i].0.persist
    ensures var before := |Persisted(pod, ran[..i], rs[..i])|;
      before < |Persisted(pod, ran, rs)| && Persisted(pod, ran, rs)[before] == (pod, ran[i].0.action)
  {
    var last := |rs| - 1;
    if i < last {
      assert rs[..last][..i] == rs[..i] && ran[..last][..i] == ran[..i];
      PersistedInOrder(pod, ran[..last], rs[..last], i);
    }
  }

  // ------------------------------------------------------------ the request

  datatype Response = Response(success: bool, successes: nat, failures: nat, skipped: nat,
                               errors: seq<ErrorEntry>, actionResults: seq<ActionResult>)

  /** The number of actions of the first n targets. */
  function ActionsBefore(targets: seq<PodConfig>, n: nat): nat
    requires n <= |targets|
  {
    if n == 0 then 0 else ActionsBefore(targets, n - 1) + |targets[n - 1].actions|
  }

  /** The part stands in the whole from a place on. */
  predicate StandsAt(all: seq<ActionResult>, at: nat, part: seq<ActionResult>) {
    at + |part| <= |all| && all[at..at + |part|] == part
  }

  predicate NoFailure(rs: seq<ActionResult>) { forall i | 0 <= i < |rs| :: rs[i].status != Failed }

  lemma {:induction false} NoFailureCounted(rs: seq<ActionResult>)
    ensures NoFailure(rs) <==> Count(rs, Failed) == 0
  {
    if rs != [] {
      var last := |rs| - 1;
      NoFailureCounted(rs[..last]);
      assert NoFailure(rs) <==> NoFailure(rs[..last]) && rs[last].status != Failed;
    }
  }

  /** Every report stands in the concatenation after the reports before it. */
  lemma {:induction false} AllResultsInPlace(h: Helpers, targets: seq<PodConfig>, n: nat)
    requires n <= |targets| && forall i | 0 <= i < |targets| :: OneToOne(h, targets[i])
    ensures var reports := seq(n, i requires 0 <= i < n => ReportOf(h, i, targets[i])); var all := AllResults(reports);
      && |all| == ActionsBefore(targets, n)
      && (forall i | 0 <= i < n :: StandsAt(all, ActionsBefore(targets, i), ReportOf(h, i, targets[i]).actionResults))
      && (NoFailure(all) <==> forall i | 0 <= i < n :: NoFailure(ReportOf(h, i, targets[i]).actionResults))
  {
    if n > 0 {
      var reports := seq(n, i requires 0 <= i < n => ReportOf(h, i, targets[i]));
      var last := ReportOf(h, n - 1, targets[n - 1]);
      assert reports[..n - 1] == seq(n - 1, i requires 0 <= i < n - 1 => ReportOf(h, i, targets[i]));
      AllResultsInPlace(h, targets, n - 1);
      ReportAccountsForEveryAction(h, n - 1, targets[n - 1]);
      var before := AllResults(reports[..n - 1]);
      assert AllResults(reports) == before + last.actionResults;
      forall i | 0 <= i < n - 1
        ensures StandsAt(before + last.actionResults, ActionsBefore(targets, i), ReportOf(h, i, targets[i]).actionResults)
      {
        StandsOn(before, last.actionResults, ActionsBefore(targets, i), ReportOf(h, i, targets[i]).actionResults);
      }
      StandsLast(before, last.actionResults);
      NoFailureConcat(before, last.actionResults);
    }
  }

  lemma StandsOn(all: seq<ActionResult>, more: seq<ActionResult>, at: nat, part: seq<ActionResult>)
    requires StandsAt(all, at, part)
    ensures StandsAt(all + more, at, part)
  {
    assert (all + more)[at..at + |part|] == all[at..at + |part|];
  }

  lemma StandsLast(all: seq<ActionResult>, more: seq<ActionResult>)
    ensures StandsAt(all + more, |all|, more)
  {
  }

  lemma NoFailureConcat(a: seq<ActionResult>, b: seq<ActionResult>)
    ensures NoFailure(a + b) <==> NoFailure(a) && NoFailure(b)
  {
    assert forall i | 0 <= i < |a| :: (a + b)[i] == a[i];
    assert forall i | 0 <= i < |b| :: (a + b)[|a| + i] == b[i];
  }

  function AllResults(rs: seq<PodResult>): seq<ActionResult> {
    if rs == [] then [] else AllResults(rs[..|rs| - 1]) + rs[|rs| - 1].actionResults
  }

  /** ConfigureNetwork from the pool on: mtuError is the MTU pass's error, None
      when the pass succeeds or no link asked for an MTU. */
  method ConfigureNetwork(h: Helpers, targets: seq<PodConfig>, numCPU: int, pick: nat -> nat, mtuError: Option<string>)
    returns (response: Response)
    requires forall i | 0 <= i < |targets| :: OneToOne(h, targets[i])
    ensures |response.actionResults| == ActionsBefore(targets, |targets|)
    ensures forall i | 0 <= i < |targets| ::
      StandsAt(response.actionResults, ActionsBefore(targets, i), ReportOf(h, i, targets[i]).actionResults)
    ensures response.success <==> mtuError.None? && forall i | 0 <= i < |targets| :: NoFailure(ReportOf(h, i, targets[i]).actionResults)
    ensures response.actionResults == AllResults(seq(|targets|, i requires 0 <= i < |targets| => ReportOf(h, i, targets[i])))
    ensures response.successes == Count(response.actionResults, Succeeded)
    ensures response.skipped == Count(response.actionResults, Skipped)
    ensures response.failures == Count(response.actionResults, Failed) + if mtuError.Some? then 1 else 0
    ensures response.errors == ErrorsOf(response.actionResults) + if mtuError.Some? then [ErrorEntry("", "", mtuError.value)] else []
    ensures response.success <==> response.failures == 0
  {
    var slots := WorkerPool.RunPool(targets, numCPU, (i: nat, cfg: PodConfig) => ReportOf(h, i, cfg), pick);
    ghost var reports := seq(|targets|, i requires 0 <= i < |targets| => ReportOf(h, i, targets[i]));
    var total := Aggregate(slots, reports);
    NoFailureCounted(total.actionResults);
    AllResultsInPlace(h, targets, |targets|);
    var errors, failures := total.errorList, total.failures;
    if mtuError.Some? {
      errors := errors + [ErrorEntry("", "", mtuError.value)];
      failures := failures + 1;
    }
    EveryResultCounted(total.actionResults);
    response := Response(|errors| == 0, total.successes, failures, total.skipped, errors, total.actionResults);
  }

  /** The loop over the slots. */
  method Aggregate(slots: seq<Option<PodResult>>, ghost reports: seq<PodResult>) returns (total: PodResult)
    requires |slots| == |reports| && forall i | 0 <= i < |slots| :: slots[i] == Some(reports[i]) && Balanced(reports[i])
    ensures total.actionResults == AllResults(reports) && Balanced(total)
  {
    var errors, results := [], [];
    var successes: nat, failures: nat, skipped: nat := 0, 0, 0;
    for i := 0 to |slots|
      invariant results == AllResults(reports[..i])
      invariant Balanced(PodResult(0, errors, results, successes, failures, skipped))
    {
      var result := slots[i].value;
      assert Balanced(reports[i]);
      CountConcat(results, result.actionResults, Succeeded);
      CountConcat(results, result.actionResults, Failed);
      CountConcat(results, result.actionResults, Skipped);
      errors := errors + result.errorList;
      results := results + result.actionResults;
      successes := successes + result.successes;
      failures := failures + result.failures;
      skipped := skipped + result.skipped;
      assert reports[..i + 1][..i] == reports[..i];
    }
    assert reports[..|slots|] == reports;
    total := PodResult(0, errors, results, successes, failures, skipped);
  }
}
