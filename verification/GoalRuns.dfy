/** What every run of the goal commands keeps: the mission, the completion and the ledger tell one story. */
module GoalRuns {
  import opened Wrappers
  import opened Text
  import opened GoalWorkflow

  datatype Command =
    | DoCreate(topic: string, rubric: string, critic: Option<string>, force: bool, now: Time)
    | DoHandoff(now: Time)
    | DoVerdict(verdict: Verdict, evidence: string, summary: Option<string>, artifact: Option<string>, now: Time)
    | DoComplete(reconciled: bool, now: Time)

  function Outcome(f: Files, c: Command): Result<Files, Error> {
    match c
    case DoCreate(topic, rubric, critic, force, now) => Create(f, topic, rubric, critic, force, now)
    case DoHandoff(now) => Handoff(f, now)
    case DoVerdict(v, evidence, summary, artifact, now) => Record(f, v, evidence, summary, artifact, now)
    case DoComplete(reconciled, now) => Finish(f, reconciled, now)
  }

  /** A refused command leaves every file as it was. */
  function Apply(f: Files, c: Command): Files {
    var r := Outcome(f, c);
    if r.Ok? then r.value else f
  }

  function Run(f: Files, commands: seq<Command>): Files
    decreases |commands|
  {
    if commands == [] then f else Run(Apply(f, commands[0]), commands[1..])
  }

  // ----- reading the ledger

  predicate IsValidation(k: EventKind) {
    k == ValidationPassed || k == ValidationFailed || k == ValidationBlocked
  }

  /** The latest validation event, if there is one. */
  function Latest(ledger: seq<Entry>): (r: Option<Entry>)
    ensures r.Some? <==> exists i :: 0 <= i < |ledger| && IsValidation(ledger[i].event)
    ensures r.Some? ==> r.value in ledger && IsValidation(r.value.event)
  {
    if ledger == [] then None
    else
      var n := |ledger| - 1;
      if IsValidation(ledger[n].event) then Some(ledger[n])
      else
        assert forall i :: 0 <= i < n ==> ledger[..n][i] == ledger[i];
        Latest(ledger[..n])
  }

  function Moved(status: Status, k: EventKind): Status {
    match k
    case WorkflowCreated => Created
    case HandoffEmitted => if status == Created then InProgress else status
    case ValidationPassed => Passed
    case ValidationFailed => Failed
    case ValidationBlocked => Blocked
    case GoalCompleted => Complete
  }

  /** The mission status as the kinds of the ledger's events alone tell it. */
  function Replay(ledger: seq<Entry>): Status {
    if ledger == [] then Created
    else
      var n := |ledger| - 1;
      Moved(Replay(ledger[..n]), ledger[n].event)
  }

  /** Entry k is a completion that the latest validation before it vouches for. */
  predicate Vouched(ledger: seq<Entry>, k: nat)
    requires k < |ledger|
  {
    var v := Latest(ledger[..k]);
    v.Some? && v.value.event == ValidationPassed && v.value.evidence == ledger[k].evidence
  }

  predicate ValidatedBefore(ledger: seq<Entry>, k: nat)
    requires k < |ledger|
  {
    exists i :: 0 <= i < k && IsValidation(ledger[i].event)
  }

  // ----- the invariant

  /** The mission's status and the stored verdict agree. */
  predicate Agrees(f: Files) {
    && (f.completion.Some? ==> (f.completion.value.passed <==> f.completion.value.verdict == Pass))
    && (f.mission.Some? ==>
          var s := f.mission.value.status;
          && (s in {Passed, Failed, Blocked} ==> f.completion.Some? && s == StatusOf(f.completion.value.verdict))
          && (s == Complete ==> f.completion.Some? && f.completion.value.verdict == Pass))
  }

  /** The ledger tells the mission's status, and every entry carries the status it led to. */
  predicate Told(f: Files) {
    && (f.mission.None? ==> f.ledger == [])
    && (f.mission.Some? ==>
          && f.ledger != []
          && f.ledger[0].event == WorkflowCreated && f.ledger[0].ts == f.mission.value.createdAt
          && f.mission.value.status == Replay(f.ledger))
    && (forall k :: 0 < k < |f.ledger| ==> f.ledger[k].event != WorkflowCreated)
    && (forall k :: 0 <= k < |f.ledger| ==> f.ledger[k].status == Replay(f.ledger[..k + 1]))
  }

  /** The stored verdict is the latest one in the ledger, when the ledger has one. */
  predicate Matches(f: Files) {
    var v := Latest(f.ledger);
    v.Some? ==>
      f.completion.Some? && v.value.event == EventOf(f.completion.value.verdict)
      && v.value.evidence == Some(f.completion.value.evidence)
  }

  predicate Completions(ledger: seq<Entry>) {
    forall k :: 0 <= k < |ledger| && ledger[k].event == GoalCompleted ==> (Vouched(ledger, k) <==> ValidatedBefore(ledger, k))
  }

  predicate Dated(f: Files) {
    && (f.mission.None? ==> f.completion.None?)
    && (f.mission.Some? ==>
          var m := f.mission.value;
          && m.completedAt == (if m.status == Complete then Some(m.updatedAt) else None)
          && f.rubricFile == m.rubric + "\n" && m.topic != "" && m.rubric != "")
  }

  predicate Inv(f: Files) {
    Agrees(f) && Told(f) && Matches(f) && Completions(f.ledger) && Dated(f)
  }

  lemma {:induction false} LatestAppend(ledger: seq<Entry>, e: Entry)
    ensures Latest(ledger + [e]) == if IsValidation(e.event) then Some(e) else Latest(ledger)
    ensures Replay(ledger + [e]) == Moved(Replay(ledger), e.event)
  {
    assert (ledger + [e])[..|ledger|] == ledger;
  }

  lemma {:induction false} ToldAppend(f: Files, g: Files, e: Entry)
    requires Told(f) && f.mission.Some? && g.mission.Some? && g.ledger == f.ledger + [e]
    requires g.mission.value.createdAt == f.mission.value.createdAt
    requires e.event != WorkflowCreated && e.status == Moved(Replay(f.ledger), e.event) == g.mission.value.status
    ensures Told(g)
  {
    LatestAppend(f.ledger, e);
    forall k | 0 <= k < |g.ledger| ensures g.ledger[k].status == Replay(g.ledger[..k + 1]) {
      StatusTold(f.ledger, e, k);
    }
  }

  lemma {:induction false} StatusTold(ledger: seq<Entry>, e: Entry, k: nat)
    requires k <= |ledger| && (forall i :: 0 <= i < |ledger| ==> ledger[i].status == Replay(ledger[..i + 1]))
    requires e.status == Replay(ledger + [e])
    ensures (ledger + [e])[k].status == Replay((ledger + [e])[..k + 1])
  {
    var more := ledger + [e];
    if k < |ledger| {
      assert more[..k + 1] == ledger[..k + 1];
    } else {
      assert more[..k + 1] == more;
    }
  }

  lemma {:induction false} CompletionsAppend(ledger: seq<Entry>, e: Entry)
    requires Completions(ledger)
    requires e.event == GoalCompleted && Latest(ledger).Some? ==>
               Latest(ledger).value.event == ValidationPassed && Latest(ledger).value.evidence == e.evidence
    ensures Completions(ledger + [e])
  {
    var more, n := ledger + [e], |ledger|;
    forall k | 0 <= k < |more| && more[k].event == GoalCompleted ensures Vouched(more, k) <==> ValidatedBefore(more, k) {
      assert more[..k] == ledger[..k];
      if k < n {
        assert Vouched(ledger, k) <==> ValidatedBefore(ledger, k);
        assert forall i :: 0 <= i < k ==> more[i] == ledger[i];
      } else {
        assert ledger[..k] == ledger;
        assert forall i :: 0 <= i < n ==> more[i] == ledger[i];
      }
    }
  }

  lemma {:induction false} CreateKeeps(f: Files, topic: string, rubric: string, critic: Option<string>, force: bool, now: Time)
    requires Inv(f)
    ensures var r := Create(f, topic, rubric, critic, force, now); r.Ok? ==> Inv(r.value)
  {
    var r := Create(f, topic, rubric, critic, force, now);
    if r.Ok? {
      var e := Entry(now, WorkflowCreated, Created, None, None);
      assert [] + [e] == [e];
      LatestAppend([], e);
      assert [e][..1] == [e];
    }
  }

  lemma {:induction false} HandoffKeeps(f: Files, now: Time)
    requires Inv(f)
    ensures var r := Handoff(f, now); r.Ok? ==> Inv(r.value)
  {
    var r := Handoff(f, now);
    if r.Ok? {
      var e := r.value.ledger[|f.ledger|];
      LatestAppend(f.ledger, e);
      ToldAppend(f, r.value, e);
      CompletionsAppend(f.ledger, e);
    }
  }

  lemma {:induction false} RecordKeeps(f: Files, v: Verdict, evidence: string, summary: Option<string>, artifact: Option<string>, now: Time)
    requires Inv(f)
    ensures var r := Record(f, v, evidence, summary, artifact, now); r.Ok? ==> Inv(r.value)
  {
    var r := Record(f, v, evidence, summary, artifact, now);
    if r.Ok? {
      var e := r.value.ledger[|f.ledger|];
      LatestAppend(f.ledger, e);
      ToldAppend(f, r.value, e);
      CompletionsAppend(f.ledger, e);
    }
  }

  lemma {:induction false} FinishKeeps(f: Files, reconciled: bool, now: Time)
    requires Inv(f)
    ensures var r := Finish(f, reconciled, now); r.Ok? ==> Inv(r.value)
  {
    var r := Finish(f, reconciled, now);
    if r.Ok? {
      var e := r.value.ledger[|f.ledger|];
      LatestAppend(f.ledger, e);
      ToldAppend(f, r.value, e);
      CompletionsAppend(f.ledger, e);
    }
  }

  lemma {:induction false} StepKeeps(f: Files, c: Command)
    requires Inv(f)
    ensures Inv(Apply(f, c))
  {
    match c
    case DoCreate(topic, rubric, critic, force, now) => CreateKeeps(f, topic, rubric, critic, force, now);
    case DoHandoff(now) => HandoffKeeps(f, now);
    case DoVerdict(v, evidence, summary, artifact, now) => RecordKeeps(f, v, evidence, summary, artifact, now);
    case DoComplete(reconciled, now) => FinishKeeps(f, reconciled, now);
  }

  lemma {:induction false} RunKeeps(f: Files, commands: seq<Command>)
    requires Inv(f)
    ensures Inv(Run(f, commands))
    decreases |commands|
  {
    if commands != [] {
      StepKeeps(f, commands[0]);
      RunKeeps(Apply(f, commands[0]), commands[1..]);
    }
  }

  // ----- every run, forced recreation included

  /** In every run: the status agrees with the stored verdict, a complete goal has a stored pass, and the kinds of the
      ledger's events tell the status. */
  lemma {:induction false} StatusAgrees(commands: seq<Command>)
    ensures var f := Run(NO_FILES, commands);
            f.mission.Some? ==>
              var m := f.mission.value;
              && (m.status in {Passed, Failed, Blocked} ==> f.completion.Some? && m.status == StatusOf(f.completion.value.verdict))
              && (m.status == Complete ==> f.completion.Some? && f.completion.value.verdict == Pass && f.completion.value.passed)
              && (m.completedAt.Some? <==> m.status == Complete)
              && m.status == Replay(f.ledger)
              && f.ledger != [] && f.ledger[0].event == WorkflowCreated
  {
    RunKeeps(NO_FILES, commands);
  }

  /** In every run: a completion event in the ledger has a pass as its latest earlier validation, with the same
      evidence, exactly when the ledger shows any validation before it. */
  lemma {:induction false} CompletionVouchedIff(commands: seq<Command>, k: nat)
    requires k < |Run(NO_FILES, commands).ledger| && Run(NO_FILES, commands).ledger[k].event == GoalCompleted
    ensures var ledger := Run(NO_FILES, commands).ledger; Vouched(ledger, k) <==> ValidatedBefore(ledger, k)
  {
    RunKeeps(NO_FILES, commands);
  }

  // ----- runs that never recreate a goal

  /** The command does not recreate a goal that is there. */
  predicate Spares(f: Files, c: Command) {
    c.DoCreate? && c.force ==> f.mission.None?
  }

  predicate NeverRecreates(f: Files, commands: seq<Command>)
    decreases |commands|
  {
    commands == [] || (Spares(f, commands[0]) && NeverRecreates(Apply(f, commands[0]), commands[1..]))
  }

  /** The ledger holds a verdict as soon as one is stored, and vouches for all its completions. */
  predicate Fresh(f: Files) {
    && (f.completion.Some? ==> Latest(f.ledger).Some?)
    && (forall k :: 0 <= k < |f.ledger| && f.ledger[k].event == GoalCompleted ==> Vouched(f.ledger, k))
  }

  lemma {:induction false} AppendStays(ledger: seq<Entry>, e: Entry)
    requires forall k :: 0 <= k < |ledger| && ledger[k].event == GoalCompleted ==> Vouched(ledger, k)
    requires e.event == GoalCompleted ==>
               Latest(ledger).Some? && Latest(ledger).value.event == ValidationPassed && Latest(ledger).value.evidence == e.evidence
    ensures var more := ledger + [e];
            forall k :: 0 <= k < |more| && more[k].event == GoalCompleted ==> Vouched(more, k)
  {
    var more := ledger + [e];
    forall k | 0 <= k < |more| && more[k].event == GoalCompleted ensures Vouched(more, k) {
      assert more[..k] == ledger[..k];
      if k == |ledger| { assert ledger[..k] == ledger; } else { assert Vouched(ledger, k); }
    }
  }

  lemma {:induction false} FreshStep(f: Files, c: Command)
    requires Inv(f) && Fresh(f) && Spares(f, c)
    ensures Fresh(Apply(f, c)) && f.ledger <= Apply(f, c).ledger
  {
    var r := Outcome(f, c);
    if r.Ok? && !c.DoCreate? {
      var e := r.value.ledger[|f.ledger|];
      LatestAppend(f.ledger, e);
      AppendStays(f.ledger, e);
    }
  }

  lemma {:induction false} FreshRun(f: Files, commands: seq<Command>)
    requires Inv(f) && Fresh(f) && NeverRecreates(f, commands)
    ensures Fresh(Run(f, commands)) && f.ledger <= Run(f, commands).ledger
    decreases |commands|
  {
    if commands != [] {
      StepKeeps(f, commands[0]);
      FreshStep(f, commands[0]);
      FreshRun(Apply(f, commands[0]), commands[1..]);
    }
  }

  /** Unless a goal is recreated, every completion in the ledger is vouched for by the latest validation before it. */
  lemma {:induction false} CompletionsVouched(commands: seq<Command>, k: nat)
    requires NeverRecreates(NO_FILES, commands)
    requires k < |Run(NO_FILES, commands).ledger| && Run(NO_FILES, commands).ledger[k].event == GoalCompleted
    ensures Vouched(Run(NO_FILES, commands).ledger, k)
  {
    FreshRun(NO_FILES, commands);
  }

  lemma {:induction false} CompleteStep(f: Files, c: Command)
    requires Inv(f) && Spares(f, c) && f.mission.Some? && f.mission.value.status == Complete
    ensures var g := Apply(f, c);
            && g.mission.Some? && g.mission.value == f.mission.value.(updatedAt := g.mission.value.updatedAt, completedAt := g.mission.value.completedAt)
            && g.completion == f.completion && Latest(g.ledger) == Latest(f.ledger) && f.ledger <= g.ledger
            && (c.DoVerdict? ==> Outcome(f, c).Err? && g == f)
  {
    var r := Outcome(f, c);
    if r.Ok? {
      LatestAppend(f.ledger, r.value.ledger[|f.ledger|]);
    }
  }

  /** Unless it is recreated, a complete goal stays complete: its verdict is not replaced, later verdicts are refused
      and its ledger only grows. */
  lemma {:induction false} CompleteAbsorbs(f: Files, commands: seq<Command>)
    requires Inv(f) && f.mission.Some? && f.mission.value.status == Complete && NeverRecreates(f, commands)
    ensures var g := Run(f, commands);
            && g.mission.Some? && g.mission.value == f.mission.value.(updatedAt := g.mission.value.updatedAt, completedAt := g.mission.value.completedAt)
            && g.completion == f.completion && Latest(g.ledger) == Latest(f.ledger) && f.ledger <= g.ledger
    decreases |commands|
  {
    if commands != [] {
      StepKeeps(f, commands[0]);
      CompleteStep(f, commands[0]);
      CompleteAbsorbs(Apply(f, commands[0]), commands[1..]);
    }
  }

  // ----- forced recreation

  /** Recreating keeps the old completion file: completing at once succeeds exactly when the old verdict was a pass,
      and no validation in the ledger vouches for it. */
  lemma {:induction false} RecreatedCompletesIff(f: Files, topic: string, rubric: string, critic: Option<string>, now: Time, later: Time)
    requires Inv(f) && Create(f, topic, rubric, critic, true, now).Ok?
    ensures var r := Finish(Create(f, topic, rubric, critic, true, now).value, true, later);
            && (r.Ok? <==> f.completion.Some? && f.completion.value.verdict == Pass)
            && (r.Ok? ==>
                  && r.value.mission.Some? && r.value.mission.value.status == Complete && r.value.mission.value.topic == Trim(topic)
                  && |r.value.ledger| == 2 && r.value.ledger[1].event == GoalCompleted && Latest(r.value.ledger).None?)
  {
    var g := Create(f, topic, rubric, critic, true, now).value;
    var r := Finish(g, true, later);
    if r.Ok? {
      assert [] + [g.ledger[0]] == g.ledger && g.ledger + [r.value.ledger[1]] == r.value.ledger;
      LatestAppend([], g.ledger[0]);
      LatestAppend(g.ledger, r.value.ledger[1]);
    }
  }

  lemma {:induction false} RunFour(f: Files, c1: Command, c2: Command, c3: Command, c4: Command)
    ensures Run(f, [c1, c2, c3, c4]) == Apply(Apply(Apply(Apply(f, c1), c2), c3), c4)
  {
    assert [c1, c2, c3, c4][1..] == [c2, c3, c4] && [c2, c3, c4][1..] == [c3, c4] && [c3, c4][1..] == [c4];
    var f3 := Apply(Apply(Apply(f, c1), c2), c3);
    assert Run(f3, [c4]) == Apply(f3, c4);
    assert Run(Apply(Apply(f, c1), c2), [c3, c4]) == Run(f3, [c4]);
    assert Run(Apply(f, c1), [c2, c3, c4]) == Run(Apply(Apply(f, c1), c2), [c3, c4]);
  }

  lemma {:induction false} PassStored(topic: string, rubric: string, evidence: string, now: Time)
    requires Trim(topic) != "" && Trim(rubric) != "" && Trim(evidence) != ""
    ensures var f := Apply(Apply(NO_FILES, DoCreate(topic, rubric, None, false, now)), DoVerdict(Pass, evidence, None, None, now));
            Inv(f) && f.completion.Some? && f.completion.value.verdict == Pass
  {
    var create, judge := DoCreate(topic, rubric, None, false, now), DoVerdict(Pass, evidence, None, None, now);
    StepKeeps(NO_FILES, create);
    StepKeeps(Apply(NO_FILES, create), judge);
    assert Apply(NO_FILES, create).mission == Some(NewMission(topic, rubric, None, now));
  }

  lemma {:induction false} RecreateThenComplete(f: Files, topic: string, rubric: string, now: Time)
    requires Inv(f) && f.completion.Some? && f.completion.value.verdict == Pass && Trim(topic) != "" && Trim(rubric) != ""
    ensures var g := Apply(Apply(f, DoCreate(topic, rubric, None, true, now)), DoComplete(true, now));
            g.mission.Some? && g.mission.value.topic == Trim(topic) && g.mission.value.status == Complete && Latest(g.ledger).None?
  {
    RecreatedCompletesIff(f, topic, rubric, None, now, now);
  }

  /** Create, pass, recreate with other text, complete: the new goal is complete on the old goal's verdict. */
  lemma {:induction false} StalePassCompletes(topic: string, rubric: string, evidence: string, otherTopic: string, otherRubric: string, now: Time)
    requires Trim(topic) != "" && Trim(rubric) != "" && Trim(evidence) != "" && Trim(otherTopic) != "" && Trim(otherRubric) != ""
    ensures var f := Run(NO_FILES, [DoCreate(topic, rubric, None, false, now), DoVerdict(Pass, evidence, None, None, now),
                                    DoCreate(otherTopic, otherRubric, None, true, now), DoComplete(true, now)]);
            f.mission.Some? && f.mission.value.topic == Trim(otherTopic) && f.mission.value.status == Complete && Latest(f.ledger).None?
  {
    var c1, c2 := DoCreate(topic, rubric, None, false, now), DoVerdict(Pass, evidence, None, None, now);
    RunFour(NO_FILES, c1, c2, DoCreate(otherTopic, otherRubric, None, true, now), DoComplete(true, now));
    PassStored(topic, rubric, evidence, now);
    RecreateThenComplete(Apply(Apply(NO_FILES, c1), c2), otherTopic, otherRubric, now);
  }
}
