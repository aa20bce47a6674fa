/** When each goal command succeeds after any run, what it then leaves in the files, and what only a reconciled completion
    can bring about. */
module GoalOutcomes {
  import opened Wrappers
  import opened Text
  import opened GoalWorkflow
  import opened GoalRuns

  lemma {:induction false} RunSnoc(f: Files, commands: seq<Command>, c: Command)
    ensures Run(f, commands + [c]) == Apply(Run(f, commands), c)
    decreases |commands|
  {
    if commands == [] {
      assert [] + [c] == [c] && [c][1..] == [];
      assert Run(Apply(f, c), []) == Apply(f, c);
    } else {
      assert (commands + [c])[1..] == commands[1..] + [c];
      RunSnoc(Apply(f, commands[0]), commands[1..], c);
    }
  }

  /** A given text that is not blank, without the blanks around it. */
  function Given(o: Option<string>, otherwise: Option<string>): Option<string> {
    match o
    case None => otherwise
    case Some(text) => if forall c :: c in text ==> IsSpace(c) then otherwise else Some(Trim(text))
  }

  lemma {:induction false} BlankIff(s: string)
    ensures Trim(s) == "" <==> forall c :: c in s ==> IsSpace(c)
  {
    var a, b := TrimSplits(s);
    if forall c :: c in s ==> IsSpace(c) {
      assert "" + s + "" == s && s + "" == s;
      TrimBetween(s, "", "");
    }
  }

  /** After any run, creating succeeds exactly when topic and rubric are not blank and either nothing is there or it is
      forced. It starts the ledger and the rubric file anew, and leaves the completion file where it was. */
  lemma {:induction false} CreateIff(commands: seq<Command>, topic: string, rubric: string, critic: Option<string>, force: bool, now: Time)
    ensures var f, c := Run(NO_FILES, commands), DoCreate(topic, rubric, critic, force, now);
            var g := Run(NO_FILES, commands + [c]);
            if Blank(topic) then Outcome(f, c) == Err(MissingTopic) && g == f
            else if Blank(rubric) then Outcome(f, c) == Err(MissingRubric) && g == f
            else if f.mission.Some? && !force then Outcome(f, c) == Err(AlreadyExists) && g == f
            else
              && Outcome(f, c).Ok? && g.completion == f.completion && g.rubricFile == Trim(rubric) + "\n"
              && g.mission == Some(Mission(Trim(topic), Trim(rubric), Given(critic, None), Created, now, now, None))
              && g.ledger == [Entry(now, WorkflowCreated, Created, None, None)]
  {
    RunSnoc(NO_FILES, commands, DoCreate(topic, rubric, critic, force, now));
    BlankIff(topic);
    BlankIff(rubric);
    if critic.Some? { BlankIff(critic.value); }
  }

  /** After any run, a handoff succeeds exactly when a mission is there; it starts a goal that was just created, changes
      no other, and is logged with the status it left. */
  lemma {:induction false} HandoffIff(commands: seq<Command>, now: Time)
    ensures var f, c := Run(NO_FILES, commands), DoHandoff(now);
            var g := Run(NO_FILES, commands + [c]);
            if f.mission.None? then Outcome(f, c) == Err(NoMission) && g == f
            else
              && Outcome(f, c).Ok? && g.completion == f.completion && g.rubricFile == f.rubricFile && g.mission.Some?
              && var m, n := f.mission.value, g.mission.value;
                 && n == (if m.status == Created then m.(status := InProgress, updatedAt := now) else m)
                 && g.ledger == f.ledger + [Entry(now, HandoffEmitted, n.status, None, None)]
  {
    RunSnoc(NO_FILES, commands, DoHandoff(now));
  }

  /** After any run, a verdict is recorded exactly when a mission is there, it is not complete, and there is evidence. The
      summary falls back to the evidence; the ledger gets the artifact path as it was given. */
  lemma {:induction false} VerdictIff(commands: seq<Command>, v: Verdict, evidence: string, summary: Option<string>, artifact: Option<string>, now: Time)
    ensures var f, c := Run(NO_FILES, commands), DoVerdict(v, evidence, summary, artifact, now);
            var g := Run(NO_FILES, commands + [c]);
            if f.mission.None? then Outcome(f, c) == Err(NoMission) && g == f
            else if f.mission.value.status == Complete then Outcome(f, c) == Err(AlreadyComplete) && g == f
            else if Blank(evidence) then Outcome(f, c) == Err(MissingEvidence) && g == f
            else
              var status := match v case Pass => Passed case Fail => Failed case Block => Blocked;
              var event := match v case Pass => ValidationPassed case Fail => ValidationFailed case Block => ValidationBlocked;
              && Outcome(f, c).Ok? && g.rubricFile == f.rubricFile
              && g.mission == Some(f.mission.value.(status := status, updatedAt := now))
              && g.completion.Some?
              && g.completion.value == Completion(v, v == Pass, Given(summary, Some(Trim(evidence))).value, Trim(evidence),
                                                  Given(artifact, None), f.mission.value.criticCommand, now)
              && g.ledger == f.ledger + [Entry(now, event, status, Some(Trim(evidence)), artifact)]
  {
    RunSnoc(NO_FILES, commands, DoVerdict(v, evidence, summary, artifact, now));
    BlankIff(evidence);
    if summary.Some? { BlankIff(summary.value); }
    if artifact.Some? { BlankIff(artifact.value); }
  }

  /** After any run, completing succeeds exactly when a mission is there, the stored verdict is a pass, and the Codex goal
      snapshot agrees. */
  lemma {:induction false} CompleteIff(commands: seq<Command>, reconciled: bool, now: Time)
    ensures var f, c := Run(NO_FILES, commands), DoComplete(reconciled, now);
            var g := Run(NO_FILES, commands + [c]);
            if f.mission.None? then Outcome(f, c) == Err(NoMission) && g == f
            else if f.completion.None? || f.completion.value.verdict != Pass then Outcome(f, c) == Err(NotValidated) && g == f
            else if !reconciled then Outcome(f, c) == Err(NotReconciled) && g == f
            else
              && Outcome(f, c).Ok? && g.completion == f.completion && g.rubricFile == f.rubricFile
              && g.mission == Some(f.mission.value.(status := Complete, updatedAt := now, completedAt := Some(now)))
              && g.ledger == f.ledger + [Entry(now, GoalCompleted, Complete, Some(f.completion.value.evidence), f.completion.value.artifactPath)]
  {
    RunSnoc(NO_FILES, commands, DoComplete(reconciled, now));
    RunKeeps(NO_FILES, commands);
  }

  predicate NeverReconciled(commands: seq<Command>) {
    forall k :: 0 <= k < |commands| ==> !(commands[k].DoComplete? && commands[k].reconciled)
  }

  predicate Unfinished(f: Files) {
    && (f.mission.Some? ==> f.mission.value.status != Complete && f.mission.value.completedAt.None?)
    && forall k :: 0 <= k < |f.ledger| ==> f.ledger[k].event != GoalCompleted
  }

  lemma {:induction false} UnfinishedRun(f: Files, commands: seq<Command>)
    requires Unfinished(f) && NeverReconciled(commands)
    ensures Unfinished(Run(f, commands))
    decreases |commands|
  {
    if commands != [] {
      forall k | 0 <= k < |commands[1..]| ensures !(commands[1..][k].DoComplete? && commands[1..][k].reconciled) {
        assert commands[1..][k] == commands[k + 1];
      }
      UnfinishedRun(Apply(f, commands[0]), commands[1..]);
    }
  }

  /** Without a snapshot that agrees no goal is ever complete, and no completion is ever logged. */
  lemma {:induction false} OnlyReconciledCompletes(commands: seq<Command>)
    requires NeverReconciled(commands)
    ensures var f := Run(NO_FILES, commands);
            && (f.mission.Some? ==> f.mission.value.status != Complete)
            && forall k :: 0 <= k < |f.ledger| ==> f.ledger[k].event != GoalCompleted
  {
    UnfinishedRun(NO_FILES, commands);
  }
}
