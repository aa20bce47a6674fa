/** The autoresearch goal: one mission file, its completion file, its ledger and its rubric. */
module GoalWorkflow {
  import opened Wrappers
  import opened Text

  type Time = string

  datatype Status = Created | InProgress | Passed | Failed | Blocked | Complete

  datatype Verdict = Pass | Fail | Block

  datatype EventKind =
    | WorkflowCreated
    | HandoffEmitted
    | ValidationPassed
    | ValidationFailed
    | ValidationBlocked
    | GoalCompleted

  datatype Mission = Mission(
    topic: string, rubric: string, criticCommand: Option<string>, status: Status,
    createdAt: Time, updatedAt: Time, completedAt: Option<Time>)

  datatype Completion = Completion(
    verdict: Verdict, passed: bool, summary: string, evidence: string,
    artifactPath: Option<string>, criticCommand: Option<string>, recordedAt: Time)

  datatype Entry = Entry(
    ts: Time, event: EventKind, status: Status, evidence: Option<string>, artifactPath: Option<string>)

  datatype Error =
    | MissingTopic
    | MissingRubric
    | AlreadyExists
    | NoMission
    | AlreadyComplete
    | MissingEvidence
    | NotValidated
    | NotReconciled

  /** The files of one slug. */
  datatype Files = Files(mission: Option<Mission>, completion: Option<Completion>, ledger: seq<Entry>, rubricFile: string)

  const NO_FILES: Files := Files(None, None, [], "")

  // ----- what each command does to the files

  function NonBlank(o: Option<string>): Option<string> {
    if o.Some? && Trim(o.value) != "" then Some(Trim(o.value)) else None
  }

  function StatusOf(v: Verdict): Status {
    match v
    case Pass => Passed
    case Fail => Failed
    case Block => Blocked
  }

  function EventOf(v: Verdict): EventKind {
    match v
    case Pass => ValidationPassed
    case Fail => ValidationFailed
    case Block => ValidationBlocked
  }

  function NewMission(topic: string, rubric: string, critic: Option<string>, now: Time): Mission {
    Mission(Trim(topic), Trim(rubric), NonBlank(critic), Created, now, now, None)
  }

  function Create(f: Files, topic: string, rubric: string, critic: Option<string>, force: bool, now: Time): Result<Files, Error> {
    if Trim(topic) == "" then Err(MissingTopic)
    else if Trim(rubric) == "" then Err(MissingRubric)
    else if !force && f.mission.Some? then Err(AlreadyExists)
    else
      Ok(Files(Some(NewMission(topic, rubric, critic, now)), f.completion,
               [Entry(now, WorkflowCreated, Created, None, None)], Trim(rubric) + "\n"))
  }

  function Handoff(f: Files, now: Time): Result<Files, Error> {
    if f.mission.None? then Err(NoMission)
    else
      var m := if f.mission.value.status == Created then f.mission.value.(status := InProgress, updatedAt := now) else f.mission.value;
      Ok(f.(mission := Some(m), ledger := f.ledger + [Entry(now, HandoffEmitted, m.status, None, None)]))
  }

  function Judged(m: Mission, v: Verdict, evidence: string, summary: Option<string>, artifact: Option<string>, now: Time): Completion {
    var said := NonBlank(summary);
    Completion(v, v == Pass, if said.Some? then said.value else Trim(evidence), Trim(evidence), NonBlank(artifact), m.criticCommand, now)
  }

  function Record(f: Files, v: Verdict, evidence: string, summary: Option<string>, artifact: Option<string>, now: Time): Result<Files, Error> {
    if f.mission.None? then Err(NoMission)
    else if f.mission.value.status == Complete then Err(AlreadyComplete)
    else if Trim(evidence) == "" then Err(MissingEvidence)
    else
      var m := f.mission.value;
      Ok(f.(mission := Some(m.(status := StatusOf(v), updatedAt := now)),
            completion := Some(Judged(m, v, evidence, summary, artifact, now)),
            ledger := f.ledger + [Entry(now, EventOf(v), StatusOf(v), Some(Trim(evidence)), artifact)]))
  }

  /** `reconciled`: whether the Codex goal snapshot agrees with the mission. */
  function Finish(f: Files, reconciled: bool, now: Time): Result<Files, Error> {
    if f.mission.None? then Err(NoMission)
    else if f.completion.None? || !f.completion.value.passed || f.completion.value.verdict != Pass then Err(NotValidated)
    else if !reconciled then Err(NotReconciled)
    else
      var m, c := f.mission.value, f.completion.value;
      Ok(f.(mission := Some(m.(status := Complete, updatedAt := now, completedAt := Some(now))),
            ledger := f.ledger + [Entry(now, GoalCompleted, Complete, Some(c.evidence), c.artifactPath)]))
  }

  // ----- the commands, file by file in the order they write

  class GoalStore {
    var mission: Option<Mission>
    var completion: Option<Completion>
    var ledger: seq<Entry>
    var rubricFile: string

    function State(): Files
      reads this
    {
      Files(mission, completion, ledger, rubricFile)
    }

    constructor ()
      ensures State() == NO_FILES
    {
      mission, completion, ledger, rubricFile := None, None, [], "";
    }

    method CreateGoal(topic: string, rubric: string, critic: Option<string>, force: bool, now: Time) returns (r: Result<Mission, Error>)
      modifies this
      ensures var spec := Create(old(State()), topic, rubric, critic, force, now);
              if spec.Ok? then State() == spec.value && r == Ok(spec.value.mission.value)
              else State() == old(State()) && r == Err(spec.error)
    {
      if Trim(topic) == "" { return Err(MissingTopic); }
      if Trim(rubric) == "" { return Err(MissingRubric); }
      if !force && mission.Some? { return Err(AlreadyExists); }
      var m := NewMission(topic, rubric, critic, now);
      rubricFile := m.rubric + "\n";
      ledger := [];
      mission := Some(m);
      ledger := ledger + [Entry(now, WorkflowCreated, m.status, None, None)];
      return Ok(m);
    }

    method BuildHandoff(now: Time) returns (r: Result<Mission, Error>)
      modifies this
      ensures var spec := Handoff(old(State()), now);
              if spec.Ok? then State() == spec.value && r == Ok(spec.value.mission.value)
              else State() == old(State()) && r == Err(spec.error)
    {
      if mission.None? { return Err(NoMission); }
      var m := mission.value;
      if m.status == Created {
        m := m.(status := InProgress);
        m := m.(updatedAt := now);
        mission := Some(m);
      }
      ledger := ledger + [Entry(now, HandoffEmitted, m.status, None, None)];
      return Ok(m);
    }

    method RecordVerdict(v: Verdict, evidence: string, summary: Option<string>, artifact: Option<string>, now: Time)
      returns (r: Result<(Mission, Completion), Error>)
      modifies this
      ensures var spec := Record(old(State()), v, evidence, summary, artifact, now);
              if spec.Ok? then State() == spec.value && r == Ok((spec.value.mission.value, spec.value.completion.value))
              else State() == old(State()) && r == Err(spec.error)
    {
      if mission.None? { return Err(NoMission); }
      var m := mission.value;
      if m.status == Complete { return Err(AlreadyComplete); }
      if Trim(evidence) == "" { return Err(MissingEvidence); }
      var c := Judged(m, v, evidence, summary, artifact, now);
      m := m.(status := StatusOf(v));
      m := m.(updatedAt := now);
      mission := Some(m);
      completion := Some(c);
      ledger := ledger + [Entry(now, EventOf(v), m.status, Some(c.evidence), artifact)];
      return Ok((m, c));
    }

    method CompleteGoal(reconciled: bool, now: Time) returns (r: Result<(Mission, Completion), Error>)
      modifies this
      ensures var spec := Finish(old(State()), reconciled, now);
              if spec.Ok? then State() == spec.value && r == Ok((spec.value.mission.value, spec.value.completion.value))
              else State() == old(State()) && r == Err(spec.error)
    {
      if mission.None? { return Err(NoMission); }
      var m := mission.value;
      if completion.None? || !completion.value.passed || completion.value.verdict != Pass { return Err(NotValidated); }
      if !reconciled { return Err(NotReconciled); }
      var c := completion.value;
      m := m.(status := Complete);
      m := m.(updatedAt := now);
      m := m.(completedAt := Some(now));
      mission := Some(m);
      ledger := ledger + [Entry(now, GoalCompleted, m.status, Some(c.evidence), c.artifactPath)];
      return Ok((m, c));
    }
  }
}
