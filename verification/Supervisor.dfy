/** The autoresearch supervisor: one keep-or-discard step over manifest, ledger and git. */
module Supervisor {
  import opened Wrappers

  type Commit = string

  datatype KeepPolicy = ScoreImprovement | PassOnly
  datatype CandidateStatus = Proposed | ReportsNoop | ReportsAbort | ReportsInterrupted
  datatype Decision = Baseline | Keep | Discard | Ambiguous | Noop | Abort | Interrupted | Error
  datatype RunStatus = Running | Stopped | Completed | Failed

  datatype Reason =
    | BaselineEstablished | BaselineEvaluatorError
    | EvaluatorError | EvaluatorFailure | PassOnlyAccepted | NotComparable | ScoreImproved | ScoreNotImproved
    | AskedAbort | WasInterrupted | SaidNoop
    | BadArtifact(message: string)
    | BaseUnresolved | BaseNotLastKept | CommitMissing | CommitUnresolved | CommitNotHead
    | DirtyInterruption | OperatorStop

  datatype EvaluationStatus = Passed | NotPassed | Errored
  datatype Evaluation = Evaluation(status: EvaluationStatus, pass: Option<bool>, score: Option<real>)

  /** What running the evaluator command came to. */
  datatype EvaluatorOutcome = Crashed | BadOutput | Reported(pass: bool, score: Option<real>)

  /** The candidate file the worker session leaves behind. */
  datatype Artifact = Artifact(status: CandidateStatus, candidateCommit: Option<string>, baseCommit: string)

  datatype Entry = Entry(
    iteration: nat,
    isBaseline: bool,
    decision: Decision,
    reason: Reason,
    baseCommit: string,
    candidateCommit: Option<string>,
    keptCommit: Commit,
    evaluator: Option<Evaluation>)

  datatype Manifest = Manifest(
    baselineCommit: string,
    lastKeptCommit: Commit,
    lastKeptScore: Option<real>,
    latestCandidate: Option<string>,
    keepPolicy: KeepPolicy,
    status: RunStatus,
    stopReason: Option<Reason>,
    iteration: nat)

  /** The worktree: its HEAD, and whether files outside the runtime's own are dirty. */
  datatype Git = Git(head: Commit, dirty: bool)

  /** Everything the supervisor does not control in one iteration: what the worker left, and
      what the evaluator did. */
  datatype Session = Session(
    artifact: Result<Artifact, string>,
    refs: map<string, Commit>,
    git: Git,
    outcome: EvaluatorOutcome,
    gitAfter: Git)

  /** A run: the manifest in memory and on disk, the ledger on disk, the worktree. */
  datatype Run = Run(manifest: Manifest, saved: Manifest, ledger: seq<Entry>, git: Git)

  function RunEvaluator(outcome: EvaluatorOutcome): Evaluation {
    match outcome
    case Crashed => Evaluation(Errored, None, None)
    case BadOutput => Evaluation(Errored, None, None)
    case Reported(pass, score) => Evaluation(if pass then Passed else NotPassed, Some(pass), score)
  }

  datatype Verdict = Verdict(decision: Decision, reason: Reason, keep: bool)

  function DecideOutcome(policy: KeepPolicy, lastKept: Option<real>, status: CandidateStatus, evaluation: Option<Evaluation>): Verdict {
    if status == ReportsAbort then Verdict(Abort, AskedAbort, false)
    else if status == ReportsNoop then Verdict(Noop, SaidNoop, false)
    else if status == ReportsInterrupted then Verdict(Interrupted, WasInterrupted, false)
    else if evaluation.None? || evaluation.value.status == Errored then Verdict(Discard, EvaluatorError, false)
    else if evaluation.value.pass != Some(true) then Verdict(Discard, EvaluatorFailure, false)
    else if policy == PassOnly then Verdict(Keep, PassOnlyAccepted, true)
    else if lastKept.None? || evaluation.value.score.None? then Verdict(Ambiguous, NotComparable, false)
    else if evaluation.value.score.value > lastKept.value then Verdict(Keep, ScoreImproved, true)
    else Verdict(Discard, ScoreNotImproved, false)
  }

  function Resolve(refs: map<string, Commit>, ref: string): Option<Commit> {
    if ref in refs then Some(refs[ref]) else None
  }

  /** The artifact with its commits resolved, or why it is refused. */
  function Validate(lastKept: Commit, head: Commit, refs: map<string, Commit>, a: Artifact): Result<Artifact, Reason> {
    var base := Resolve(refs, a.baseCommit);
    if base.None? then Err(BaseUnresolved)
    else if base.value != lastKept then Err(BaseNotLastKept)
    else if a.status != Proposed then Ok(a.(baseCommit := base.value))
    else if a.candidateCommit.None? || a.candidateCommit.value == "" then Err(CommitMissing)
    else
      var commit := Resolve(refs, a.candidateCommit.value);
      if commit.None? then Err(CommitUnresolved)
      else if commit.value != head then Err(CommitNotHead)
      else Ok(a.(baseCommit := base.value, candidateCommit := commit))
  }

  // ----- the step as a function of the run

  function Finalize(m: Manifest, status: RunStatus, reason: Reason): Manifest {
    m.(status := status, stopReason := Some(reason))
  }

  function Save(r: Run): Run {
    r.(saved := r.manifest)
  }

  function Append(r: Run, e: Entry): Run {
    r.(ledger := r.ledger + [e])
  }

  function EntryOf(m: Manifest, verdict: Verdict, a: Artifact, evaluation: Option<Evaluation>): Entry {
    Entry(m.iteration, false, verdict.decision, verdict.reason, a.baseCommit, a.candidateCommit, m.lastKeptCommit, evaluation)
  }

  /** A refused artifact is logged and ends the run. */
  function FailIteration(r: Run, reason: Reason, a: Option<Artifact>): Run {
    var m := r.manifest;
    var base := if a.Some? then a.value.baseCommit else m.lastKeptCommit;
    var commit := if a.Some? then a.value.candidateCommit else None;
    var e := Entry(m.iteration, false, Error, reason, base, commit, m.lastKeptCommit, None);
    Save(Append(r, e).(manifest := Finalize(m, Failed, reason)))
  }

  function NonEvaluated(r: Run, a: Artifact): (Run, Decision) {
    var verdict := DecideOutcome(r.manifest.keepPolicy, r.manifest.lastKeptScore, a.status, None);
    var e := EntryOf(r.manifest, verdict, a, None);
    if a.status == ReportsAbort then
      (Save(Append(r, e).(manifest := Finalize(r.manifest, Stopped, AskedAbort))), Abort)
    else if a.status == ReportsInterrupted && r.git.dirty then
      (Save(r.(manifest := Finalize(r.manifest, Failed, DirtyInterruption))), Error)
    else
      (Save(Append(r, e)), verdict.decision)
  }

  /** None: the reset refused a dirty worktree and the exception escaped; nothing was saved. */
  function Evaluate(r: Run, a: Artifact, s: Session): (Run, Option<Decision>) {
    var m := r.manifest;
    var evaluation := RunEvaluator(s.outcome);
    var verdict := DecideOutcome(m.keepPolicy, m.lastKeptScore, a.status, Some(evaluation));
    if verdict.keep then
      var m' := m.(lastKeptCommit := s.gitAfter.head,
                   lastKeptScore := if evaluation.score.Some? then evaluation.score else m.lastKeptScore);
      (Save(Append(r, EntryOf(m', verdict, a, Some(evaluation))).(manifest := m', git := s.gitAfter)), Some(verdict.decision))
    else if s.gitAfter.dirty then
      (r.(git := s.gitAfter), None)
    else
      (Save(Append(r, EntryOf(m, verdict, a, Some(evaluation))).(git := Git(m.lastKeptCommit, false))), Some(verdict.decision))
  }

  function Process(r: Run, s: Session): (Run, Option<Decision>) {
    var r1 := r.(manifest := r.manifest.(iteration := r.manifest.iteration + 1), git := s.git);
    if s.artifact.Err? then (FailIteration(r1, BadArtifact(s.artifact.error), None), Some(Error))
    else
      var valid := Validate(r1.manifest.lastKeptCommit, s.git.head, s.refs, s.artifact.value);
      if valid.Err? then (FailIteration(r1, valid.error, Some(s.artifact.value)), Some(Error))
      else
        var a := valid.value;
        var r2 := r1.(manifest := r1.manifest.(latestCandidate := a.candidateCommit));
        if a.status != Proposed then
          var (r3, d) := NonEvaluated(r2, a);
          (r3, Some(d))
        else Evaluate(r2, a, s)
  }

  /** A fresh run on `head`, with the baseline evaluated and logged. */
  function Start(policy: KeepPolicy, shortHead: string, head: Commit, outcome: EvaluatorOutcome, gitAfter: Git): Run {
    var evaluation := RunEvaluator(outcome);
    var score := if evaluation.pass == Some(true) then evaluation.score else None;
    var e := Entry(0, true,
                   if evaluation.status == Errored then Error else Baseline,
                   if evaluation.status == Errored then BaselineEvaluatorError else BaselineEstablished,
                   shortHead, None, head, Some(evaluation));
    var m := Manifest(shortHead, head, score, None, policy, Running, None, 0);
    Run(m, m, [e], gitAfter)
  }

  // ----- the same, as the supervisor does it: field by field, file by file

  class Supervision {
    var manifest: Manifest
    var saved: Manifest
    var ledger: seq<Entry>
    var git: Git

    ghost function State(): Run
      reads this
    {
      Run(manifest, saved, ledger, git)
    }

    /** Prepares the run and seeds the baseline. */
    constructor (policy: KeepPolicy, shortHead: string, head: Commit, outcome: EvaluatorOutcome, gitAfter: Git)
      ensures State() == Start(policy, shortHead, head, outcome, gitAfter)
    {
      var m := Manifest(shortHead, head, None, None, policy, Running, None, 0);
      var evaluation := RunEvaluator(outcome);
      var errored := evaluation.status == Errored;
      ledger := [Entry(0, true, if errored then Error else Baseline,
                       if errored then BaselineEvaluatorError else BaselineEstablished,
                       shortHead, None, m.lastKeptCommit, Some(evaluation))];
      m := m.(lastKeptScore := if evaluation.pass == Some(true) && evaluation.score.Some? then evaluation.score else None);
      manifest, saved, git := m, m, gitAfter;
    }

    method FinalizeRun(status: RunStatus, reason: Reason)
      modifies this
      ensures State() == Save(old(State()).(manifest := Finalize(old(manifest), status, reason)))
    {
      manifest := manifest.(status := status);
      manifest := manifest.(stopReason := Some(reason));
      saved := manifest;
    }

    method RecordIteration(verdict: Verdict, a: Artifact, evaluation: Option<Evaluation>)
      modifies this`ledger
      ensures State() == Append(old(State()), EntryOf(manifest, verdict, a, evaluation))
    {
      ledger := ledger + [Entry(manifest.iteration, false, verdict.decision, verdict.reason,
                                a.baseCommit, a.candidateCommit, manifest.lastKeptCommit, evaluation)];
    }

    method FailTheIteration(reason: Reason, a: Option<Artifact>)
      modifies this
      ensures State() == FailIteration(old(State()), reason, a)
    {
      var base, commit := manifest.lastKeptCommit, None;
      if a.Some? { base, commit := a.value.baseCommit, a.value.candidateCommit; }
      ledger := ledger + [Entry(manifest.iteration, false, Error, reason, base, commit, manifest.lastKeptCommit, None)];
      FinalizeRun(Failed, reason);
    }

    method RecordNonEvaluated(a: Artifact) returns (d: Decision)
      requires a.status != Proposed
      modifies this
      ensures (State(), d) == NonEvaluated(old(State()), a)
    {
      if a.status == ReportsAbort {
        RecordIteration(Verdict(Abort, AskedAbort, false), a, None);
        FinalizeRun(Stopped, AskedAbort);
        return Abort;
      }
      if a.status == ReportsInterrupted {
        if git.dirty {
          FinalizeRun(Failed, DirtyInterruption);
          return Error;
        }
        RecordIteration(Verdict(Interrupted, WasInterrupted, false), a, None);
        saved := manifest;
        return Interrupted;
      }
      RecordIteration(Verdict(Noop, SaidNoop, false), a, None);
      saved := manifest;
      return Noop;
    }

    /** True when the reset went through; a dirty worktree is never reset. */
    method ResetToLastKept() returns (done: bool)
      modifies this`git
      ensures done == !old(git).dirty
      ensures git == if done then Git(manifest.lastKeptCommit, false) else old(git)
    {
      if git.dirty { return false; }
      git := git.(head := manifest.lastKeptCommit);
      return true;
    }

    /** None when an exception escapes. */
    method ProcessCandidate(s: Session) returns (d: Option<Decision>)
      modifies this
      ensures (State(), d) == Process(old(State()), s)
    {
      manifest := manifest.(iteration := manifest.iteration + 1);
      git := s.git;
      if s.artifact.Err? {
        FailTheIteration(BadArtifact(s.artifact.error), None);
        return Some(Error);
      }
      var valid := Validate(manifest.lastKeptCommit, git.head, s.refs, s.artifact.value);
      if valid.Err? {
        FailTheIteration(valid.error, Some(s.artifact.value));
        return Some(Error);
      }
      var a := valid.value;
      manifest := manifest.(latestCandidate := a.candidateCommit);
      if a.status != Proposed {
        var r := RecordNonEvaluated(a);
        return Some(r);
      }
      var evaluation := RunEvaluator(s.outcome);
      git := s.gitAfter;
      var verdict := DecideOutcome(manifest.keepPolicy, manifest.lastKeptScore, a.status, Some(evaluation));
      if verdict.keep {
        manifest := manifest.(lastKeptCommit := git.head);
        if evaluation.score.Some? { manifest := manifest.(lastKeptScore := evaluation.score); }
      } else {
        var done := ResetToLastKept();
        if !done { return None; }
      }
      RecordIteration(verdict, a, Some(evaluation));
      saved := manifest;
      return Some(verdict.decision);
    }
  }

  /** Counts the noop iterations at the end of the ledger: all of them, and no more. */
  method CountTrailingNoops(entries: seq<Entry>) returns (count: nat)
    ensures count <= |entries|
    ensures forall k :: |entries| - count <= k < |entries| ==> !entries[k].isBaseline && entries[k].decision == Noop
    ensures count < |entries| ==>
              var e := entries[|entries| - count - 1]; e.isBaseline || e.decision != Noop
  {
    count := 0;
    var index := |entries| - 1;
    while index >= 0
      invariant -1 <= index < |entries| && count == |entries| - 1 - index
      invariant forall k :: index < k < |entries| ==> !entries[k].isBaseline && entries[k].decision == Noop
    {
      if entries[index].isBaseline || entries[index].decision != Noop { break; }
      count := count + 1;
      index := index - 1;
    }
  }
}
