/** What one iteration of a run comes to, case by case, in terms of what the worker left and what the evaluator said. */
module SupervisorCases {
  import opened Wrappers
  import opened Supervisor
  import opened SupervisorRuns

  ghost predicate Reached(d: Driven) {
    exists policy, shortHead, head, outcome, gitAfter, run ::
      && Possible(Driven(Start(policy, shortHead, head, outcome, gitAfter), false), run)
      && d == After(Driven(Start(policy, shortHead, head, outcome, gitAfter), false), run)
  }

  lemma {:induction false} ReachedInv(d: Driven)
    requires Reached(d)
    ensures Inv(d)
  {
    var policy, shortHead, head, outcome, gitAfter, run :|
      && Possible(Driven(Start(policy, shortHead, head, outcome, gitAfter), false), run)
      && d == After(Driven(Start(policy, shortHead, head, outcome, gitAfter), false), run);
    RunKeeps(Driven(Start(policy, shortHead, head, outcome, gitAfter), false), run);
  }

  /** A run starts with the evaluated baseline as its only entry, and its score counts only if it passed. */
  lemma {:induction false} StartsAtBaseline(policy: KeepPolicy, shortHead: string, head: Commit, outcome: EvaluatorOutcome, gitAfter: Git)
    ensures var r := Start(policy, shortHead, head, outcome, gitAfter);
            && Reached(Driven(r, false)) && |r.ledger| == 1
            && r.ledger[0].isBaseline && r.ledger[0].iteration == 0
            && r.ledger[0].keptCommit == head == r.saved.lastKeptCommit
            && r.ledger[0].decision == (if outcome.Reported? then Baseline else Error)
            && (r.ledger[0].decision == Error <==> r.ledger[0].reason == BaselineEvaluatorError)
            && r.saved.lastKeptScore == (if outcome.Reported? && outcome.pass then outcome.score else None)
            && r.saved.status == Running && r.saved.keepPolicy == policy && r.manifest == r.saved && r.git == gitAfter
  {
    var d := Driven(Start(policy, shortHead, head, outcome, gitAfter), false);
    assert Possible(d, []) && After(d, []) == d;
  }

  /** The artifact starts from the kept commit, and a proposal names HEAD. */
  predicate Accepted(kept: Commit, s: Session) {
    && s.artifact.Ok?
    && var a := s.artifact.value;
       && a.baseCommit in s.refs && s.refs[a.baseCommit] == kept
       && (a.status == Proposed ==>
             && a.candidateCommit.Some? && a.candidateCommit.value != ""
             && a.candidateCommit.value in s.refs && s.refs[a.candidateCommit.value] == s.git.head)
  }

  /** Why an artifact is refused: the first thing that is wrong with it. */
  predicate Refusal(kept: Commit, s: Session, reason: Reason) {
    if s.artifact.Err? then reason == BadArtifact(s.artifact.error)
    else
      var a := s.artifact.value;
      match reason
      case BaseUnresolved => a.baseCommit !in s.refs
      case BaseNotLastKept => a.baseCommit in s.refs && s.refs[a.baseCommit] != kept
      case CommitMissing => BaseKept(kept, s) && (a.candidateCommit == None || a.candidateCommit == Some(""))
      case CommitUnresolved =>
        BaseKept(kept, s) && a.candidateCommit.Some? && a.candidateCommit.value != "" && a.candidateCommit.value !in s.refs
      case CommitNotHead =>
        && BaseKept(kept, s) && a.candidateCommit.Some? && a.candidateCommit.value != ""
        && a.candidateCommit.value in s.refs && s.refs[a.candidateCommit.value] != s.git.head
      case _ => false
  }

  predicate BaseKept(kept: Commit, s: Session)
    requires s.artifact.Ok?
  {
    s.artifact.value.baseCommit in s.refs && s.refs[s.artifact.value.baseCommit] == kept
  }

  lemma {:induction false} ValidateIff(kept: Commit, s: Session)
    requires s.artifact.Ok?
    ensures var v := Validate(kept, s.git.head, s.refs, s.artifact.value);
            && (v.Ok? <==> Accepted(kept, s))
            && (v.Ok? ==>
                  && v.value.status == s.artifact.value.status && v.value.baseCommit == kept
                  && v.value.candidateCommit ==
                       if v.value.status == Proposed then Some(s.git.head) else s.artifact.value.candidateCommit)
            && (v.Err? ==> Refusal(kept, s, v.error))
  {
  }

  /** Nothing can happen to the run any more. */
  ghost predicate Over(d: Driven) {
    !d.down && forall e :: !Enabled(d, e)
  }

  ghost predicate GoesOn(d: Driven) {
    !d.down && d.run.saved.status == Running && forall s :: Enabled(d, Work(s))
  }

  /** The run has one entry more, and it is `e`. */
  predicate Logged(before: Driven, after: Driven, e: Entry) {
    after.run.ledger == before.run.ledger + [e]
  }

  /** A missing, unreadable or stale artifact, or one that does not name HEAD, is logged as an error that says why, and
      fails the run. */
  lemma {:induction false} RefusedFails(d: Driven, s: Session)
    requires Reached(d) && Enabled(d, Work(s)) && !Accepted(d.run.saved.lastKeptCommit, s)
    ensures var t, l := Apply(d, Work(s)), d.run.ledger;
            && Process(d.run, s).1 == Some(Error)
            && Over(t) && t.run.saved.status == Failed && t.run.git == s.git
            && |t.run.ledger| == |l| + 1
            && var e, kept := Last(t.run.ledger), d.run.saved.lastKeptCommit;
               && Refusal(kept, s, e.reason) && t.run.saved.stopReason == Some(e.reason)
               && Logged(d, t, Entry(|l|, false, Error, e.reason,
                                     if s.artifact.Ok? then s.artifact.value.baseCommit else kept,
                                     if s.artifact.Ok? then s.artifact.value.candidateCommit else None, kept, None))
  {
    ReachedInv(d);
    if s.artifact.Ok? { ValidateIff(d.run.saved.lastKeptCommit, s); }
  }

  /** A worker that asks to abort stops the run, and the ledger says so. */
  lemma {:induction false} AbortStops(d: Driven, s: Session)
    requires Reached(d) && Enabled(d, Work(s)) && Accepted(d.run.saved.lastKeptCommit, s)
    requires s.artifact.value.status == ReportsAbort
    ensures var t, kept := Apply(d, Work(s)), d.run.saved.lastKeptCommit;
            && Process(d.run, s).1 == Some(Abort)
            && Over(t) && t.run.saved.status == Stopped && t.run.saved.stopReason == Some(AskedAbort)
            && Logged(d, t, Entry(|d.run.ledger|, false, Abort, AskedAbort, kept, s.artifact.value.candidateCommit, kept, None))
  {
    ReachedInv(d);
    ValidateIff(d.run.saved.lastKeptCommit, s);
  }

  /** A noop is logged and the run goes on. */
  lemma {:induction false} NoopGoesOn(d: Driven, s: Session)
    requires Reached(d) && Enabled(d, Work(s)) && Accepted(d.run.saved.lastKeptCommit, s)
    requires s.artifact.value.status == ReportsNoop
    ensures var t, kept := Apply(d, Work(s)), d.run.saved.lastKeptCommit;
            && Process(d.run, s).1 == Some(Noop)
            && GoesOn(t) && t.run.git == s.git && t.run.saved.latestCandidate == s.artifact.value.candidateCommit
            && Logged(d, t, Entry(|d.run.ledger|, false, Noop, SaidNoop, kept, s.artifact.value.candidateCommit, kept, None))
  {
    ReachedInv(d);
    ValidateIff(d.run.saved.lastKeptCommit, s);
  }

  /** So is an interruption, if it left the worktree clean; otherwise the run fails and nothing is logged. */
  lemma {:induction false} InterruptionGoesOnIff(d: Driven, s: Session)
    requires Reached(d) && Enabled(d, Work(s)) && Accepted(d.run.saved.lastKeptCommit, s)
    requires s.artifact.value.status == ReportsInterrupted
    ensures var t, kept := Apply(d, Work(s)), d.run.saved.lastKeptCommit;
            && Process(d.run, s).1 == Some(if s.git.dirty then Error else Interrupted)
            && t.run.git == s.git
            && (!s.git.dirty ==>
                  && GoesOn(t)
                  && Logged(d, t, Entry(|d.run.ledger|, false, Interrupted, WasInterrupted, kept,
                                        s.artifact.value.candidateCommit, kept, None)))
            && (s.git.dirty ==>
                  && Over(t) && t.run.saved.status == Failed && t.run.saved.stopReason == Some(DirtyInterruption)
                  && t.run.ledger == d.run.ledger)
  {
    ReachedInv(d);
    ValidateIff(d.run.saved.lastKeptCommit, s);
  }

  predicate Passes(outcome: EvaluatorOutcome) {
    outcome.Reported? && outcome.pass
  }

  /** Under score_improvement a score counts only against another one. */
  predicate Beats(policy: KeepPolicy, outcome: EvaluatorOutcome, best: Option<real>) {
    && Passes(outcome)
    && (policy == ScoreImprovement ==> outcome.score.Some? && best.Some? && outcome.score.value > best.value)
  }

  /** An accepted proposal, with its commits resolved, goes to the evaluator. */
  lemma {:induction false} ProposalEvaluated(d: Driven, s: Session) returns (r: Run, a: Artifact)
    requires Reached(d) && Enabled(d, Work(s)) && Accepted(d.run.saved.lastKeptCommit, s)
    requires s.artifact.value.status == Proposed
    ensures a == Artifact(Proposed, Some(s.git.head), d.run.saved.lastKeptCommit)
    ensures r == Run(d.run.saved.(iteration := |d.run.ledger|, latestCandidate := Some(s.git.head)), d.run.saved, d.run.ledger, s.git)
    ensures Process(d.run, s) == Evaluate(r, a, s)
  {
    ReachedInv(d);
    ValidateIff(d.run.saved.lastKeptCommit, s);
    a := Artifact(Proposed, Some(s.git.head), d.run.saved.lastKeptCommit);
    r := Run(d.run.saved.(iteration := |d.run.ledger|, latestCandidate := Some(s.git.head)), d.run.saved, d.run.ledger, s.git);
  }

  /** A proposal that passes and, under score_improvement, beats the last kept score is kept: the kept commit becomes HEAD
      as the evaluator left it, and the kept score its score if it gave one. */
  lemma {:induction false} ProposalKept(d: Driven, s: Session)
    requires Reached(d) && Enabled(d, Work(s)) && Accepted(d.run.saved.lastKeptCommit, s)
    requires s.artifact.value.status == Proposed
    requires Beats(d.run.saved.keepPolicy, s.outcome, d.run.saved.lastKeptScore)
    ensures var t, m, l := Apply(d, Work(s)), d.run.saved, d.run.ledger;
            && Process(d.run, s).1 == Some(Keep)
            && GoesOn(t) && t.run.git == s.gitAfter && t.run.saved.latestCandidate == Some(s.git.head)
            && t.run.saved.lastKeptCommit == s.gitAfter.head
            && t.run.saved.lastKeptScore == (if s.outcome.score.Some? then s.outcome.score else m.lastKeptScore)
            && Logged(d, t, Entry(|l|, false, Keep, if m.keepPolicy == PassOnly then PassOnlyAccepted else ScoreImproved,
                                  m.lastKeptCommit, Some(s.git.head), s.gitAfter.head,
                                  Some(Evaluation(Passed, Some(true), s.outcome.score))))
  {
    var r, a := ProposalEvaluated(d, s);
  }

  /** Any other proposal is thrown away by a reset to the kept commit: as ambiguous if it passed and there was nothing to
      compare, as a discard if it did not pass or was no better. When the evaluator left the worktree dirty nothing is
      reset, logged or saved, and the driver is down. */
  lemma {:induction false} ProposalDropped(d: Driven, s: Session)
    requires Reached(d) && Enabled(d, Work(s)) && Accepted(d.run.saved.lastKeptCommit, s)
    requires s.artifact.value.status == Proposed
    requires !Beats(d.run.saved.keepPolicy, s.outcome, d.run.saved.lastKeptScore)
    ensures var t, m, l := Apply(d, Work(s)), d.run.saved, d.run.ledger;
            && t.run.saved.lastKeptCommit == m.lastKeptCommit && t.run.saved.lastKeptScore == m.lastKeptScore
            && Process(d.run, s).1 == (if s.gitAfter.dirty then None else Some(Last(t.run.ledger).decision))
            && (s.gitAfter.dirty ==> t.down && t.run.git == s.gitAfter && t.run.saved == m && t.run.ledger == l)
            && (!s.gitAfter.dirty ==>
                  && GoesOn(t) && t.run.git == Git(m.lastKeptCommit, false) && t.run.saved.latestCandidate == Some(s.git.head)
                  && |t.run.ledger| == |l| + 1 && l <= t.run.ledger
                  && var e, incomparable := t.run.ledger[|l|], s.outcome.Reported? && (s.outcome.score.None? || m.lastKeptScore.None?);
                     && e.iteration == |l| && e.baseCommit == e.keptCommit == m.lastKeptCommit && e.candidateCommit == Some(s.git.head)
                     && e.decision == (if Passes(s.outcome) && incomparable then Ambiguous else Discard)
                     && e.reason == (if !s.outcome.Reported? then EvaluatorError
                                     else if !s.outcome.pass then EvaluatorFailure
                                     else if incomparable then NotComparable
                                     else ScoreNotImproved)
                     && e.evaluator == Some(match s.outcome
                                            case Reported(pass, score) => Evaluation(if pass then Passed else NotPassed, Some(pass), score)
                                            case _ => Evaluation(Errored, None, None)))
  {
    var r, a := ProposalEvaluated(d, s);
  }

  /** An operator can stop exactly the runs that are saved as running; that ends the run, and so does nothing but a stop, an
      abort, a refused artifact and a dirty interruption. */
  lemma {:induction false} RunsUntilEnded(d: Driven, e: Event)
    requires Reached(d) && Enabled(d, e)
    ensures Enabled(d, Stop)
    ensures e.Stop? ==>
              var t := Apply(d, e);
              t.run.saved.status == Stopped && t.run.saved.stopReason == Some(OperatorStop) && t.run.ledger == d.run.ledger
              && forall f :: !Enabled(t, f)
    ensures e.Resume? ==>
              Apply(d, e).run.ledger == d.run.ledger && Apply(d, e).run.saved == d.run.saved
              && GoesOn(Apply(d, e)) && Apply(d, e).run.git == Git(e.head, false)
    ensures Apply(d, e).run.saved.status == Running <==>
              match e
              case Stop => false
              case Resume(_) => true
              case Work(s) =>
                && Accepted(d.run.saved.lastKeptCommit, s) && s.artifact.value.status != ReportsAbort
                && !(s.artifact.value.status == ReportsInterrupted && s.git.dirty)
  {
    ReachedInv(d);
    if e.Work? {
      var s := e.session;
      if !Accepted(d.run.saved.lastKeptCommit, s) { RefusedFails(d, s); }
      else {
        match s.artifact.value.status
        case ReportsAbort => AbortStops(d, s);
        case ReportsNoop => NoopGoesOn(d, s);
        case ReportsInterrupted => InterruptionGoesOnIff(d, s);
        case Proposed => ProposalRuns(d, s);
      }
    }
  }

  lemma {:induction false} ProposalRuns(d: Driven, s: Session)
    requires Reached(d) && Enabled(d, Work(s)) && Accepted(d.run.saved.lastKeptCommit, s)
    requires s.artifact.value.status == Proposed
    ensures Apply(d, Work(s)).run.saved.status == Running
  {
    if Beats(d.run.saved.keepPolicy, s.outcome, d.run.saved.lastKeptScore) {
      ProposalKept(d, s);
    } else {
      ReachedInv(d);
      ProposalDropped(d, s);
    }
  }

  /** The flag on a verdict and its decision say the same. */
  lemma {:induction false} KeepIff(policy: KeepPolicy, lastKept: Option<real>, status: CandidateStatus, evaluation: Option<Evaluation>)
    ensures var v := DecideOutcome(policy, lastKept, status, evaluation); v.keep <==> v.decision == Keep
  {
  }
}
