/** Whole autoresearch runs: the ledger is a chain of commits, and the best score is kept. */
module SupervisorRuns {
  import opened Wrappers
  import opened Supervisor

  /** A run and whether its driver is down, an exception having escaped. */
  datatype Driven = Driven(run: Run, down: bool)

  datatype Event =
    | Work(session: Session)
    | Resume(head: Commit)
    | Stop

  /** Drivers work only on running runs; resuming needs a clean worktree, whatever its HEAD. */
  predicate Enabled(d: Driven, e: Event) {
    match e
    case Work(_) => !d.down && d.run.manifest.status == Running
    case Resume(_) => d.run.saved.status == Running
    case Stop => d.run.saved.status == Running
  }

  function Apply(d: Driven, e: Event): Driven
    requires Enabled(d, e)
  {
    match e
    case Work(s) =>
      var (r, decision) := Process(d.run, s);
      Driven(r, decision.None?)
    case Resume(head) => Driven(d.run.(manifest := d.run.saved, git := Git(head, false)), false)
    case Stop =>
      Driven(Save(d.run.(manifest := Finalize(d.run.saved, Stopped, OperatorStop))), d.down)
  }

  predicate Possible(d: Driven, run: seq<Event>)
    decreases |run|
  {
    run == [] || (Enabled(d, run[0]) && Possible(Apply(d, run[0]), run[1..]))
  }

  function After(d: Driven, run: seq<Event>): Driven
    requires Possible(d, run)
    decreases |run|
  {
    if run == [] then d else After(Apply(d, run[0]), run[1..])
  }

  // ----- what a ledger says

  function PassingScore(e: Entry): Option<real> {
    if e.evaluator.Some? && e.evaluator.value.pass == Some(true) then e.evaluator.value.score else None
  }

  /** Under score_improvement the best passing score, provided the baseline has one; under
      pass_only the latest passing score. */
  function Tracked(policy: KeepPolicy, ledger: seq<Entry>): Option<real> {
    if ledger == [] then None
    else if |ledger| == 1 then PassingScore(ledger[0])
    else
      var n := |ledger| - 1;
      var t := Tracked(policy, ledger[..n]);
      var p := PassingScore(ledger[n]);
      if p.None? then t
      else if policy == PassOnly then p
      else if t.None? then None
      else Some(if p.value > t.value then p.value else t.value)
  }

  predicate Accepts(policy: KeepPolicy, tracked: Option<real>, e: Entry) {
    && e.evaluator.Some? && e.evaluator.value.pass == Some(true)
    && (policy == ScoreImprovement ==>
          tracked.Some? && PassingScore(e).Some? && PassingScore(e).value > tracked.value)
  }

  predicate Linked(policy: KeepPolicy, ledger: seq<Entry>, k: nat)
    requires 0 < k < |ledger|
  {
    var e, previous := ledger[k], ledger[k - 1];
    && !e.isBaseline && e.iteration == k && e.decision != Baseline
    && (e.decision != Error ==> e.baseCommit == previous.keptCommit)
    && (e.decision != Keep ==> e.keptCommit == previous.keptCommit)
    && (e.decision == Keep <==> Accepts(policy, Tracked(policy, ledger[..k]), e))
    && (k < |ledger| - 1 ==> e.decision != Error && e.decision != Abort)
  }

  predicate Chained(policy: KeepPolicy, ledger: seq<Entry>) {
    && ledger != [] && ledger[0].isBaseline && ledger[0].iteration == 0 && ledger[0].decision != Keep
    && forall k :: 0 < k < |ledger| ==> Linked(policy, ledger, k)
  }

  function Last(ledger: seq<Entry>): Entry
    requires ledger != []
  {
    ledger[|ledger| - 1]
  }

  predicate Inv(d: Driven) {
    var m := d.run.saved;
    && Chained(m.keepPolicy, d.run.ledger)
    && (!d.down ==> d.run.manifest == m)
    && m.lastKeptCommit == Last(d.run.ledger).keptCommit
    && m.lastKeptScore == Tracked(m.keepPolicy, d.run.ledger)
    && (m.status == Running ==>
          && m.iteration == |d.run.ledger| - 1
          && (|d.run.ledger| > 1 ==> Last(d.run.ledger).decision != Error && Last(d.run.ledger).decision != Abort))
  }

  /** An entry that continues a chain. */
  predicate Continues(policy: KeepPolicy, ledger: seq<Entry>, e: Entry)
    requires ledger != []
  {
    && !e.isBaseline && e.iteration == |ledger| && e.decision != Baseline
    && (e.decision != Error ==> e.baseCommit == Last(ledger).keptCommit)
    && (e.decision != Keep ==> e.keptCommit == Last(ledger).keptCommit)
    && (e.decision == Keep <==> Accepts(policy, Tracked(policy, ledger), e))
  }

  lemma {:induction false} ChainGrows(policy: KeepPolicy, ledger: seq<Entry>, e: Entry)
    requires Chained(policy, ledger) && Continues(policy, ledger, e)
    requires |ledger| > 1 ==> Last(ledger).decision != Error && Last(ledger).decision != Abort
    ensures Chained(policy, ledger + [e])
  {
    var l := ledger + [e];
    forall k | 0 < k < |l| ensures Linked(policy, l, k) {
      if k < |ledger| {
        assert Linked(policy, ledger, k);
        assert l[..k] == ledger[..k];
      } else {
        assert l[..k] == ledger;
      }
    }
  }

  lemma {:induction false} TrackedGrows(policy: KeepPolicy, ledger: seq<Entry>, e: Entry)
    requires ledger != []
    ensures Tracked(policy, ledger + [e]) ==
              (var t, p := Tracked(policy, ledger), PassingScore(e);
               if p.None? then t
               else if policy == PassOnly then p
               else if t.None? then None
               else Some(if p.value > t.value then p.value else t.value))
  {
    assert (ledger + [e])[..|ledger|] == ledger;
  }

  predicate Evaluated(decision: Option<Decision>) {
    decision.Some? && decision.value in {Keep, Discard, Ambiguous}
  }

  lemma {:induction false} EvaluateKeeps(d: Driven, r: Run, a: Artifact, s: Session)
    requires Inv(d) && Enabled(d, Work(s)) && r.saved == d.run.saved && r.ledger == d.run.ledger
    requires r.manifest == d.run.manifest.(iteration := d.run.manifest.iteration + 1, latestCandidate := a.candidateCommit)
    requires a.status == Proposed && a.baseCommit == d.run.manifest.lastKeptCommit
    ensures var (t, decision) := Evaluate(r, a, s);
            && Inv(Driven(t, decision.None?))
            && (decision.Some? ==>
                  && decision.value in {Keep, Discard, Ambiguous}
                  && |t.ledger| == |r.ledger| + 1 && Last(t.ledger).decision == decision.value
                  && t.git.head == t.saved.lastKeptCommit)
  {
    var (t, decision) := Evaluate(r, a, s);
    if decision.Some? {
      var e := Last(t.ledger);
      assert t.ledger == d.run.ledger + [e];
      ChainGrows(r.manifest.keepPolicy, d.run.ledger, e);
      TrackedGrows(r.manifest.keepPolicy, d.run.ledger, e);
    }
  }

  lemma {:induction false} FailKeeps(d: Driven, r: Run, s: Session, reason: Reason, a: Option<Artifact>)
    requires Inv(d) && Enabled(d, Work(s)) && r.saved == d.run.saved && r.ledger == d.run.ledger
    requires r.manifest == d.run.manifest.(iteration := d.run.manifest.iteration + 1)
    ensures Inv(Driven(FailIteration(r, reason, a), false))
  {
    var t := FailIteration(r, reason, a);
    var e := Last(t.ledger);
    assert t.ledger == d.run.ledger + [e];
    ChainGrows(r.manifest.keepPolicy, d.run.ledger, e);
    TrackedGrows(r.manifest.keepPolicy, d.run.ledger, e);
  }

  lemma {:induction false} NonEvaluatedKeeps(d: Driven, r: Run, s: Session, a: Artifact)
    requires Inv(d) && Enabled(d, Work(s)) && r.saved == d.run.saved && r.ledger == d.run.ledger
    requires r.manifest == d.run.manifest.(iteration := d.run.manifest.iteration + 1, latestCandidate := a.candidateCommit)
    requires a.status != Proposed && a.baseCommit == d.run.manifest.lastKeptCommit
    ensures Inv(Driven(NonEvaluated(r, a).0, false)) && !Evaluated(Some(NonEvaluated(r, a).1))
  {
    var t := NonEvaluated(r, a).0;
    if t.ledger != r.ledger {
      var e := Last(t.ledger);
      assert t.ledger == d.run.ledger + [e];
      ChainGrows(r.manifest.keepPolicy, d.run.ledger, e);
      TrackedGrows(r.manifest.keepPolicy, d.run.ledger, e);
    }
  }

  /** One iteration keeps the ledger a chain and the tracked score true; after an evaluated one
      HEAD is the commit its ledger entry says was kept. */
  lemma {:induction false} WorkKeeps(d: Driven, s: Session)
    requires Inv(d) && Enabled(d, Work(s))
    ensures Inv(Apply(d, Work(s)))
    ensures var (t, decision) := Process(d.run, s);
            Evaluated(decision) ==>
              && |t.ledger| == |d.run.ledger| + 1 && Last(t.ledger).decision == decision.value
              && t.git.head == t.saved.lastKeptCommit == Last(t.ledger).keptCommit
  {
    var r1 := d.run.(manifest := d.run.manifest.(iteration := d.run.manifest.iteration + 1), git := s.git);
    if s.artifact.Err? {
      FailKeeps(d, r1, s, BadArtifact(s.artifact.error), None);
    } else {
      var valid := Validate(r1.manifest.lastKeptCommit, s.git.head, s.refs, s.artifact.value);
      if valid.Err? {
        FailKeeps(d, r1, s, valid.error, Some(s.artifact.value));
      } else {
        var a := valid.value;
        var r2 := r1.(manifest := r1.manifest.(latestCandidate := a.candidateCommit));
        if a.status != Proposed {
          NonEvaluatedKeeps(d, r2, s, a);
        } else {
          EvaluateKeeps(d, r2, a, s);
        }
      }
    }
  }

  lemma {:induction false} RunKeeps(d: Driven, run: seq<Event>)
    requires Inv(d) && Possible(d, run)
    ensures Inv(After(d, run))
    decreases |run|
  {
    if run != [] {
      if run[0].Work? { WorkKeeps(d, run[0].session); }
      RunKeeps(Apply(d, run[0]), run[1..]);
    }
  }

  predicate Follows(ledger: seq<Entry>, k: nat)
    requires 0 < k < |ledger|
  {
    && ledger[k].iteration == k
    && (ledger[k].decision != Error ==> ledger[k].baseCommit == ledger[k - 1].keptCommit)
    && (ledger[k].decision != Keep ==> ledger[k].keptCommit == ledger[k - 1].keptCommit)
    && (k < |ledger| - 1 ==> ledger[k].decision != Error && ledger[k].decision != Abort)
  }

  /** In every run, resumed or stopped at will and with any worker and evaluator: entry k has
      iteration k; an entry that is no error starts from the commit kept before it; only a keep
      changes the kept commit; nothing follows an error or an abort; and the manifest on disk
      agrees with the ledger. */
  lemma LedgerIsChain(policy: KeepPolicy, shortHead: string, head: Commit, outcome: EvaluatorOutcome, gitAfter: Git, run: seq<Event>)
    requires Possible(Driven(Start(policy, shortHead, head, outcome, gitAfter), false), run)
    ensures var r := After(Driven(Start(policy, shortHead, head, outcome, gitAfter), false), run).run;
            && r.ledger != [] && r.ledger[0].iteration == 0
            && r.saved.lastKeptCommit == Last(r.ledger).keptCommit
            && forall k :: 0 < k < |r.ledger| ==> Follows(r.ledger, k)
  {
    var d := Driven(Start(policy, shortHead, head, outcome, gitAfter), false);
    RunKeeps(d, run);
    var r := After(d, run).run;
    forall k | 0 < k < |r.ledger| ensures Follows(r.ledger, k) {
      assert Linked(r.saved.keepPolicy, r.ledger, k);
    }
  }

  // ----- keeping the best

  ghost predicate IsBest(ledger: seq<Entry>, best: real) {
    && (exists k :: 0 <= k < |ledger| && PassingScore(ledger[k]) == Some(best))
    && (forall k :: 0 <= k < |ledger| && PassingScore(ledger[k]).Some? ==> PassingScore(ledger[k]).value <= best)
  }

  lemma {:induction false} TrackedIsBest(ledger: seq<Entry>)
    requires ledger != []
    ensures PassingScore(ledger[0]).None? <==> Tracked(ScoreImprovement, ledger).None?
    ensures Tracked(ScoreImprovement, ledger).Some? ==> IsBest(ledger, Tracked(ScoreImprovement, ledger).value)
  {
    if |ledger| > 1 {
      var n := |ledger| - 1;
      var front := ledger[..n];
      TrackedIsBest(front);
      var t := Tracked(ScoreImprovement, ledger);
      if t.Some? {
        var k :| 0 <= k < |front| && PassingScore(front[k]) == Some(Tracked(ScoreImprovement, front).value);
        assert ledger[k] == front[k];
        assert PassingScore(ledger[if t == Tracked(ScoreImprovement, front) then k else n]) == t;
        forall i | 0 <= i < |ledger| && PassingScore(ledger[i]).Some? ensures PassingScore(ledger[i]).value <= t.value {
          if i < n { assert front[i] == ledger[i]; }
        }
      }
    }
  }

  /** The kept commit is the one whose entry has the tracked score: the baseline's or a keep's. */
  lemma {:induction false} KeptIsBest(ledger: seq<Entry>) returns (k: nat)
    requires Chained(ScoreImprovement, ledger)
    ensures k < |ledger| && (k == 0 || ledger[k].decision == Keep)
    ensures PassingScore(ledger[k]) == Tracked(ScoreImprovement, ledger)
    ensures ledger[k].keptCommit == Last(ledger).keptCommit
  {
    var n := |ledger| - 1;
    if n == 0 {
      k := 0;
    } else {
      var front := ledger[..n];
      assert Linked(ScoreImprovement, ledger, n);
      if ledger[n].decision == Keep {
        k := n;
      } else {
        forall i | 0 < i < |front| ensures Linked(ScoreImprovement, front, i) {
          assert Linked(ScoreImprovement, ledger, i);
          assert front[..i] == ledger[..i];
        }
        k := KeptIsBest(front);
        NotKeptNotTracked(ledger);
      }
    }
  }

  lemma {:induction false} NotKeptNotTracked(ledger: seq<Entry>)
    requires |ledger| > 1 && Linked(ScoreImprovement, ledger, |ledger| - 1) && Last(ledger).decision != Keep
    ensures Tracked(ScoreImprovement, ledger) == Tracked(ScoreImprovement, ledger[..|ledger| - 1])
  {
  }

  /** Every keep beats all passing scores before it. */
  lemma {:induction false} KeepBeatsAll(ledger: seq<Entry>, k: nat)
    requires Chained(ScoreImprovement, ledger) && 0 < k < |ledger| && ledger[k].decision == Keep
    ensures PassingScore(ledger[k]).Some?
    ensures forall i :: 0 <= i < k && PassingScore(ledger[i]).Some? ==>
      PassingScore(ledger[i]).value < PassingScore(ledger[k]).value
  {
    assert Linked(ScoreImprovement, ledger, k);
    TrackedIsBest(ledger[..k]);
    forall i | 0 <= i < k && PassingScore(ledger[i]).Some?
      ensures PassingScore(ledger[i]).value < PassingScore(ledger[k]).value
    {
      assert ledger[..k][i] == ledger[i];
    }
  }

  /** Without a passing numeric baseline nothing is ever kept. */
  lemma {:induction false} NoBaselineNothingKept(ledger: seq<Entry>, k: nat)
    requires Chained(ScoreImprovement, ledger) && PassingScore(ledger[0]).None? && k < |ledger|
    ensures ledger[k].decision != Keep
    ensures ledger[k].keptCommit == ledger[0].keptCommit
  {
    if k > 0 {
      NoBaselineNothingKept(ledger, k - 1);
      assert Linked(ScoreImprovement, ledger, k);
      TrackedIsBest(ledger[..k]);
    }
  }

  /** The supervisor keeps the best. In every run under score_improvement: if the baseline has no
      passing numeric score the last kept commit never changes; otherwise the last kept score is
      the maximum of all passing scores in the ledger, baseline included, the kept commit is the
      one that scored it, and every keep beats everything before it. */
  lemma SupervisorKeepsBest(shortHead: string, head: Commit, outcome: EvaluatorOutcome, gitAfter: Git, run: seq<Event>)
    requires Possible(Driven(Start(ScoreImprovement, shortHead, head, outcome, gitAfter), false), run)
    ensures var r := After(Driven(Start(ScoreImprovement, shortHead, head, outcome, gitAfter), false), run).run;
            && r.ledger != []
            && (PassingScore(r.ledger[0]).None? ==>
                  && r.saved.lastKeptScore.None? && r.saved.lastKeptCommit == r.ledger[0].keptCommit
                  && forall k :: 0 <= k < |r.ledger| ==> r.ledger[k].decision != Keep)
            && (PassingScore(r.ledger[0]).Some? ==>
                  && r.saved.lastKeptScore.Some? && IsBest(r.ledger, r.saved.lastKeptScore.value)
                  && (exists k :: 0 <= k < |r.ledger| && (k == 0 || r.ledger[k].decision == Keep)
                        && PassingScore(r.ledger[k]) == r.saved.lastKeptScore
                        && r.ledger[k].keptCommit == r.saved.lastKeptCommit))
            && (forall i, k :: 0 <= i < k < |r.ledger| && r.ledger[k].decision == Keep && PassingScore(r.ledger[i]).Some? ==>
                  PassingScore(r.ledger[k]).Some? && PassingScore(r.ledger[i]).value < PassingScore(r.ledger[k]).value)
  {
    var d := Driven(Start(ScoreImprovement, shortHead, head, outcome, gitAfter), false);
    RunKeeps(d, run);
    PolicyStays(d, run);
    var r := After(d, run).run;
    TrackedIsBest(r.ledger);
    if PassingScore(r.ledger[0]).None? {
      forall k | 0 <= k < |r.ledger| ensures r.ledger[k].decision != Keep && r.ledger[k].keptCommit == r.ledger[0].keptCommit {
        NoBaselineNothingKept(r.ledger, k);
      }
    } else {
      var k := KeptIsBest(r.ledger);
    }
    forall i, k | 0 <= i < k < |r.ledger| && r.ledger[k].decision == Keep && PassingScore(r.ledger[i]).Some?
      ensures PassingScore(r.ledger[k]).Some? && PassingScore(r.ledger[i]).value < PassingScore(r.ledger[k]).value
    {
      KeepBeatsAll(r.ledger, k);
    }
  }

  lemma {:induction false} StepPolicy(d: Driven, e: Event)
    requires Inv(d) && Enabled(d, e)
    ensures Apply(d, e).run.saved.keepPolicy == d.run.saved.keepPolicy
  {
  }

  lemma {:induction false} PolicyStays(d: Driven, run: seq<Event>)
    requires Inv(d) && Possible(d, run)
    ensures After(d, run).run.saved.keepPolicy == d.run.saved.keepPolicy
    decreases |run|
  {
    if run != [] {
      if run[0].Work? { WorkKeeps(d, run[0].session); }
      StepPolicy(d, run[0]);
      PolicyStays(Apply(d, run[0]), run[1..]);
    }
  }

  // ----- runs, step by step

  lemma {:induction false} RunAppend(d: Driven, run: seq<Event>, e: Event)
    requires Possible(d, run) && Enabled(After(d, run), e)
    ensures Possible(d, run + [e]) && After(d, run + [e]) == Apply(After(d, run), e)
    decreases |run|
  {
    if run == [] {
      assert run + [e] == [e] && [e][1..] == [];
    } else {
      assert (run + [e])[1..] == run[1..] + [e];
      RunAppend(Apply(d, run[0]), run[1..], e);
    }
  }

  /** In every run, right after an evaluated iteration HEAD is the last kept commit, on disk and in the ledger. */
  lemma {:induction false} HeadIsKept(policy: KeepPolicy, shortHead: string, head: Commit, outcome: EvaluatorOutcome, gitAfter: Git,
                                      run: seq<Event>, s: Session)
    requires var d := Driven(Start(policy, shortHead, head, outcome, gitAfter), false);
             && Possible(d, run) && Enabled(After(d, run), Work(s))
             && Evaluated(Process(After(d, run).run, s).1)
    ensures var d := Driven(Start(policy, shortHead, head, outcome, gitAfter), false);
            && Possible(d, run + [Work(s)])
            && var r := After(d, run + [Work(s)]).run;
               r.ledger != [] && r.git.head == r.saved.lastKeptCommit == Last(r.ledger).keptCommit
  {
    var d := Driven(Start(policy, shortHead, head, outcome, gitAfter), false);
    RunKeeps(d, run);
    WorkKeeps(After(d, run), s);
    RunAppend(d, run, Work(s));
  }

  // ----- what is kept is what was proposed

  /** The entry keeps the commit it names as its candidate. */
  predicate KeepsProposed(e: Entry) {
    e.decision == Keep ==> e.candidateCommit == Some(e.keptCommit)
  }

  predicate AllKeepProposed(ledger: seq<Entry>) {
    forall k :: 0 <= k < |ledger| ==> KeepsProposed(ledger[k])
  }

  /** The session proposes a valid candidate which passes well enough to be kept. */
  predicate Wins(m: Manifest, s: Session) {
    && s.artifact.Ok? && s.artifact.value.status == Proposed
    && Validate(m.lastKeptCommit, s.git.head, s.refs, s.artifact.value).Ok?
    && DecideOutcome(m.keepPolicy, m.lastKeptScore, Proposed, Some(RunEvaluator(s.outcome))).keep
  }

  /** The event is an iteration with a winning candidate whose evaluator moved HEAD. */
  predicate Drifts(d: Driven, e: Event) {
    e.Work? && e.session.gitAfter.head != e.session.git.head && Wins(d.run.manifest, e.session)
  }

  predicate NeverDrifts(d: Driven, run: seq<Event>)
    requires Possible(d, run)
    decreases |run|
  {
    run == [] || (!Drifts(d, run[0]) && NeverDrifts(Apply(d, run[0]), run[1..]))
  }

  /** One event adds at most one entry, and it keeps another commit than the proposed one exactly if the event drifts. */
  lemma {:induction false} StepAdds(d: Driven, e: Event)
    requires Enabled(d, e)
    ensures var before, after := d.run.ledger, Apply(d, e).run.ledger;
            && before <= after && |after| <= |before| + 1
            && (Drifts(d, e) <==> |after| == |before| + 1 && !KeepsProposed(Last(after)))
  {
  }

  lemma {:induction false} RunGrows(d: Driven, run: seq<Event>)
    requires Possible(d, run)
    ensures d.run.ledger <= After(d, run).run.ledger
    decreases |run|
  {
    if run != [] {
      StepAdds(d, run[0]);
      RunGrows(Apply(d, run[0]), run[1..]);
    }
  }

  lemma {:induction false} ProposedFrom(d: Driven, run: seq<Event>)
    requires Possible(d, run) && AllKeepProposed(d.run.ledger)
    ensures AllKeepProposed(After(d, run).run.ledger) <==> NeverDrifts(d, run)
    decreases |run|
  {
    if run != [] {
      var t := Apply(d, run[0]);
      var before, after := d.run.ledger, t.run.ledger;
      StepAdds(d, run[0]);
      if Drifts(d, run[0]) {
        RunGrows(t, run[1..]);
        var end := After(d, run).run.ledger;
        assert end[|before|] == after[|before|];
        assert !KeepsProposed(end[|before|]);
      } else {
        forall k | 0 <= k < |after| ensures KeepsProposed(after[k]) {
          if k < |before| { assert after[k] == before[k]; }
        }
        ProposedFrom(t, run[1..]);
      }
    }
  }

  /** In every run, all kept commits are the proposed ones exactly when the evaluator never moved HEAD while it judged a
      winning candidate; in particular when it never moved HEAD at all. */
  lemma {:induction false} KeptIsProposedIff(policy: KeepPolicy, shortHead: string, head: Commit, outcome: EvaluatorOutcome, gitAfter: Git,
                                             run: seq<Event>)
    requires Possible(Driven(Start(policy, shortHead, head, outcome, gitAfter), false), run)
    ensures var d := Driven(Start(policy, shortHead, head, outcome, gitAfter), false);
            && (AllKeepProposed(After(d, run).run.ledger) <==> NeverDrifts(d, run))
            && ((forall i :: 0 <= i < |run| && run[i].Work? ==> run[i].session.gitAfter.head == run[i].session.git.head) ==>
                  AllKeepProposed(After(d, run).run.ledger))
  {
    var d := Driven(Start(policy, shortHead, head, outcome, gitAfter), false);
    ProposedFrom(d, run);
    if forall i :: 0 <= i < |run| && run[i].Work? ==> run[i].session.gitAfter.head == run[i].session.git.head {
      SteadyNeverDrifts(d, run);
    }
  }

  lemma {:induction false} SteadyNeverDrifts(d: Driven, run: seq<Event>)
    requires Possible(d, run)
    requires forall i :: 0 <= i < |run| && run[i].Work? ==> run[i].session.gitAfter.head == run[i].session.git.head
    ensures NeverDrifts(d, run)
    decreases |run|
  {
    if run != [] {
      forall i | 0 <= i < |run[1..]| && run[1..][i].Work?
        ensures run[1..][i].session.gitAfter.head == run[1..][i].session.git.head
      {
        assert run[1..][i] == run[i + 1];
      }
      SteadyNeverDrifts(Apply(d, run[0]), run[1..]);
    }
  }

  /** The iteration at which a run drifts is the one whose entry keeps the evaluator's commit instead. */
  lemma {:induction false} DriftNamesEntry(policy: KeepPolicy, shortHead: string, head: Commit, outcome: EvaluatorOutcome, gitAfter: Git,
                                           run: seq<Event>, s: Session)
    requires var d := Driven(Start(policy, shortHead, head, outcome, gitAfter), false);
             Possible(d, run) && Enabled(After(d, run), Work(s)) && Drifts(After(d, run), Work(s))
    ensures var d := Driven(Start(policy, shortHead, head, outcome, gitAfter), false);
            && Possible(d, run + [Work(s)])
            && var before, after := After(d, run).run.ledger, After(d, run + [Work(s)]).run.ledger;
               && |after| == |before| + 1 && Last(after).decision == Keep
               && Last(after).candidateCommit == Some(s.git.head) && Last(after).keptCommit == s.gitAfter.head
  {
    var d := Driven(Start(policy, shortHead, head, outcome, gitAfter), false);
    StepAdds(After(d, run), Work(s));
    RunAppend(d, run, Work(s));
  }

  /** A session whose evaluator commits on top of the candidate. */
  function DriftingSession(base: Commit, candidate: Commit, moved: Commit): Session {
    Session(Ok(Artifact(Proposed, Some(candidate), base)), map[base := base, candidate := candidate],
            Git(candidate, false), Reported(true, None), Git(moved, false))
  }

  /** There are such runs: one iteration under pass_only, whatever the three commits are called. */
  lemma {:induction false} DriftExample(shortHead: string, head: Commit, outcome: EvaluatorOutcome, gitAfter: Git, candidate: Commit, moved: Commit)
    requires candidate != "" && moved != candidate
    ensures var d, s := Driven(Start(PassOnly, shortHead, head, outcome, gitAfter), false), DriftingSession(head, candidate, moved);
            && Possible(d, [Work(s)]) && !NeverDrifts(d, [Work(s)])
            && After(d, [Work(s)]).run.ledger != []
            && var e := Last(After(d, [Work(s)]).run.ledger);
               e.decision == Keep && e.candidateCommit == Some(candidate) && e.keptCommit == moved
  {
    var d, s := Driven(Start(PassOnly, shortHead, head, outcome, gitAfter), false), DriftingSession(head, candidate, moved);
    assert [Work(s)][1..] == [];
    assert After(d, [Work(s)]) == Apply(d, Work(s));
  }
}
