/** The two-phase kill of the selected processes, against any behaviour of the system. */
module Kill {
  import opened Wrappers
  import opened Sequences
  import opened ProcessTree
  import opened Candidates

  const EXIT_POLL_MS: int := 100
  const SIGTERM_GRACE_MS: int := 5000

  datatype Signal = SigTerm | SigKill
  datatype Probe = Alive | Gone | ProbeThrows(error: string)
  datatype Sending = Sent | NoSuchProcess | SendThrows(error: string)

  /** The system's answers. Each question moves the time on by one tick; a sleep asked for at
      tick t ends at wake(t). */
  datatype System = System(
    probe: (nat, nat) -> Probe,
    send: (nat, nat, Signal) -> Sending,
    clock: nat -> int,
    wake: nat -> nat)

  /** After every sleep the clock has moved on. */
  ghost predicate ClockAdvances(sys: System) {
    forall t, u :: u >= sys.wake(t) ==> u > t && sys.clock(u) > sys.clock(t)
  }

  ghost predicate Seen(sys: System, pid: nat, what: Probe, from: nat, to: nat) {
    exists t :: from <= t < to && sys.probe(t, pid) == what
  }

  ghost predicate NoRepeats(s: seq<nat>) {
    forall i, j :: 0 <= i < j < |s| ==> s[i] != s[j]
  }

  ghost predicate Rising(s: seq<nat>) {
    forall i, j :: 0 <= i < j < |s| ==> s[i] < s[j]
  }

  /** Some probe of one of the pids, or some signal to it, threw this error. */
  ghost predicate Threw(sys: System, pids: seq<nat>, error: string) {
    || (exists t, p :: p in pids && sys.probe(t, p) == ProbeThrows(error))
    || (exists t, p, signal :: p in pids && sys.send(t, p, signal) == SendThrows(error))
  }

  lemma {:induction false} RisingMore(s: seq<nat>, all: seq<nat>, i: nat)
    requires i < |all| && forall p :: p in s ==> p in all[..i]
    ensures Rising(all) && Rising(s) ==> Rising(s + [all[i]])
  {
    if Rising(all) && Rising(s) {
      forall k | 0 <= k < |s| ensures s[k] < all[i] {
        assert s[k] in all[..i];
        var j :| 0 <= j < i && all[..i][j] == s[k];
      }
    }
  }

  /** One round of liveness checks; those found gone leave the list, which keeps its order. */
  method DropExited(pids: seq<nat>, sys: System, start: nat) returns (r: Result<seq<nat>, string>, end: nat)
    requires NoRepeats(pids)
    ensures start <= end
    ensures r.Err? ==> Threw(sys, pids, r.error)
    ensures r.Ok? && Rising(pids) ==> Rising(r.value)
    ensures r.Ok? ==>
      && NoRepeats(r.value) && (forall p :: p in r.value ==> p in pids)
      && (forall p :: p in r.value ==> Seen(sys, p, Alive, start, end))
      && (forall p :: p in pids && p !in r.value ==> Seen(sys, p, Gone, start, end))
  {
    var left: seq<nat> := [];
    end := start;
    for i := 0 to |pids|
      invariant start <= end
      invariant NoRepeats(left) && forall p :: p in left ==> p in pids[..i]
      invariant Rising(pids) ==> Rising(left)
      invariant forall p :: p in left ==> Seen(sys, p, Alive, start, end)
      invariant forall p :: p in pids[..i] && p !in left ==> Seen(sys, p, Gone, start, end)
    {
      var answer := sys.probe(end, pids[i]);
      assert pids[..i + 1] == pids[..i] + [pids[i]];
      ghost var before := end;
      end := end + 1;
      SeenLonger(sys, pids[..i], start, before, end);
      match answer {
        case ProbeThrows(error) => return Err(error), end;
        case Alive =>
          assert Seen(sys, pids[i], Alive, start, end);
          RisingMore(left, pids, i);
          left := left + [pids[i]];
        case Gone =>
          assert Seen(sys, pids[i], Gone, start, end);
      }
    }
    assert pids[..|pids|] == pids;
    r := Ok(left);
  }

  lemma {:induction false} SeenLonger(sys: System, pids: seq<nat>, start: nat, end: nat, later: nat)
    requires end <= later
    ensures forall p, what :: p in pids && Seen(sys, p, what, start, end) ==> Seen(sys, p, what, start, later)
  {
    forall p, what | p in pids && Seen(sys, p, what, start, end) ensures Seen(sys, p, what, start, later) {
      var t :| start <= t < end && sys.probe(t, p) == what;
      assert start <= t < later;
    }
  }

  /** Collects the pids that are alive at first sight, each once; pid 0 is never asked about. */
  method AliveAtFirst(pids: seq<nat>, sys: System, start: nat) returns (r: Result<seq<nat>, string>, end: nat)
    ensures start <= end
    ensures r.Err? ==> Threw(sys, pids, r.error)
    ensures r.Ok? && Rising(pids) ==> Rising(r.value)
    ensures r.Ok? ==>
      && NoRepeats(r.value) && (forall p :: p in r.value ==> p in pids && p > 0)
      && (forall p :: p in pids && p > 0 && p !in r.value ==> Seen(sys, p, Gone, start, end))
  {
    var alive: seq<nat> := [];
    end := start;
    for i := 0 to |pids|
      invariant start <= end
      invariant NoRepeats(alive) && forall p :: p in alive ==> p in pids[..i] && p > 0
      invariant Rising(pids) ==> Rising(alive)
      invariant forall p :: p in pids[..i] && p > 0 && p !in alive ==> Seen(sys, p, Gone, start, end)
    {
      assert pids[..i + 1] == pids[..i] + [pids[i]];
      if pids[i] > 0 {
        var answer := sys.probe(end, pids[i]);
        ghost var before := end;
        end := end + 1;
        SeenLonger(sys, pids[..i], start, before, end);
        match answer {
          case ProbeThrows(error) => return Err(error), end;
          case Alive =>
            RisingMore(alive, pids, i);
            if pids[i] !in alive { alive := alive + [pids[i]]; }
          case Gone =>
            assert Seen(sys, pids[i], Gone, start, end);
        }
      }
    }
    assert pids[..|pids|] == pids;
    r := Ok(alive);
  }

  /** Polls until everybody has left or the deadline has passed. Who is still listed at the end
      was seen alive by a check made after the deadline; everybody else was seen gone. */
  method WaitForPidsToExit(pids: seq<nat>, timeoutMs: int, sys: System, start: nat)
    returns (r: Result<seq<nat>, string>, end: nat, ghost armed: nat, ghost late: nat)
    requires ClockAdvances(sys)
    ensures start <= armed <= late <= end
    ensures r.Err? ==> Threw(sys, pids, r.error)
    ensures r.Ok? && Rising(pids) ==> Rising(r.value)
    ensures r.Ok? ==>
      && NoRepeats(r.value) && (forall p :: p in r.value ==> p in pids && p > 0)
      && (forall p :: p in pids && p > 0 && p !in r.value ==> Seen(sys, p, Gone, start, end))
      && (forall p :: p in r.value ==> Seen(sys, p, Alive, late, end))
      && (r.value != [] ==> sys.clock(late) >= sys.clock(armed) + (if timeoutMs > 0 then timeoutMs else 0))
  {
    r, end := AliveAtFirst(pids, sys, start);
    armed, late := end, end;
    if r.Err? || r.value == [] { return; }
    var remaining := r.value;
    var deadline := sys.clock(end) + (if timeoutMs > 0 then timeoutMs else 0);
    end := end + 1;
    late := end;
    while sys.clock(end) < deadline && |remaining| > 0
      invariant start <= armed <= late <= end
      invariant NoRepeats(remaining) && forall p :: p in remaining ==> p in pids && p > 0
      invariant Rising(pids) ==> Rising(remaining)
      invariant forall p :: p in pids && p > 0 && p !in remaining ==> Seen(sys, p, Gone, start, end)
      decreases deadline - sys.clock(end)
    {
      ghost var asked := end;
      var woken := sys.wake(end);
      assert woken > end;
      SeenLonger(sys, pids, start, end, woken);
      var next;
      next, end := DropExited(remaining, sys, woken);
      late := end;
      if next.Err? { return next, end, armed, late; }
      SeenLonger(sys, pids, start, woken, end);
      SeenEarlier(sys, pids, start, woken, end);
      remaining := next.value;
      assert sys.clock(end) > sys.clock(asked);
    }
    late := end;
    ghost var before := end;
    end := end + 1;
    var last;
    last, end := DropExited(remaining, sys, end);
    if last.Err? { return last, end, armed, late; }
    SeenLonger(sys, pids, start, before, end);
    SeenEarlier(sys, pids, start, before + 1, end);
    SeenEarlier(sys, pids, late, before + 1, end);
    r := last;
    if r.value != [] { assert r.value[0] in remaining; }
  }

  lemma {:induction false} SeenEarlier(sys: System, pids: seq<nat>, earlier: nat, start: nat, end: nat)
    requires earlier <= start
    ensures forall p, what :: p in pids && Seen(sys, p, what, start, end) ==> Seen(sys, p, what, earlier, end)
  {
    forall p, what | p in pids && Seen(sys, p, what, start, end) ensures Seen(sys, p, what, earlier, end) {
      var t :| start <= t < end && sys.probe(t, p) == what;
      assert earlier <= t < end;
    }
  }

  datatype Signalled = Signalled(signal: Signal, pid: nat)

  function Signals(signal: Signal, pids: seq<nat>): (r: seq<Signalled>)
    ensures |r| == |pids| && forall i :: 0 <= i < |pids| ==> r[i] == Signalled(signal, pids[i])
  {
    seq(|pids|, i requires 0 <= i < |pids| => Signalled(signal, pids[i]))
  }

  /** Signals one process after another until a send fails; one that is already gone does not count. */
  method SendAll(pids: seq<nat>, signal: Signal, sys: System, start: nat)
    returns (error: Option<string>, log: seq<Signalled>, end: nat)
    ensures start <= end && log <= Signals(signal, pids)
    ensures error.None? <==> forall i :: 0 <= i < |pids| ==> !sys.send(start + i, pids[i], signal).SendThrows?
    ensures error.Some? ==> Threw(sys, pids, error.value)
    ensures error.None? ==> log == Signals(signal, pids) && end == start + |pids|
  {
    end, log := start, [];
    for i := 0 to |pids|
      invariant end == start + i && log == Signals(signal, pids)[..i]
      invariant forall k :: 0 <= k < i ==> !sys.send(start + k, pids[k], signal).SendThrows?
    {
      var outcome := sys.send(end, pids[i], signal);
      log := log + [Signalled(signal, pids[i])];
      end := end + 1;
      if outcome.SendThrows? { return Some(outcome.error), log, end; }
    }
    error := None;
  }

  datatype CleanupResult = CleanupResult(
    dryRun: bool,
    candidates: seq<Candidate>,
    terminatedCount: int,
    forceKilledCount: int,
    failedPids: seq<nat>)

  function PidsOf(s: seq<Candidate>): (r: seq<nat>)
    ensures |r| == |s| && forall i :: 0 <= i < |s| ==> r[i] == s[i].process.pid
  {
    seq(|s|, i requires 0 <= i < |s| => s[i].process.pid)
  }

  function AmongPids(pids: seq<nat>): Candidate -> bool {
    (c: Candidate) => c.process.pid in pids
  }

  function NotAmongPids(pids: seq<nat>): Candidate -> bool {
    (c: Candidate) => c.process.pid !in pids
  }

  ghost function Elements(s: seq<nat>): set<nat> {
    set x | x in s
  }

  lemma {:induction false} NoRepeatsSize(s: seq<nat>)
    requires NoRepeats(s)
    ensures |Elements(s)| == |s|
  {
    if s != [] {
      var n := |s| - 1;
      NoRepeatsSize(s[..n]);
      assert s == s[..n] + [s[n]];
      assert Elements(s) == Elements(s[..n]) + {s[n]};
      assert s[n] !in Elements(s[..n]);
    }
  }

  lemma {:induction false} FilterSplits(s: seq<Candidate>, pids: seq<nat>)
    ensures |Filter(s, AmongPids(pids))| + |Filter(s, NotAmongPids(pids))| == |s|
  {
    if s != [] { FilterSplits(s[1..], pids); }
  }

  /** As many candidates are among `pids` as there are pids. */
  lemma {:induction false} AmongCount(s: seq<Candidate>, pids: seq<nat>)
    requires Distinct(s, CandidatePid) && NoRepeats(pids)
    requires forall p :: p in pids ==> p in PidsOf(s)
    ensures |Filter(s, AmongPids(pids))| == |pids|
    ensures |Filter(s, NotAmongPids(pids))| == |s| - |pids|
    ensures forall p :: p in PidsOf(Filter(s, AmongPids(pids))) <==> p in pids
  {
    var among := Filter(s, AmongPids(pids));
    FilterContents(s, AmongPids(pids));
    FilterDistinct(s, AmongPids(pids), CandidatePid);
    FilterSplits(s, pids);
    var amongPids := PidsOf(among);
    PidsDiffer(among);
    forall p ensures p in amongPids <==> p in pids {
      if p in PidsOf(s) { PidAmong(s, among, pids, p); }
      if p in amongPids {
        var j :| 0 <= j < |amongPids| && amongPids[j] == p;
        assert among[j] in among;
      }
    }
    NoRepeatsSize(pids);
    NoRepeatsSize(amongPids);
    assert Elements(pids) == Elements(amongPids);
  }

  lemma {:induction false} PidAmong(s: seq<Candidate>, among: seq<Candidate>, pids: seq<nat>, p: nat)
    requires forall c :: c in s && c.process.pid in pids ==> c in among
    requires p in PidsOf(s)
    ensures p in pids ==> p in PidsOf(among)
  {
    var i :| 0 <= i < |s| && PidsOf(s)[i] == p;
    assert s[i] in s;
    if p in pids {
      var j :| 0 <= j < |among| && among[j] == s[i];
      assert PidsOf(among)[j] == p;
    }
  }

  /** One round of signals and waiting: sent by `sent`, the deadline set at `armed`, over by `late`. */
  datatype Round = Round(sent: nat, armed: nat, late: nat, end: nat)

  ghost predicate InOrder(r: Round) {
    r.sent <= r.armed <= r.late <= r.end
  }

  /** Who was still there after a round: seen alive once its time was up, while everybody else was seen gone. */
  ghost predicate Outlived(pids: seq<nat>, left: seq<nat>, timeoutMs: int, sys: System, r: Round) {
    && InOrder(r)
    && NoRepeats(left) && (forall p :: p in left ==> p in pids)
    && (forall p :: p in left ==> Seen(sys, p, Alive, r.late, r.end))
    && (forall p :: p in pids && p !in left ==> Seen(sys, p, Gone, r.sent, r.end))
    && (left != [] ==> sys.clock(r.late) >= sys.clock(r.armed) + timeoutMs)
  }

  /** How a finished cleanup accounts for its candidates: SIGKILL went to those that outlived SIGTERM, those that
      outlived SIGKILL failed, and every candidate that did not fail counts as terminated. */
  ghost predicate Accounted(r: CleanupResult, killed: seq<nat>, sys: System, term: Round, kill: Round) {
    && Outlived(PidsOf(r.candidates), killed, SIGTERM_GRACE_MS, sys, term)
    && Outlived(killed, r.failedPids, EXIT_POLL_MS, sys, kill)
    && term.end <= kill.sent
    && r.terminatedCount == |Filter(r.candidates, NotAmongPids(r.failedPids))|
    && r.terminatedCount + |r.failedPids| == |r.candidates|
    && r.forceKilledCount + |r.failedPids| == |killed|
    && 0 <= r.forceKilledCount <= r.terminatedCount
  }

  /** The accounts when SIGTERM was enough. */
  lemma {:induction false} AllGone(candidates: seq<Candidate>, sys: System, term: Round)
    requires Outlived(PidsOf(candidates), [], SIGTERM_GRACE_MS, sys, term)
    ensures Accounted(CleanupResult(false, candidates, |candidates|, 0, []), [], sys, term, AtOnce(term.end))
  {
    FilterNone(candidates);
  }

  function AtOnce(tick: nat): Round { Round(tick, tick, tick, tick) }

  lemma {:induction false} FilterNone(s: seq<Candidate>)
    ensures |Filter(s, NotAmongPids([]))| == |s|
  {
    if s != [] { FilterNone(s[1..]); }
  }

  /** The pids of the candidates that still run are the pids still running, in the candidates' order. */
  lemma {:induction false} StillRunning(candidates: seq<Candidate>, waited: seq<nat>)
    requires Distinct(candidates, CandidatePid)
    requires NoRepeats(waited) && forall p :: p in waited ==> p in PidsOf(candidates)
    ensures var still := PidsOf(Filter(candidates, AmongPids(waited)));
            && |still| == |waited| <= |candidates| && NoRepeats(still) && (forall p :: p in still <==> p in waited)
            && (Increasing(candidates, CandidatePid) ==> Rising(still))
    ensures forall c :: c in Filter(candidates, AmongPids(waited)) ==> c in candidates
  {
    FilterContents(candidates, AmongPids(waited));
    AmongCount(candidates, waited);
    var among := Filter(candidates, AmongPids(waited));
    FilterDistinct(candidates, AmongPids(waited), CandidatePid);
    PidsDiffer(among);
    if Increasing(candidates, CandidatePid) {
      FilterIncreasing(candidates, AmongPids(waited), CandidatePid);
      PidsRise(among);
    }
  }

  lemma {:induction false} PidsDiffer(s: seq<Candidate>)
    requires Distinct(s, CandidatePid)
    ensures NoRepeats(PidsOf(s))
  {
    forall i, j | 0 <= i < j < |s| ensures PidsOf(s)[i] != PidsOf(s)[j] {
      assert CandidatePid(s[i]) != CandidatePid(s[j]);
    }
  }

  lemma {:induction false} PidsRise(s: seq<Candidate>)
    requires Increasing(s, CandidatePid)
    ensures Rising(PidsOf(s))
  {
    forall i, j | 0 <= i < j < |s| ensures PidsOf(s)[i] < PidsOf(s)[j] {
      assert CandidatePid(s[i]) < CandidatePid(s[j]);
    }
  }

  /** The accounts when SIGKILL followed for those still running. */
  lemma {:induction false} SomeForced(candidates: seq<Candidate>, killed: seq<nat>, failed: seq<nat>, sys: System, term: Round, kill: Round)
    requires Distinct(candidates, CandidatePid) && |killed| <= |candidates| && term.end <= kill.sent
    requires Outlived(PidsOf(candidates), killed, SIGTERM_GRACE_MS, sys, term)
    requires Outlived(killed, failed, EXIT_POLL_MS, sys, kill)
    ensures Accounted(CleanupResult(false, candidates, |candidates| - |failed|, |killed| - |failed|, failed), killed, sys, term, kill)
  {
    AmongCount(candidates, failed);
    SubsetSize(failed, killed);
  }

  lemma {:induction false} SubsetSize(s: seq<nat>, t: seq<nat>)
    requires NoRepeats(s) && NoRepeats(t) && forall x :: x in s ==> x in t
    ensures |s| <= |t|
  {
    NoRepeatsSize(s);
    NoRepeatsSize(t);
    SubsetCount(Elements(s), Elements(t));
  }

  /** Waits for signalled processes and lists those of them that are still there. */
  method AwaitRound(candidates: seq<Candidate>, timeoutMs: int, sys: System, start: nat)
    returns (r: Result<seq<Candidate>, string>, end: nat, ghost round: Round, left: seq<nat>)
    requires forall c :: c in candidates ==> c.process.pid > 0
    requires ClockAdvances(sys) && timeoutMs > 0
    ensures r.Err? ==> Threw(sys, PidsOf(candidates), r.error)
    ensures r.Ok? && Rising(PidsOf(candidates)) ==> Rising(left)
    ensures r.Ok? ==>
              && round.sent == start && round.end == end && Outlived(PidsOf(candidates), left, timeoutMs, sys, round)
              && r.value == Filter(candidates, AmongPids(left))
  {
    ghost var armed, late;
    var waited;
    ListsPids(candidates);
    waited, end, armed, late := WaitForPidsToExit(PidsOf(candidates), timeoutMs, sys, start);
    round, left := Round(start, armed, late, end), [];
    if waited.Err? { return Err(waited.error), end, round, left; }
    left := waited.value;
    r := Ok(Filter(candidates, AmongPids(left)));
  }

  lemma {:induction false} OutlivedSame(pids: seq<nat>, left: seq<nat>, same: seq<nat>, timeoutMs: int, sys: System, r: Round)
    requires Outlived(pids, left, timeoutMs, sys, r)
    requires NoRepeats(same) && |same| == |left| && forall p :: p in same <==> p in left
    ensures Outlived(pids, same, timeoutMs, sys, r)
  {
  }

  method CleanupOmxMcpProcesses(candidates: seq<Candidate>, dryRun: bool, sys: System)
    returns (r: Result<CleanupResult, string>, log: seq<Signalled>, ghost killed: seq<nat>, ghost term: Round, ghost kill: Round)
    requires Distinct(candidates, CandidatePid) && forall c :: c in candidates ==> c.process.pid > 0
    requires ClockAdvances(sys)
    ensures log <= Signals(SigTerm, PidsOf(candidates)) + Signals(SigKill, killed)
    ensures forall p :: p in killed ==> p in PidsOf(candidates)
    ensures r.Err? ==> Threw(sys, PidsOf(candidates), r.error)
    ensures r.Ok? && Increasing(candidates, CandidatePid) ==> Rising(killed) && Rising(r.value.failedPids)
    ensures dryRun ==> log == [] && r == Ok(CleanupResult(true, candidates, 0, 0, []))
    ensures !dryRun && r.Ok? ==>
              && r.value.candidates == candidates && !r.value.dryRun
              && log == Signals(SigTerm, PidsOf(candidates)) + Signals(SigKill, killed)
              && term.sent == |candidates| && Accounted(r.value, killed, sys, term, kill)
  {
    log, killed, term, kill := [], [], AtOnce(0), AtOnce(0);
    if |candidates| == 0 || dryRun {
      if |candidates| == 0 { AllGone(candidates, sys, term); }
      return Ok(CleanupResult(dryRun, candidates, 0, 0, [])), log, killed, term, kill;
    }
    var error, tick;
    error, log, tick := SendAll(PidsOf(candidates), SigTerm, sys, 0);
    if error.Some? { return Err(error.value), log, killed, term, kill; }
    var waited, left;
    waited, tick, term, left := AwaitRound(candidates, SIGTERM_GRACE_MS, sys, tick);
    if waited.Err? { return Err(waited.error), log, killed, term, kill; }
    var stillRunning := waited.value;
    StillRunning(candidates, left);
    OutlivedSame(PidsOf(candidates), left, PidsOf(stillRunning), SIGTERM_GRACE_MS, sys, term);
    var terminatedCount := |candidates| - |stillRunning|;
    kill := AtOnce(tick);
    if |stillRunning| == 0 {
      AllGone(candidates, sys, term);
      return Ok(CleanupResult(false, candidates, terminatedCount, 0, [])), log, killed, term, kill;
    }
    killed := PidsOf(stillRunning);
    r, log, kill := ForceKill(candidates, stillRunning, log, sys, tick, term);
  }

  /** The escalation to SIGKILL. */
  method ForceKill(candidates: seq<Candidate>, stillRunning: seq<Candidate>, log0: seq<Signalled>, sys: System, start: nat, ghost term: Round)
    returns (r: Result<CleanupResult, string>, log: seq<Signalled>, ghost kill: Round)
    requires Distinct(candidates, CandidatePid) && |stillRunning| <= |candidates|
    requires ClockAdvances(sys) && forall c :: c in stillRunning ==> c.process.pid > 0
    requires term.end <= start && Outlived(PidsOf(candidates), PidsOf(stillRunning), SIGTERM_GRACE_MS, sys, term)
    ensures log <= log0 + Signals(SigKill, PidsOf(stillRunning)) && log0 <= log
    ensures r.Err? ==> Threw(sys, PidsOf(stillRunning), r.error)
    ensures r.Ok? && Rising(PidsOf(stillRunning)) ==> Rising(r.value.failedPids)
    ensures r.Ok? ==>
              && log == log0 + Signals(SigKill, PidsOf(stillRunning))
              && r.value.candidates == candidates && !r.value.dryRun
              && Accounted(r.value, PidsOf(stillRunning), sys, term, kill)
  {
    var error, kills, tick := SendAll(PidsOf(stillRunning), SigKill, sys, start);
    log, kill := log0 + kills, AtOnce(start);
    if error.Some? { return Err(error.value), log, kill; }
    var force, failedPids;
    force, tick, kill, failedPids := AwaitRound(stillRunning, EXIT_POLL_MS, sys, tick);
    if force.Err? { return Err(force.error), log, kill; }
    var terminatedCount := |candidates| - |stillRunning|;
    var forceKilledCount := |stillRunning| - |failedPids|;
    SomeForced(candidates, PidsOf(stillRunning), failedPids, sys, term, kill);
    r := Ok(CleanupResult(false, candidates, terminatedCount + forceKilledCount, forceKilledCount, failedPids));
  }

  lemma {:induction false} ListsPids(s: seq<Candidate>)
    ensures forall c :: c in s ==> c.process.pid in PidsOf(s)
    ensures forall p :: p in PidsOf(s) ==> exists c :: c in s && c.process.pid == p
  {
    forall c | c in s ensures c.process.pid in PidsOf(s) {
      var i :| 0 <= i < |s| && s[i] == c;
      assert PidsOf(s)[i] == c.process.pid;
    }
    forall p | p in PidsOf(s) ensures exists c :: c in s && c.process.pid == p {
      var i :| 0 <= i < |s| && PidsOf(s)[i] == p;
      assert s[i] in s;
    }
  }
}
