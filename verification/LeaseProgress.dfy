/** The owner of the lock gets its operation done, whatever the other processes do meanwhile. */
module LeaseProgress {
  import opened Wrappers
  import opened Text
  import opened LeaseFile
  import opened LeaseMicro
  import opened LeaseRefinement

  function Unprobed(raw: Option<Lease>, mask: seq<bool>): nat {
    if raw.Some? && |mask| < |raw.value.holders| then |raw.value.holders| - |mask| else 0
  }

  /** How many of its own steps the owner has ahead of it at most: two for every holder it still has to probe, and a few more. */
  function StepsLeft(m: Micro, pid: nat): nat
    requires InCritical(m, pid)
  {
    var Critical(op, raw, mask, phase) := m.pcs[pid];
    match phase
    case WritePid => 2 * Unprobed(m.shared.lease, []) + 12
    case Read => 2 * Unprobed(m.shared.lease, []) + 11
    case ProbePid => 2 * Unprobed(raw, mask) + 10
    case ProbeTicks => 2 * Unprobed(raw, mask) + 9
    case Restore => 8
    case Remove => 7
    case Show => 6
    case SetAlways(_) => 5
    case Create(_, _) => 4
    case Write(_, _, _, _) => 3
    case UnlockAcquire(_, _) => 1
    case UnlockRelease => 1
  }

  lemma {:induction false} EnterSooner(m: Micro, pid: nat)
    requires InCritical(m, pid) && (m.pcs[pid].phase.WritePid? || m.pcs[pid].phase.Read?)
    ensures var t := Critically(m, pid); InCritical(t, pid) && StepsLeft(t, pid) < StepsLeft(m, pid)
  {
  }

  lemma {:induction false} ProbeSooner(m: Micro, pid: nat)
    requires InCritical(m, pid) && PcOk(m, pid) && Probing(m.pcs[pid].phase)
    ensures var t := Critically(m, pid); InCritical(t, pid) && StepsLeft(t, pid) < StepsLeft(m, pid)
  {
  }

  lemma {:induction false} CommandSooner(m: Micro, pid: nat)
    requires InCritical(m, pid) && PcOk(m, pid)
    requires var phase := m.pcs[pid].phase; phase.Restore? || phase.Remove? || phase.Show? || phase.SetAlways?
    ensures var t := Critically(m, pid); InCritical(t, pid) && StepsLeft(t, pid) < StepsLeft(m, pid)
  {
  }

  lemma {:induction false} FileSooner(m: Micro, pid: nat)
    requires InCritical(m, pid) && (m.pcs[pid].phase.Create? || m.pcs[pid].phase.Write?)
    ensures var t := Critically(m, pid); InCritical(t, pid) && StepsLeft(t, pid) < StepsLeft(m, pid)
  {
  }

  /** Every step of the owner but the last brings it closer. */
  lemma {:induction false} OwnStep(m: Micro, pid: nat, user: Mode)
    requires Inv(m, user) && InCritical(m, pid) && !Unlocking(m, pid)
    ensures var t := Apply(m, Advance(pid)); InCritical(t, pid) && StepsLeft(t, pid) < StepsLeft(m, pid)
  {
    assert PcOk(m, pid);
    var phase := m.pcs[pid].phase;
    if phase.WritePid? || phase.Read? { EnterSooner(m, pid); }
    else if Probing(phase) { ProbeSooner(m, pid); }
    else if phase.Create? || phase.Write? { FileSooner(m, pid); }
    else { CommandSooner(m, pid); }
  }

  /** No step of anybody else sets it back. */
  lemma {:induction false} OtherStep(m: Micro, pid: nat, e: Event, user: Mode)
    requires Inv(m, user) && InCritical(m, pid) && Enabled(m, e) && e != Advance(pid) && !e.JudgeStale?
    ensures var t := Apply(m, e); InCritical(t, pid) && t.pcs[pid] == m.pcs[pid] && t.shared == m.shared
  {
    assert PcOk(m, pid);
    if e.Advance? { assert PcOk(m, e.pid) && !InCritical(m, e.pid); }
  }

  function Advances(run: seq<Event>, pid: nat): nat {
    if run == [] then 0 else (if run[0] == Advance(pid) then 1 else 0) + Advances(run[1..], pid)
  }

  lemma {:induction false} FirstThen(m: Micro, run: seq<Event>, k: nat)
    requires Possible(m, run) && run != [] && k < |run| && Possible(Apply(m, run[0]), run[1..][..k])
    ensures Possible(m, run[..k + 1]) && After(m, run[..k + 1]) == After(Apply(m, run[0]), run[1..][..k])
  {
    assert run[..k + 1][1..] == run[1..][..k];
  }

  lemma {:induction false} AnyStep(m: Micro, pid: nat, e: Event, user: Mode)
    requires Inv(m, user) && InCritical(m, pid) && Enabled(m, e) && !e.JudgeStale?
    requires e != Advance(pid) || !Unlocking(m, pid)
    ensures var t := Apply(m, e);
            InCritical(t, pid) && StepsLeft(t, pid) + (if e == Advance(pid) then 1 else 0) <= StepsLeft(m, pid)
  {
    if e == Advance(pid) { OwnStep(m, pid, user); } else { OtherStep(m, pid, e, user); }
  }

  lemma {:induction false} LastStep(m: Micro, pid: nat)
    requires InCritical(m, pid) && Unlocking(m, pid)
    ensures var t := After(m, [Advance(pid)]);
            Possible(m, [Advance(pid)]) && !t.locked && pid in t.pcs && t.pcs[pid].Idle?
  {
    assert [Advance(pid)][1..] == [];
    assert After(m, [Advance(pid)]) == Apply(m, Advance(pid));
  }

  /** Once it has made as many steps as it had left, however the others' steps fall between them, it has removed the lock. */
  lemma {:induction false} OwnerFinishes(m: Micro, run: seq<Event>, pid: nat, user: Mode) returns (k: nat)
    requires Inv(m, user) && InCritical(m, pid) && Possible(m, run) && NeverStale(run)
    requires Advances(run, pid) >= StepsLeft(m, pid)
    ensures k <= |run| && Possible(m, run[..k])
    ensures !After(m, run[..k]).locked && pid in After(m, run[..k]).pcs && After(m, run[..k]).pcs[pid].Idle?
    decreases |run|
  {
    var e := run[0];
    if e == Advance(pid) && Unlocking(m, pid) {
      k := 1;
      assert run[..1] == [e];
      LastStep(m, pid);
    } else {
      StepKeeps(m, e, user);
      AnyStep(m, pid, e, user);
      var k' := OwnerFinishes(Apply(m, e), run[1..], pid, user);
      FirstThen(m, run, k');
      k := k' + 1;
    }
  }

  // ----- waiting

  function Tries(pid: nat, n: nat): seq<Event> {
    if n == 0 then [] else [Advance(pid)] + Tries(pid, n - 1)
  }

  /** A process that asks for the lock tries a hundred times, gives up when the last try finds the lock taken as well, and
      touches nothing meanwhile. */
  lemma {:induction false} WaitsItsTurn(m: Micro, pid: nat, n: nat)
    requires pid in m.pcs && m.pcs[pid].Waiting? && m.locked && m.pcs[pid].attempts + n <= 100 && m.pcs[pid].attempts < 100
    ensures var op, made := m.pcs[pid].op, m.pcs[pid].attempts + n;
            && Possible(m, Tries(pid, n))
            && After(m, Tries(pid, n)) == m.(pcs := m.pcs[pid := if made < 100 then Waiting(op, made) else Idle])
    decreases n
  {
    if n == 0 {
      assert m.pcs[pid := m.pcs[pid]] == m.pcs;
    } else {
      var t := Apply(m, Advance(pid));
      assert Tries(pid, n)[1..] == Tries(pid, n - 1);
      if n > 1 {
        WaitsItsTurn(t, pid, n - 1);
      } else {
        assert After(t, []) == t;
      }
    }
  }

  /** It starts counting when it asks. */
  lemma {:induction false} StartsWaiting(m: Micro, pid: nat, id: string, holderPid: nat)
    requires pid in m.pcs && m.pcs[pid].Idle?
    ensures Enabled(m, BeginAcquire(pid, id, holderPid)) ==>
              Apply(m, BeginAcquire(pid, id, holderPid)).pcs[pid] == Waiting(AcquireOp(id, holderPid), 0)
    ensures Apply(m, BeginRelease(pid, id)).pcs[pid] == Waiting(ReleaseOp(id), 0)
  {
  }

  /** Removing a lock judged stale costs a try too. */
  lemma {:induction false} BreakingCostsTry(m: Micro, pid: nat)
    requires Enabled(m, JudgeStale(pid))
    ensures var op, made := m.pcs[pid].op, m.pcs[pid].attempts + 1;
            Apply(Apply(m, JudgeStale(pid)), Advance(pid)) ==
              m.(pcs := m.pcs[pid := if made < 100 then Waiting(op, made) else Idle], locked := false, lockPid := None)
  {
    assert m.pcs[pid := Breaking(m.pcs[pid].op, m.pcs[pid].attempts)].Keys == m.pcs.Keys;
  }
}
