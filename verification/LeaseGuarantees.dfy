/** What users of the lease get, over every interleaving of the step-by-step protocol. */
module LeaseGuarantees {
  import opened Wrappers
  import opened Text
  import opened LeaseFile
  import opened LeaseMicro
  import opened LeaseRefinement
  import Atomic = LeaseAtomic

  lemma {:induction false} InitInv(user: Mode, onLinux: bool)
    ensures Inv(Init(user, onLinux), user)
    ensures Abs(Init(user, onLinux)) == Atomic.Init(user)
  {
  }

  /** A relied-on lease among the holders survives the verdicts. */
  lemma {:induction false} ReliedSurvives(m: Micro, op: Op, raw: Option<Lease>, mask: seq<bool>, id: string)
    requires AllJudged(m, raw, mask) && OpOk(m, op)
    requires Atomic.Relied(Abs(m), id) && Atomic.Listed(raw, id)
    ensures Survivors(op, Kept(raw, mask)) != []
  {
    var holders := raw.value.holders;
    var h :| h in holders && IdOf(h) == id;
    var k :| 0 <= k < |holders| && holders[k] == h;
    assert mask[k];
    MaskContents(holders, mask);
    assert h in Kept(raw, mask);
    if op.ReleaseOp? {
      WithoutContents(Kept(raw, mask), op.id);
      assert h in Survivors(op, Kept(raw, mask));
    }
  }

  /** Not even between two commands of one operation does the mode drop below a lease that
      somebody relies on. */
  lemma {:induction false} ReliedKeepsMode(m: Micro, user: Mode, id: string)
    requires Inv(m, user) && Atomic.Relied(Abs(m), id)
    ensures m.shared.option == ALWAYS
  {
    if m.locked {
      var pid :| InCritical(m, pid);
      assert PcOk(m, pid);
      var Critical(op, raw, mask, phase) := m.pcs[pid];
      if !phase.WritePid? && !phase.Read? {
        assert raw == m.entry.shared.lease;
        if !phase.ProbePid? && !phase.ProbeTicks? {
          ReliedSurvives(m, op, raw, mask, id);
        }
      }
    }
  }

  /** In every run in which no lock is judged stale: at most one process is between mkdir and
      rm of the lock; the run looks like a run of whole operations; a lease somebody relies on
      keeps the mode at "always" in every intermediate state; and whenever the lock is free,
      no lease file means the user's own mode, a lease file means "always" and a true record
      of the user's mode. */
  lemma ConcurrentSafety(run: seq<Event>, user: Mode, onLinux: bool)
    requires Possible(Init(user, onLinux), run) && NeverStale(run)
    ensures var m := After(Init(user, onLinux), run);
            var whole := TranslateRun(Init(user, onLinux), run);
            && (forall p, q :: InCritical(m, p) && InCritical(m, q) ==> p == q)
            && Atomic.Possible(Atomic.Init(user), whole)
            && Abs(m) == Atomic.After(Atomic.Init(user), whole)
            && (forall id :: Atomic.Relied(Abs(m), id) ==> m.shared.option == ALWAYS)
            && (!m.locked && m.shared.lease.None? ==> Atomic.ShowsOriginal(m.shared.option, user))
            && (!m.locked && m.shared.lease.Some? ==>
                  m.shared.option == ALWAYS && m.shared.lease.value.originalMode == Normal(user))
  {
    InitInv(user, onLinux);
    RunRefines(Init(user, onLinux), run, user);
    var m := After(Init(user, onLinux), run);
    forall id | Atomic.Relied(Abs(m), id) ensures m.shared.option == ALWAYS {
      ReliedKeepsMode(m, user, id);
    }
  }

  /** The process of `h` was gone when the release took the lock, and no newcomer can be mistaken for it: without start
      ticks to tell them apart, no process with its pid has started since. */
  predicate Gone(h: Holder, entry: Entry, onLinux: bool) {
    var pid := HolderPid(h);
    pid.Some? ==>
      if onLinux && h.Record? && h.linux && h.ticks.Some? then
        pid.value in entry.table ==> entry.table[pid.value] != h.ticks.value
      else
        pid.value !in entry.table && pid.value !in entry.since
  }

  predicate OthersGone(m: Micro, lease: Lease, id: string) {
    forall h :: h in lease.holders && IdOf(h) != id ==> Gone(h, m.entry, m.onLinux)
  }

  lemma Somebody(s: seq<Holder>)
    requires s != []
    ensures exists h :: h in s
  {
    assert s[0] in s;
  }

  /** The last living holder's release removes the file and gives the user his mode back,
      although the other holders died without releasing. */
  lemma {:induction false} LastReleaseRestores(run: seq<Event>, user: Mode, onLinux: bool, pid: nat)
    requires Possible(Init(user, onLinux), run) && NeverStale(run)
    requires var m := After(Init(user, onLinux), run);
             && InCritical(m, pid) && m.pcs[pid].phase.UnlockRelease?
             && m.entry.shared.lease.Some?
             && OthersGone(m, m.entry.shared.lease.value, m.pcs[pid].op.id)
    ensures var m := After(Init(user, onLinux), run);
            m.shared.lease.None? && m.shared.option == Normal(user)
  {
    var m := After(Init(user, onLinux), run);
    InitInv(user, onLinux);
    RunRefines(Init(user, onLinux), run, user);
    assert PcOk(m, pid);
    var Critical(op, raw, mask, phase) := m.pcs[pid];
    var kept := Kept(raw, mask);
    var rest := Without(kept, op.id);
    WithoutContents(kept, op.id);
    MaskContents(raw.value.holders, mask);
    if rest != [] {
      Somebody(rest);
      assert false;
    }
  }

  /** What a completed acquire leaves behind: the holder it was asked for is in the file, and on Linux, if the process it
      was made for was there, with that very process's start ticks. */
  lemma {:induction false} AcquireLists(run: seq<Event>, user: Mode, onLinux: bool, pid: nat)
    requires Possible(Init(user, onLinux), run) && NeverStale(run)
    requires var m := After(Init(user, onLinux), run);
             InCritical(m, pid) && m.pcs[pid].phase.UnlockAcquire?
    ensures var m := After(Init(user, onLinux), run);
            var t, op, h := Apply(m, Advance(pid)), m.pcs[pid].op, m.pcs[pid].phase.holder;
            && op.AcquireOp? && !t.locked && t.pcs[pid].Idle?
            && t.shared.option == "always" && t.shared.lease.Some? && h in t.shared.lease.value.holders
            && h.Record? && h.id == op.id && h.pid == op.pid && h.linux == onLinux
            && op.id in t.owner
            && (t.owner[op.id].Some? ==> t.owner[op.id].value.pid == op.pid)
            && (onLinux && t.owner[op.id].Some? ==> h.ticks == Some(t.owner[op.id].value.birth))
  {
    var m := After(Init(user, onLinux), run);
    InitInv(user, onLinux);
    RunRefines(Init(user, onLinux), run, user);
    RunSameHost(Init(user, onLinux), run);
    assert PcOk(m, pid);
    StepKeeps(m, Advance(pid), user);
    var t := Apply(m, Advance(pid));
    var holders := t.shared.lease.value.holders;
    assert holders[|holders| - 1] == m.pcs[pid].phase.holder;
  }

  lemma {:induction false} CriticalSameHost(m: Micro, pid: nat)
    requires InCritical(m, pid)
    ensures Critically(m, pid).onLinux == m.onLinux
  {
  }

  lemma {:induction false} StepSameHost(m: Micro, e: Event)
    requires Enabled(m, e)
    ensures Apply(m, e).onLinux == m.onLinux
  {
    if e.Advance? && m.pcs[e.pid].Critical? { CriticalSameHost(m, e.pid); }
  }

  lemma {:induction false} RunSameHost(m: Micro, run: seq<Event>)
    requires Possible(m, run)
    ensures After(m, run).onLinux == m.onLinux
    decreases |run|
  {
    if run != [] {
      var t := Apply(m, run[0]);
      StepSameHost(m, run[0]);
      RunSameHost(t, run[1..]);
    }
  }

  /** The process is the one that has the pid when the holder is made up, right before the file is written. */
  lemma {:induction false} HolderOfTheLiving(m: Micro, pid: nat)
    requires InCritical(m, pid) && m.pcs[pid].phase.Create? && m.pcs[pid].op.AcquireOp?
    ensures var op := m.pcs[pid].op;
            var m1 := Apply(m, Advance(pid));
            var m2 := Apply(m1, Advance(pid));
            var t := Apply(m2, Advance(pid));
            var now := if op.pid in m.table then Some(m.table[op.pid]) else None;
            && t.shared.lease.Some?
            && Record(op.id, op.pid, m.onLinux, if m.onLinux then now else None) in t.shared.lease.value.holders
            && op.id in t.owner
            && t.owner[op.id] == if now.Some? then Some(Instance(op.pid, now.value)) else None
  {
    var t := Apply(Apply(Apply(m, Advance(pid)), Advance(pid)), Advance(pid));
    var holders := t.shared.lease.value.holders;
    assert holders[|holders| - 1].id == m.pcs[pid].op.id;
  }

  /** Over every run on Linux in which no lock is judged stale, the next pass over the file is exact: a listed holder whose
      process was there when its lease was taken stays exactly while that process lives, although its pid may have been
      given out again. */
  lemma {:induction false} ReapedExactly(run: seq<Event>, user: Mode, h: Holder)
    requires Possible(Init(user, true), run) && NeverStale(run)
    requires var m := After(Init(user, true), run);
             !m.locked && m.shared.lease.Some? && h in m.shared.lease.value.holders
    ensures var m := After(Init(user, true), run);
            var holders := m.shared.lease.value.holders;
            && h.Record? && h.linux && h.id in m.owner
            && (m.owner[h.id].Some? ==>
                  var made := m.owner[h.id].value;
                  && h.pid == made.pid && h.ticks == Some(made.birth)
                  && (h in Mask(holders, Verdicts(holders, m.table, true)) <==>
                        made.pid in m.table && m.table[made.pid] == made.birth))
  {
    var m := After(Init(user, true), run);
    var holders := m.shared.lease.value.holders;
    InitInv(user, true);
    RunRefines(Init(user, true), run, user);
    RunSameHost(Init(user, true), run);
    var mask := Verdicts(holders, m.table, true);
    MaskContents(holders, mask);
    Atomic.VerdictExact(Abs(m), h, user, true);
    var k :| 0 <= k < |holders| && holders[k] == h;
    assert mask[k] == JudgedAlive(h, m.table, true);
  }

  lemma {:induction false} NobodyKept(holders: seq<Holder>, mask: seq<bool>)
    requires |mask| == |holders| && forall k :: 0 <= k < |mask| ==> !mask[k]
    ensures Mask(holders, mask) == []
  {
    MaskContents(holders, mask);
    assert Mask(holders, mask) != [] ==> Mask(holders, mask)[0] in Mask(holders, mask);
  }

  /** An acquire that finds all holders dead first puts the saved mode back, then removes the file, and only then starts over
      as the first holder. */
  lemma {:induction false} AllDeadStartsOver(m: Micro, pid: nat)
    requires InCritical(m, pid) && m.pcs[pid].op.AcquireOp? && m.pcs[pid].phase.ProbePid? && m.pcs[pid].raw.Some?
    requires |m.pcs[pid].mask| == |m.pcs[pid].raw.value.holders| && forall k :: 0 <= k < |m.pcs[pid].mask| ==> !m.pcs[pid].mask[k]
    ensures var saved := m.pcs[pid].raw.value.originalMode;
            var restored := Critically(Critically(m, pid), pid);
            var removed := Critically(restored, pid);
            && restored.shared == m.shared.(option := saved)
            && removed.shared == Shared(saved, None) && removed.pcs[pid].phase == Show
  {
    NobodyKept(m.pcs[pid].raw.value.holders, m.pcs[pid].mask);
  }

  /** The pid file names the process inside, once that one has written it. */
  ghost predicate Named(m: Micro) {
    && (!m.locked ==> m.lockPid.None?)
    && forall p :: InCritical(m, p) ==> m.lockPid == if m.pcs[p].phase.WritePid? then None else Some(p)
  }

  lemma {:induction false} EnterNames(m: Micro, pid: nat)
    requires InCritical(m, pid) && (m.pcs[pid].phase.WritePid? || m.pcs[pid].phase.Read?)
    ensures var t := Critically(m, pid);
            t.lockPid == (if m.pcs[pid].phase.WritePid? then Some(pid) else m.lockPid) && InCritical(t, pid) && !t.pcs[pid].phase.WritePid?
  {
  }

  lemma {:induction false} ProbeNames(m: Micro, pid: nat)
    requires InCritical(m, pid) && Probing(m.pcs[pid].phase)
    ensures var t := Critically(m, pid); t.lockPid == m.lockPid && InCritical(t, pid) && !t.pcs[pid].phase.WritePid?
  {
  }

  lemma {:induction false} CommandNames(m: Micro, pid: nat)
    requires InCritical(m, pid)
    requires var phase := m.pcs[pid].phase; phase.Restore? || phase.Remove? || phase.Show? || phase.SetAlways?
    ensures var t := Critically(m, pid); t.lockPid == m.lockPid && InCritical(t, pid) && !t.pcs[pid].phase.WritePid?
  {
  }

  lemma {:induction false} FileNames(m: Micro, pid: nat)
    requires InCritical(m, pid) && (m.pcs[pid].phase.Create? || m.pcs[pid].phase.Write?)
    ensures var t := Critically(m, pid); t.lockPid == m.lockPid && InCritical(t, pid) && !t.pcs[pid].phase.WritePid?
  {
  }

  lemma {:induction false} UnlockNames(m: Micro, pid: nat)
    requires InCritical(m, pid) && Unlocking(m, pid)
    ensures var t := Critically(m, pid);
            t.lockPid.None? && !InCritical(t, pid) && forall p :: InCritical(t, p) ==> InCritical(m, p)
  {
  }

  lemma {:induction false} AdvanceNames(m: Micro, pid: nat, user: Mode)
    requires Inv(m, user) && Named(m) && InCritical(m, pid)
    ensures Named(Critically(m, pid))
  {
    var t := Critically(m, pid);
    assert PcOk(m, pid);
    if Unlocking(m, pid) {
      UnlockNames(m, pid);
    } else {
      PhaseStep(m, pid, user);
      var phase := m.pcs[pid].phase;
      if phase.WritePid? || phase.Read? { EnterNames(m, pid); }
      else if Probing(phase) { ProbeNames(m, pid); }
      else if phase.Create? || phase.Write? { FileNames(m, pid); }
      else { CommandNames(m, pid); }
      assert OnlyMoved(m, t, pid);
      forall p | p != pid ensures !InCritical(t, p) {
        assert !InCritical(m, p);
      }
    }
  }

  lemma {:induction false} StepNames(m: Micro, e: Event, user: Mode)
    requires Inv(m, user) && Named(m) && Enabled(m, e) && !e.JudgeStale?
    ensures Named(Apply(m, e))
  {
    var t := Apply(m, e);
    if e.Advance? && m.pcs[e.pid].Critical? {
      AdvanceNames(m, e.pid, user);
    } else {
      assert e.Advance? ==> PcOk(m, e.pid);
      forall p | InCritical(t, p) ensures t.lockPid == if t.pcs[p].phase.WritePid? then None else Some(p) {
        assert p in m.pcs ==> PcOk(m, p);
      }
    }
  }

  lemma {:induction false} RunNames(m: Micro, run: seq<Event>, user: Mode)
    requires Inv(m, user) && Named(m) && Possible(m, run) && NeverStale(run)
    ensures Named(After(m, run))
    decreases |run|
  {
    if run != [] {
      StepNames(m, run[0], user);
      StepKeeps(m, run[0], user);
      RunNames(Apply(m, run[0]), run[1..], user);
    }
  }

  /** As long as no lock was judged stale, the only time at which one can be is between mkdir and the writing of the pid
      file. */
  lemma {:induction false} StaleOnlyUnnamed(run: seq<Event>, user: Mode, onLinux: bool, q: nat)
    requires Possible(Init(user, onLinux), run) && NeverStale(run)
    ensures var m := After(Init(user, onLinux), run);
            Enabled(m, JudgeStale(q)) <==>
              q in m.pcs && m.pcs[q].Waiting? && exists p :: InCritical(m, p) && m.pcs[p].phase.WritePid?
  {
    var m := After(Init(user, onLinux), run);
    InitInv(user, onLinux);
    RunRefines(Init(user, onLinux), run, user);
    RunNames(Init(user, onLinux), run, user);
    if m.locked {
      var p :| InCritical(m, p);
      assert p in m.table;
    }
    forall p | InCritical(m, p) ensures m.locked { assert PcOk(m, p); }
  }

  lemma {:induction false} Prepend(m: Micro, e: Event, run: seq<Event>)
    requires Enabled(m, e) && Possible(Apply(m, e), run)
    ensures Possible(m, [e] + run) && After(m, [e] + run) == After(Apply(m, e), run)
  {
    assert ([e] + run)[1..] == run;
  }

  function Began(user: Mode, onLinux: bool, p: nat, q: nat): Micro
    requires p != q && 0 < p <= MAX_SAFE_INTEGER && 0 < q <= MAX_SAFE_INTEGER
  {
    var m := Apply(Apply(Init(user, onLinux), Start(p)), Start(q));
    Apply(Apply(m, BeginAcquire(p, "a", p)), BeginAcquire(q, "b", q))
  }

  lemma {:induction false} TakeoverAfterBegin(user: Mode, onLinux: bool, p: nat, q: nat) returns (run: seq<Event>)
    requires p != q && 0 < p <= MAX_SAFE_INTEGER && 0 < q <= MAX_SAFE_INTEGER
    ensures Possible(Began(user, onLinux, p, q), run)
    ensures var m := After(Began(user, onLinux, p, q), run); InCritical(m, p) && InCritical(m, q)
  {
    var m0 := Began(user, onLinux, p, q);
    assert m0.pcs[p] == Waiting(AcquireOp("a", p), 0) && m0.pcs[q] == Waiting(AcquireOp("b", q), 0);
    var m1 := Apply(m0, Advance(p));
    var m2 := Apply(m1, JudgeStale(q));
    var m3 := Apply(m2, Advance(q));
    assert !m3.locked;
    Prepend(m3, Advance(q), []);
    Prepend(m2, Advance(q), [Advance(q)]);
    Prepend(m1, JudgeStale(q), [Advance(q)] + [Advance(q)]);
    run := [JudgeStale(q)] + ([Advance(q)] + [Advance(q)]);
    Prepend(m0, Advance(p), run);
    run := [Advance(p)] + run;
  }

  /** The stale takeover is not safe, whoever the two processes are: one that has made the lock
      directory but not yet written its pid file can be judged stale, and then both are inside. */
  lemma {:induction false} TakeoverBreaksExclusion(user: Mode, onLinux: bool, p: nat, q: nat)
    returns (run: seq<Event>)
    requires p != q && 0 < p <= MAX_SAFE_INTEGER && 0 < q <= MAX_SAFE_INTEGER
    ensures Possible(Init(user, onLinux), run)
    ensures var m := After(Init(user, onLinux), run); InCritical(m, p) && InCritical(m, q)
  {
    var m1 := Apply(Init(user, onLinux), Start(p));
    var m2 := Apply(m1, Start(q));
    var m3 := Apply(m2, BeginAcquire(p, "a", p));
    run := TakeoverAfterBegin(user, onLinux, p, q);
    Prepend(m3, BeginAcquire(q, "b", q), run);
    run := [BeginAcquire(q, "b", q)] + run;
    Prepend(m2, BeginAcquire(p, "a", p), run);
    run := [BeginAcquire(p, "a", p)] + run;
    Prepend(m1, Start(q), run);
    run := [Start(q)] + run;
    Prepend(Init(user, onLinux), Start(p), run);
    run := [Start(p)] + run;
  }

  /** Nor is it luck: from every state that the protocol reaches without a stale judgement, the first one, by a process
      with an attempt left, can be carried on so that two processes are inside. */
  lemma {:induction false} TakeoverAlwaysBreaks(run: seq<Event>, user: Mode, onLinux: bool, q: nat) returns (p: nat)
    requires Possible(Init(user, onLinux), run) && NeverStale(run)
    requires var m := After(Init(user, onLinux), run);
             Enabled(m, JudgeStale(q)) && m.pcs[q].attempts + 1 < MAX_ATTEMPTS
    ensures var m, more := After(Init(user, onLinux), run), [JudgeStale(q)] + ([Advance(q)] + [Advance(q)]);
            && Possible(m, more)
            && p != q && InCritical(After(m, more), p) && InCritical(After(m, more), q)
  {
    var m := After(Init(user, onLinux), run);
    InitInv(user, onLinux);
    RunRefines(Init(user, onLinux), run, user);
    p :| InCritical(m, p);
    var m1 := Apply(m, JudgeStale(q));
    var m2 := Apply(m1, Advance(q));
    Prepend(m2, Advance(q), []);
    Prepend(m1, Advance(q), [Advance(q)]);
    Prepend(m, JudgeStale(q), [Advance(q)] + [Advance(q)]);
  }
}
