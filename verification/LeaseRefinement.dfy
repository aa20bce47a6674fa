/** The step-by-step lease protocol refines the atomic one, in every interleaving in which no
    lock directory is judged stale. */
module LeaseRefinement {
  import opened Wrappers
  import opened Text
  import opened LeaseFile
  import opened LeaseMicro
  import Atomic = LeaseAtomic

  /** An operation happens, for everybody else, when it removes the lock. */
  function Abs(m: Micro): Atomic.State {
    Atomic.State(if m.locked then m.entry.shared else m.shared, m.table, m.clock, m.owner, m.released)
  }

  function Translate(m: Micro, e: Event): seq<Atomic.Event>
    requires Enabled(m, e)
  {
    match e
    case Start(pid) => [Atomic.Start(pid)]
    case Die(pid) => [Atomic.Die(pid)]
    case BeginAcquire(_, _, _) => []
    case BeginRelease(_, id) => [Atomic.BeginRelease(id)]
    case JudgeStale(_) => []
    case Advance(pid) =>
      if !m.pcs[pid].Critical? then [] else
      var Critical(op, raw, mask, phase) := m.pcs[pid];
      match phase
      case UnlockAcquire(h, maker) => [Atomic.Acquire(op.id, mask, h, maker)]
      case UnlockRelease => [Atomic.Release(op.id, mask)]
      case _ => []
  }

  function TranslateRun(m: Micro, run: seq<Event>): seq<Atomic.Event>
    requires Possible(m, run)
    decreases |run|
  {
    if run == [] then [] else Translate(m, run[0]) + TranslateRun(Apply(m, run[0]), run[1..])
  }

  predicate NeverStale(run: seq<Event>) {
    forall k :: 0 <= k < |run| ==> !run[k].JudgeStale?
  }

  // ----- the invariant

  predicate HoldersOld(lease: Option<Lease>, clock: nat) {
    lease.Some? ==> forall h :: h in lease.value.holders && h.Record? && h.ticks.Some? ==> h.ticks.value < clock
  }

  /** All holders were written here. */
  predicate Local(lease: Option<Lease>, onLinux: bool) {
    lease.Some? ==> forall h :: h in lease.value.holders ==> h.Record? && h.linux == onLinux
  }

  /** Every process there was not at entry is younger than the entry. */
  predicate Later(entry: Entry, m: Micro) {
    && entry.clock <= m.clock
    && forall pid :: pid in m.table ==>
         || (m.table[pid] >= entry.clock && pid in entry.since)
         || (pid in entry.table && entry.table[pid] == m.table[pid])
  }

  /** The holder's pid was given out anew while the lock was held, and no start ticks can tell. */
  predicate Reborn(h: Holder, entry: Entry, onLinux: bool) {
    !ComparesTicks(h, onLinux) && HolderPid(h).Some? && HolderPid(h).value in entry.since
  }

  /** Verdicts so far: nobody alive is condemned, and nobody is spared who was gone at entry already, unless his pid
      was given out anew. */
  predicate Judged(s: Atomic.State, entry: Entry, onLinux: bool, lease: Lease, mask: seq<bool>) {
    && |mask| <= |lease.holders|
    && Atomic.DropsOnlyDead(s, lease.holders, mask)
    && forall k :: 0 <= k < |mask| && mask[k] ==>
         JudgedAlive(lease.holders[k], entry.table, onLinux) || Reborn(lease.holders[k], entry, onLinux)
  }

  /** The same entry, with some more pids started since. */
  predicate Grown(before: Entry, after: Entry) {
    after == before.(since := after.since) && before.since <= after.since
  }

  predicate AllJudged(m: Micro, raw: Option<Lease>, mask: seq<bool>) {
    Fits(raw, mask) && (raw.Some? ==> Judged(Abs(m), m.entry, m.onLinux, raw.value, mask))
  }

  predicate NobodyLeft(m: Micro, op: Op, raw: Option<Lease>, mask: seq<bool>) {
    AllJudged(m, raw, mask) && Survivors(op, Kept(raw, mask)) == []
  }

  /** What the lock owner knows in each phase, relative to the values at entry. */
  predicate PhaseOk(m: Micro, op: Op, raw: Option<Lease>, mask: seq<bool>, phase: Phase) {
    var before := m.entry.shared;
    match phase
    case WritePid => m.shared == before
    case Read => m.shared == before
    case ProbePid => m.shared == before && raw == before.lease && raw.Some? && Judged(Abs(m), m.entry, m.onLinux, raw.value, mask)
    case ProbeTicks =>
      && m.shared == before && raw == before.lease && raw.Some? && Judged(Abs(m), m.entry, m.onLinux, raw.value, mask)
      && |mask| < |raw.value.holders|
      && ComparesTicks(raw.value.holders[|mask|], m.onLinux)
    case Restore => m.shared == before && raw == before.lease && raw.Some? && NobodyLeft(m, op, raw, mask)
    case Remove =>
      && raw == before.lease && NobodyLeft(m, op, raw, mask) && m.shared.lease == raw
      && (raw.None? ==> op.ReleaseOp?)
      && m.shared.option == (if raw.Some? then raw.value.originalMode else before.option)
    case Show =>
      && op.AcquireOp? && raw == before.lease && NobodyLeft(m, op, raw, mask) && m.shared.lease.None?
      && m.shared.option == (if raw.Some? then raw.value.originalMode else before.option)
    case SetAlways(previous) =>
      && op.AcquireOp? && raw == before.lease && NobodyLeft(m, op, raw, mask) && m.shared.lease.None?
      && previous == Normal(if raw.Some? then raw.value.originalMode else before.option)
    case Create(originalMode, kept) =>
      && raw == before.lease && AllJudged(m, raw, mask) && Outcome(m, op, raw, mask, originalMode, kept)
    case Write(originalMode, kept, h, maker) =>
      && op.AcquireOp? && raw == before.lease && AllJudged(m, raw, mask)
      && Outcome(m, op, raw, mask, originalMode, kept)
      && Written(h, maker, op, m.onLinux) && Atomic.Describes(h, maker, m.clock)
    case UnlockAcquire(h, maker) =>
      && op.AcquireOp? && raw == before.lease && AllJudged(m, raw, mask)
      && m.shared == AcquireEffect(before, mask, h)
      && Written(h, maker, op, m.onLinux) && Atomic.Describes(h, maker, m.clock)
    case UnlockRelease =>
      && op.ReleaseOp? && raw == before.lease && AllJudged(m, raw, mask)
      && m.shared == ReleaseEffect(before, mask, op.id)
  }

  /** The holder names the operation's lease and process. */
  predicate Written(h: Holder, maker: Option<Instance>, op: Op, onLinux: bool)
    requires op.AcquireOp?
  {
    h.Record? && h.id == op.id && h.pid == op.pid && h.linux == onLinux && (maker.Some? ==> maker.value.pid == op.pid)
  }

  /** About to write `kept` (an acquire adds its own holder) under `originalMode`. */
  predicate Outcome(m: Micro, op: Op, raw: Option<Lease>, mask: seq<bool>, originalMode: Mode, kept: seq<Holder>)
    requires AllJudged(m, raw, mask)
  {
    && kept == Survivors(op, Kept(raw, mask))
    && if kept == [] then
         op.AcquireOp? && m.shared.option == ALWAYS &&
         originalMode == Normal(if raw.Some? then raw.value.originalMode else m.entry.shared.option)
       else
         raw.Some? && originalMode == raw.value.originalMode && m.shared == m.entry.shared
  }

  predicate OpOk(m: Micro, op: Op) {
    match op
    case AcquireOp(id, pid) => id in m.issued && id !in m.owner && 0 < pid <= MAX_SAFE_INTEGER
    case ReleaseOp(id) => id in m.released
  }

  predicate PcOk(m: Micro, pid: nat)
    requires pid in m.pcs
  {
    match m.pcs[pid]
    case Idle => true
    case Waiting(op, attempts) => OpOk(m, op) && attempts < MAX_ATTEMPTS
    case Breaking(_, _) => false
    case Critical(op, raw, mask, phase) => m.locked && OpOk(m, op) && PhaseOk(m, op, raw, mask, phase)
  }

  predicate Acquiring(pc: Pc, id: string) {
    !pc.Idle? && pc.op.AcquireOp? && pc.op.id == id
  }

  ghost predicate Inv(m: Micro, user: Mode) {
    && m.pcs.Keys == m.table.Keys
    && Atomic.Inv(Abs(m), user) && Local(Abs(m).shared.lease, m.onLinux)
    && m.owner.Keys <= m.issued
    && (m.locked ==> Later(m.entry, m) && HoldersOld(m.entry.shared.lease, m.entry.clock)
                     && exists pid :: InCritical(m, pid))
    && (forall p, q :: InCritical(m, p) && InCritical(m, q) ==> p == q)
    && (forall p :: p in m.pcs ==> PcOk(m, p))
    && (forall p, q, id {:trigger Acquiring(m.pcs[p], id), Acquiring(m.pcs[q], id)} ::
          p in m.pcs && q in m.pcs && Acquiring(m.pcs[p], id) && Acquiring(m.pcs[q], id) ==> p == q)
  }

  // ----- one step of the lock owner

  predicate Unlocking(m: Micro, pid: nat)
    requires InCritical(m, pid)
  {
    m.pcs[pid].phase.UnlockAcquire? || m.pcs[pid].phase.UnlockRelease?
  }

  /** A verdict on the next holder keeps the verdicts honest. */
  lemma {:induction false} VerdictOk(m: Micro, user: Mode, lease: Lease, mask: seq<bool>)
    requires Inv(m, user) && m.locked && m.entry.shared.lease == Some(lease)
    requires Judged(Abs(m), m.entry, m.onLinux, lease, mask) && |mask| < |lease.holders|
    ensures Judged(Abs(m), m.entry, m.onLinux, lease, mask + [JudgedAlive(lease.holders[|mask|], m.table, m.onLinux)])
  {
    var h := lease.holders[|mask|];
    assert h in lease.holders;
    Atomic.VerdictExact(Abs(m), h, user, m.onLinux);
  }

  predicate Probing(phase: Phase) {
    phase.ProbePid? || phase.ProbeTicks?
  }

  /** Same process, same operation, nothing else touched but the guarded values. */
  predicate OnlyMoved(m: Micro, t: Micro, pid: nat)
    requires InCritical(m, pid)
  {
    && InCritical(t, pid)
    && t == m.(pcs := m.pcs[pid := t.pcs[pid]], shared := t.shared, lockPid := t.lockPid)
    && t.pcs[pid].op == m.pcs[pid].op
  }

  predicate Continues(m: Micro, t: Micro, pid: nat)
    requires InCritical(m, pid)
  {
    && OnlyMoved(m, t, pid)
    && PhaseOk(t, t.pcs[pid].op, t.pcs[pid].raw, t.pcs[pid].mask, t.pcs[pid].phase)
  }

  lemma {:induction false} ProbeStep(m: Micro, pid: nat, user: Mode)
    requires Inv(m, user) && InCritical(m, pid) && PcOk(m, pid) && Probing(m.pcs[pid].phase)
    ensures Continues(m, Critically(m, pid), pid)
  {
    var Critical(op, raw, mask, phase) := m.pcs[pid];
    var t := Critically(m, pid);
    assert Abs(t) == Abs(m);
    if |mask| < |raw.value.holders| {
      VerdictOk(m, user, raw.value, mask);
    }
  }

  lemma {:induction false} EnterStep(m: Micro, pid: nat)
    requires InCritical(m, pid) && PcOk(m, pid) && (m.pcs[pid].phase.WritePid? || m.pcs[pid].phase.Read?)
    ensures Continues(m, Critically(m, pid), pid)
  {
  }

  lemma {:induction false} UndoStep(m: Micro, pid: nat)
    requires InCritical(m, pid) && PcOk(m, pid) && (m.pcs[pid].phase.Restore? || m.pcs[pid].phase.Remove?)
    ensures Continues(m, Critically(m, pid), pid)
  {
    var t := Critically(m, pid);
    assert Abs(t) == Abs(m);
  }

  lemma {:induction false} TakeStep(m: Micro, pid: nat)
    requires InCritical(m, pid) && PcOk(m, pid) && (m.pcs[pid].phase.Show? || m.pcs[pid].phase.SetAlways?)
    ensures Continues(m, Critically(m, pid), pid)
  {
    var t := Critically(m, pid);
    assert Abs(t) == Abs(m);
  }

  lemma {:induction false} CreateStep(m: Micro, pid: nat)
    requires InCritical(m, pid) && PcOk(m, pid) && m.pcs[pid].phase.Create?
    requires forall p :: p in m.table ==> m.table[p] < m.clock
    ensures Continues(m, Critically(m, pid), pid)
  {
    var t := Critically(m, pid);
    assert Abs(t) == Abs(m);
    var op := m.pcs[pid].op;
    if op.AcquireOp? {
      assert Atomic.Describes(NewHolder(op.id, op.pid, m.table, m.onLinux), OwnerNow(m, op.pid), m.clock);
    }
  }

  lemma {:induction false} WriteStep(m: Micro, pid: nat)
    requires InCritical(m, pid) && PcOk(m, pid) && m.pcs[pid].phase.Write?
    ensures Continues(m, Critically(m, pid), pid)
  {
    var t := Critically(m, pid);
    assert Abs(t) == Abs(m);
    var phase := m.pcs[pid].phase;
    assert phase.kept == [] ==> phase.kept + [phase.holder] == [phase.holder];
  }

  /** Every phase but the last leaves the lock owner knowing what the next phase needs, and
      nobody else can tell that it ran. */
  lemma {:induction false} PhaseStep(m: Micro, pid: nat, user: Mode)
    requires Inv(m, user) && InCritical(m, pid) && !Unlocking(m, pid)
    ensures Continues(m, Critically(m, pid), pid)
  {
    assert PcOk(m, pid);
    match m.pcs[pid].phase
    case WritePid => EnterStep(m, pid);
    case Read => EnterStep(m, pid);
    case ProbePid => ProbeStep(m, pid, user);
    case ProbeTicks => ProbeStep(m, pid, user);
    case Restore => UndoStep(m, pid);
    case Remove => UndoStep(m, pid);
    case Show => TakeStep(m, pid);
    case SetAlways(_) => TakeStep(m, pid);
    case Create(_, _) => CreateStep(m, pid);
    case Write(_, _, _, _) => WriteStep(m, pid);
  }

  // ----- steps beside the lock owner

  /** What the lock owner knows survives processes that start, die, or ask for the lock. */
  lemma {:induction false} PhaseStable(m: Micro, t: Micro, op: Op, raw: Option<Lease>, mask: seq<bool>, phase: Phase)
    requires PhaseOk(m, op, raw, mask, phase)
    requires t.shared == m.shared && Grown(m.entry, t.entry) && t.onLinux == m.onLinux && t.locked == m.locked
    requires m.clock <= t.clock
    requires forall id :: Atomic.OwnerAlive(Abs(t), id) ==> Atomic.OwnerAlive(Abs(m), id)
    ensures PhaseOk(t, op, raw, mask, phase)
  {
  }

  /** Nothing the lock holder relies on moved, and nobody but `pid` changed what he is doing. */
  ghost predicate Aside(m: Micro, t: Micro, pid: nat) {
    && t.shared == m.shared && Grown(m.entry, t.entry) && t.onLinux == m.onLinux && t.locked == m.locked
    && t.owner == m.owner && m.issued <= t.issued && m.released <= t.released && m.clock <= t.clock
    && (forall i: Instance :: i.birth < m.clock && Alive(t.table, i) ==> Alive(m.table, i))
    && (forall p :: p in t.pcs && p != pid ==> p in m.pcs && t.pcs[p] == m.pcs[p])
    && (forall p :: InCritical(m, p) ==> p in t.pcs && p != pid)
    && (pid in t.pcs ==> !t.pcs[pid].Critical?)
  }

  lemma {:induction false} AsidePcs(m: Micro, t: Micro, pid: nat, user: Mode)
    requires Inv(m, user) && Aside(m, t, pid)
    ensures forall p :: p in t.pcs && p != pid ==> PcOk(t, p)
  {
    forall p | p in t.pcs && p != pid ensures PcOk(t, p) {
      assert PcOk(m, p);
      if InCritical(m, p) {
        PhaseStable(m, t, m.pcs[p].op, m.pcs[p].raw, m.pcs[p].mask, m.pcs[p].phase);
      }
    }
  }

  lemma {:induction false} AsideLock(m: Micro, t: Micro, pid: nat, user: Mode)
    requires Inv(m, user) && Aside(m, t, pid)
    ensures forall p, q :: InCritical(t, p) && InCritical(t, q) ==> p == q
    ensures t.locked ==> exists p :: InCritical(t, p)
  {
    forall p, q | InCritical(t, p) && InCritical(t, q) ensures p == q {
      assert InCritical(m, p) && InCritical(m, q);
    }
    if m.locked {
      var p :| InCritical(m, p);
      assert InCritical(t, p);
    }
  }

  lemma {:induction false} AcquiringAside(m: Micro, t: Micro, pid: nat)
    requires forall p :: p in t.pcs && p != pid ==> p in m.pcs && t.pcs[p] == m.pcs[p]
    requires pid in t.pcs ==> t.pcs[pid].Idle?
    requires forall p, q, id {:trigger Acquiring(m.pcs[p], id), Acquiring(m.pcs[q], id)} ::
          p in m.pcs && q in m.pcs && Acquiring(m.pcs[p], id) && Acquiring(m.pcs[q], id) ==> p == q
    ensures forall p, q, id {:trigger Acquiring(t.pcs[p], id), Acquiring(t.pcs[q], id)} ::
          p in t.pcs && q in t.pcs && Acquiring(t.pcs[p], id) && Acquiring(t.pcs[q], id) ==> p == q
  {
    forall p, q, id | p in t.pcs && q in t.pcs && Acquiring(t.pcs[p], id) && Acquiring(t.pcs[q], id)
      ensures p == q
    {
      assert Acquiring(m.pcs[p], id) && Acquiring(m.pcs[q], id);
    }
  }

  lemma {:induction false} StartStep(m: Micro, pid: nat, user: Mode)
    requires Inv(m, user) && Enabled(m, Start(pid))
    ensures Inv(Apply(m, Start(pid)), user)
  {
    var t := Apply(m, Start(pid));
    assert Abs(t) == Atomic.Apply(Abs(m), Atomic.Start(pid));
    Atomic.StepKeeps(Abs(m), Atomic.Start(pid), user);
    AsidePcs(m, t, pid, user);
    AsideLock(m, t, pid, user);
    AcquiringAside(m, t, pid);
  }

  lemma {:induction false} DieStep(m: Micro, pid: nat, user: Mode)
    requires Inv(m, user) && Enabled(m, Die(pid))
    ensures Inv(Apply(m, Die(pid)), user)
  {
    var t := Apply(m, Die(pid));
    assert Abs(t) == Atomic.Apply(Abs(m), Atomic.Die(pid));
    Atomic.StepKeeps(Abs(m), Atomic.Die(pid), user);
    AsidePcs(m, t, pid, user);
    AsideLock(m, t, pid, user);
    AcquiringAside(m, t, pid);
  }

  lemma {:induction false} BeginReleaseStep(m: Micro, pid: nat, id: string, user: Mode)
    requires Inv(m, user) && Enabled(m, BeginRelease(pid, id))
    ensures Inv(Apply(m, BeginRelease(pid, id)), user)
  {
    var t := Apply(m, BeginRelease(pid, id));
    assert Abs(t) == Atomic.Apply(Abs(m), Atomic.BeginRelease(id));
    Atomic.StepKeeps(Abs(m), Atomic.BeginRelease(id), user);
    AsidePcs(m, t, pid, user);
    AsideLock(m, t, pid, user);
    AcquiringKept(m, t, pid);
  }

  lemma {:induction false} BeginAcquireStep(m: Micro, pid: nat, id: string, holderPid: nat, user: Mode)
    requires Inv(m, user) && Enabled(m, BeginAcquire(pid, id, holderPid))
    ensures Inv(Apply(m, BeginAcquire(pid, id, holderPid)), user)
  {
    var t := Apply(m, BeginAcquire(pid, id, holderPid));
    assert Abs(t) == Abs(m);
    AsidePcs(m, t, pid, user);
    AsideLock(m, t, pid, user);
    forall p, q, x | p in t.pcs && q in t.pcs && Acquiring(t.pcs[p], x) && Acquiring(t.pcs[q], x)
      ensures p == q
    {
      assert PcOk(m, p) && PcOk(m, q);
      if p != pid && q != pid { assert Acquiring(m.pcs[p], x) && Acquiring(m.pcs[q], x); }
    }
  }

  lemma {:induction false} RetryAside(m: Micro, pid: nat)
    requires pid in m.pcs && m.pcs[pid].Waiting? && m.locked && PcOk(m, pid)
    ensures var t := Apply(m, Advance(pid));
            Aside(m, t, pid) && Abs(t) == Abs(m) && PcOk(t, pid) && t.entry == m.entry && t.table == m.table
    ensures forall id :: Acquiring(Apply(m, Advance(pid)).pcs[pid], id) ==> Acquiring(m.pcs[pid], id)
  {
  }

  lemma {:induction false} RetryStep(m: Micro, pid: nat, user: Mode)
    requires Inv(m, user) && pid in m.pcs && m.pcs[pid].Waiting? && m.locked
    ensures Inv(Apply(m, Advance(pid)), user)
  {
    var t := Apply(m, Advance(pid));
    assert PcOk(m, pid);
    RetryAside(m, pid);
    AsidePcs(m, t, pid, user);
    AsideLock(m, t, pid, user);
    AcquiringKept(m, t, pid);
  }

  /** Taking the lock needs it free, so at most one process is inside. */
  lemma {:induction false} TakeLockStep(m: Micro, pid: nat, user: Mode)
    requires Inv(m, user) && pid in m.pcs && m.pcs[pid].Waiting? && !m.locked
    ensures Inv(Apply(m, Advance(pid)), user)
  {
    var t := Apply(m, Advance(pid));
    assert PcOk(m, pid);
    assert Abs(t) == Abs(m);
    forall p | p in t.pcs ensures PcOk(t, p) {
      assert PcOk(m, p);
      assert !InCritical(m, p);
    }
    assert InCritical(t, pid);
    assert Later(t.entry, t);
    assert HoldersOld(t.entry.shared.lease, t.entry.clock);
    OneInside(m, t, pid);
    AcquiringKept(m, t, pid);
  }

  lemma {:induction false} OneInside(m: Micro, t: Micro, pid: nat)
    requires forall p, q :: InCritical(m, p) && InCritical(m, q) ==> p == q
    requires forall p :: p in m.pcs ==> PcOk(m, p)
    requires t.pcs.Keys == m.pcs.Keys && pid in m.pcs
    requires forall p :: p in m.pcs && p != pid ==> t.pcs[p] == m.pcs[p]
    requires InCritical(t, pid) ==> InCritical(m, pid) || !m.locked
    ensures forall p, q :: InCritical(t, p) && InCritical(t, q) ==> p == q
  {
    forall p, q | InCritical(t, p) && InCritical(t, q) ensures p == q {
      if p != pid { assert InCritical(m, p) && PcOk(m, p); }
      if q != pid { assert InCritical(m, q) && PcOk(m, q); }
    }
  }

  lemma {:induction false} AcquiringKept(m: Micro, t: Micro, pid: nat)
    requires t.pcs.Keys == m.pcs.Keys && pid in m.pcs
    requires forall p :: p in m.pcs && p != pid ==> t.pcs[p] == m.pcs[p]
    requires forall id :: Acquiring(t.pcs[pid], id) ==> Acquiring(m.pcs[pid], id)
    requires forall p, q, id {:trigger Acquiring(m.pcs[p], id), Acquiring(m.pcs[q], id)} ::
          p in m.pcs && q in m.pcs && Acquiring(m.pcs[p], id) && Acquiring(m.pcs[q], id) ==> p == q
    ensures forall p, q, id {:trigger Acquiring(t.pcs[p], id), Acquiring(t.pcs[q], id)} ::
          p in t.pcs && q in t.pcs && Acquiring(t.pcs[p], id) && Acquiring(t.pcs[q], id) ==> p == q
  {
    forall p, q, id | p in t.pcs && q in t.pcs && Acquiring(t.pcs[p], id) && Acquiring(t.pcs[q], id)
      ensures p == q
    {
      assert Acquiring(m.pcs[p], id) && Acquiring(m.pcs[q], id);
    }
  }

  lemma {:induction false} InsideStep(m: Micro, pid: nat, user: Mode)
    requires Inv(m, user) && InCritical(m, pid) && !Unlocking(m, pid)
    ensures Inv(Apply(m, Advance(pid)), user)
    ensures Abs(Apply(m, Advance(pid))) == Abs(m)
  {
    var t := Apply(m, Advance(pid));
    assert PcOk(m, pid);
    PhaseStep(m, pid, user);
    forall p | p in t.pcs ensures PcOk(t, p) {
      assert PcOk(m, p);
      assert p != pid ==> !InCritical(m, p);
    }
    forall p, q | InCritical(t, p) && InCritical(t, q) ensures p == q {
      assert InCritical(m, p) && InCritical(m, q);
    }
    AcquiringKept(m, t, pid);
  }

  /** Removing the lock is the instant at which the whole operation happens. */
  lemma {:induction false} UnlockRefines(m: Micro, pid: nat)
    requires InCritical(m, pid) && Unlocking(m, pid) && PcOk(m, pid)
    ensures var ae := Translate(m, Advance(pid))[0];
            && Atomic.Enabled(Abs(m), ae)
            && Atomic.Apply(Abs(m), ae) == Abs(Apply(m, Advance(pid)))
  {
  }

  lemma {:induction false} AcquireLocal(s: Shared, mask: seq<bool>, h: Holder, onLinux: bool)
    requires Fits(s.lease, mask) && Local(s.lease, onLinux) && h.Record? && h.linux == onLinux
    ensures Local(AcquireEffect(s, mask, h).lease, onLinux)
  {
    if s.lease.Some? { MaskContents(s.lease.value.holders, mask); }
    var kept := Kept(s.lease, mask);
    assert forall g :: g in kept + [h] ==> g in kept || g == h;
  }

  lemma {:induction false} ReleaseLocal(s: Shared, mask: seq<bool>, id: string, onLinux: bool)
    requires Fits(s.lease, mask) && Local(s.lease, onLinux)
    ensures Local(ReleaseEffect(s, mask, id).lease, onLinux)
  {
    if s.lease.Some? {
      MaskContents(s.lease.value.holders, mask);
      WithoutContents(Kept(s.lease, mask), id);
    }
  }

  /** What is written under the lock says where it was written. */
  lemma {:induction false} UnlockLocal(m: Micro, pid: nat)
    requires InCritical(m, pid) && Unlocking(m, pid) && PcOk(m, pid) && Local(m.entry.shared.lease, m.onLinux)
    ensures Local(m.shared.lease, m.onLinux)
  {
    var Critical(op, raw, mask, phase) := m.pcs[pid];
    match phase
    case UnlockAcquire(h, maker) => AcquireLocal(m.entry.shared, mask, h, m.onLinux);
    case UnlockRelease => ReleaseLocal(m.entry.shared, mask, op.id, m.onLinux);
  }

  lemma {:induction false} UnlockAbs(m: Micro, pid: nat, user: Mode)
    requires Inv(m, user) && InCritical(m, pid) && Unlocking(m, pid)
    ensures var t := Apply(m, Advance(pid));
            Atomic.Inv(Abs(t), user) && Local(Abs(t).shared.lease, t.onLinux) && t.owner.Keys <= t.issued
  {
    assert PcOk(m, pid);
    UnlockRefines(m, pid);
    Atomic.StepKeeps(Abs(m), Translate(m, Advance(pid))[0], user);
    UnlockLocal(m, pid);
  }

  lemma {:induction false} UnlockStep(m: Micro, pid: nat, user: Mode)
    requires Inv(m, user) && InCritical(m, pid) && Unlocking(m, pid)
    ensures Inv(Apply(m, Advance(pid)), user)
  {
    var t := Apply(m, Advance(pid));
    UnlockAbs(m, pid, user);
    forall p | p in t.pcs ensures PcOk(t, p) && !InCritical(t, p) {
      UnlockPcs(m, pid, user, p);
    }
    AcquiringKept(m, t, pid);
  }

  lemma {:induction false} UnlockPcs(m: Micro, pid: nat, user: Mode, p: nat)
    requires Inv(m, user) && InCritical(m, pid) && Unlocking(m, pid) && p in Apply(m, Advance(pid)).pcs
    ensures var t := Apply(m, Advance(pid)); PcOk(t, p) && !InCritical(t, p)
  {
    assert PcOk(m, pid);
    assert PcOk(m, p);
    assert p != pid ==> !InCritical(m, p);
    if p != pid && m.pcs[p].Waiting? && m.pcs[p].op.AcquireOp? {
      assert Acquiring(m.pcs[p], m.pcs[p].op.id);
      assert m.pcs[pid].op.AcquireOp? ==> Acquiring(m.pcs[pid], m.pcs[pid].op.id);
    }
  }

  lemma {:induction false} AtomicSingle(s: Atomic.State, e: Atomic.Event)
    requires Atomic.Enabled(s, e)
    ensures Atomic.Possible(s, [e]) && Atomic.After(s, [e]) == Atomic.Apply(s, e)
  {
    assert [e][1..] == [];
  }

  lemma {:induction false} StepKeeps(m: Micro, e: Event, user: Mode)
    requires Inv(m, user) && Enabled(m, e) && !e.JudgeStale?
    ensures Inv(Apply(m, e), user)
  {
    match e
    case Start(pid) => StartStep(m, pid, user);
    case Die(pid) => DieStep(m, pid, user);
    case BeginAcquire(pid, id, holderPid) => BeginAcquireStep(m, pid, id, holderPid, user);
    case BeginRelease(pid, id) => BeginReleaseStep(m, pid, id, user);
    case Advance(pid) =>
      assert PcOk(m, pid);
      if m.pcs[pid].Waiting? {
        if m.locked { RetryStep(m, pid, user); } else { TakeLockStep(m, pid, user); }
      } else if Unlocking(m, pid) {
        UnlockStep(m, pid, user);
      } else {
        InsideStep(m, pid, user);
      }
  }

  lemma {:induction false} StepRefines(m: Micro, e: Event, user: Mode)
    requires Inv(m, user) && Enabled(m, e) && !e.JudgeStale?
    ensures Atomic.Possible(Abs(m), Translate(m, e))
    ensures Atomic.After(Abs(m), Translate(m, e)) == Abs(Apply(m, e))
  {
    var t := Apply(m, e);
    match e
    case Start(pid) => AtomicSingle(Abs(m), Atomic.Start(pid));
    case Die(pid) => AtomicSingle(Abs(m), Atomic.Die(pid));
    case BeginAcquire(_, _, _) => assert Abs(t) == Abs(m);
    case BeginRelease(_, id) => AtomicSingle(Abs(m), Atomic.BeginRelease(id));
    case Advance(pid) =>
      assert PcOk(m, pid);
      if m.pcs[pid].Waiting? {
        assert Abs(t) == Abs(m);
      } else if Unlocking(m, pid) {
        UnlockRefines(m, pid);
        AtomicSingle(Abs(m), Translate(m, e)[0]);
      } else {
        PhaseStep(m, pid, user);
        assert Abs(t) == Abs(m);
      }
  }

  lemma {:induction false} AtomicConcat(s: Atomic.State, a: seq<Atomic.Event>, b: seq<Atomic.Event>)
    requires Atomic.Possible(s, a) && Atomic.Possible(Atomic.After(s, a), b)
    ensures Atomic.Possible(s, a + b) && Atomic.After(s, a + b) == Atomic.After(Atomic.After(s, a), b)
    decreases |a|
  {
    if a == [] {
      assert a + b == b;
    } else {
      AtomicConcat(Atomic.Apply(s, a[0]), a[1..], b);
      assert (a + b)[0] == a[0] && (a + b)[1..] == a[1..] + b;
    }
  }

  lemma {:induction false} RunRefines(m: Micro, run: seq<Event>, user: Mode)
    requires Inv(m, user) && Possible(m, run) && NeverStale(run)
    ensures Inv(After(m, run), user)
    ensures Atomic.Possible(Abs(m), TranslateRun(m, run))
    ensures Atomic.After(Abs(m), TranslateRun(m, run)) == Abs(After(m, run))
    decreases |run|
  {
    if run != [] {
      StepKeeps(m, run[0], user);
      StepRefines(m, run[0], user);
      RunRefines(Apply(m, run[0]), run[1..], user);
      AtomicConcat(Abs(m), Translate(m, run[0]), TranslateRun(Apply(m, run[0]), run[1..]));
    }
  }
}