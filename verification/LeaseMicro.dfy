/** The lease protocol step by step: many processes interleave the lock directory, the file
    reads and writes, the liveness probes and the tmux commands of acquire and release. */
module LeaseMicro {
  import opened Wrappers
  import opened Text
  import opened LeaseFile
  import Atomic = LeaseAtomic

  const MAX_ATTEMPTS: nat := 100

  datatype Op = AcquireOp(id: string, pid: nat) | ReleaseOp(id: string)

  /** What the lock owner does next. */
  datatype Phase =
    | WritePid
    | Read
    | ProbePid      // kill(pid, 0) on the next holder, or decide when none is left
    | ProbeTicks    // read /proc/<pid>/stat of the next holder
    | Restore       // set-option to the saved mode
    | Remove        // rm of the lease file
    | Show          // show-options
    | SetAlways(previous: Mode)
    | Create(originalMode: Mode, kept: seq<Holder>)
    | Write(originalMode: Mode, kept: seq<Holder>, holder: Holder, maker: Option<Instance>)
    | UnlockAcquire(holder: Holder, maker: Option<Instance>)
    | UnlockRelease

  datatype Pc =
    | Idle
    | Waiting(op: Op, attempts: nat)
    | Breaking(op: Op, attempts: nat)   // judged the lock stale, about to remove it
    | Critical(op: Op, raw: Option<Lease>, mask: seq<bool>, phase: Phase)

  /** The guarded values and the processes when the lock was taken, and the pids started since. */
  datatype Entry = Entry(shared: Shared, table: Table, clock: nat, since: set<nat>)

  datatype Micro = Micro(
    onLinux: bool,
    shared: Shared,
    table: Table,
    clock: nat,
    owner: map<string, Option<Instance>>,
    released: set<string>,
    issued: set<string>,
    pcs: map<nat, Pc>,
    locked: bool,            // the lock directory exists
    lockPid: Option<nat>,    // what its pid file says
    entry: Entry)

  datatype Event =
    | Start(pid: nat)
    | Die(pid: nat)
    | BeginAcquire(pid: nat, id: string, holderPid: nat)
    | BeginRelease(pid: nat, id: string)
    | JudgeStale(pid: nat)
    | Advance(pid: nat)

  predicate InCritical(m: Micro, pid: nat) {
    pid in m.pcs && m.pcs[pid].Critical?
  }

  /** Processes do not die between taking and removing the lock, and lease ids are unique. */
  predicate Enabled(m: Micro, e: Event) {
    match e
    case Start(pid) => pid !in m.table
    case Die(pid) => pid in m.table && pid in m.pcs && !m.pcs[pid].Critical?
    case BeginAcquire(pid, id, holderPid) =>
      pid in m.pcs && m.pcs[pid].Idle? && id !in m.issued && 0 < holderPid <= MAX_SAFE_INTEGER
    case BeginRelease(pid, id) => pid in m.pcs && m.pcs[pid].Idle?
    case JudgeStale(pid) =>
      && pid in m.pcs && m.pcs[pid].Waiting? && m.locked
      && (m.lockPid.None? || m.lockPid.value !in m.table)
    case Advance(pid) => pid in m.pcs && !m.pcs[pid].Idle?
  }

  function Survivors(op: Op, kept: seq<Holder>): seq<Holder> {
    if op.AcquireOp? then kept else Without(kept, op.id)
  }

  /** Where the operation goes once every holder was probed. */
  function Decide(op: Op, lease: Lease, kept: seq<Holder>): Phase {
    match op
    case AcquireOp(_, _) => if kept == [] then Restore else Create(lease.originalMode, kept)
    case ReleaseOp(_) =>
      var rest := Without(kept, op.id);
      if rest == [] then Restore else Create(lease.originalMode, rest)
  }

  function Goto(m: Micro, pid: nat, phase: Phase): Micro
    requires InCritical(m, pid)
  {
    m.(pcs := m.pcs[pid := m.pcs[pid].(phase := phase)])
  }

  function Judge(m: Micro, pid: nat, alive: bool): Micro
    requires InCritical(m, pid)
  {
    m.(pcs := m.pcs[pid := m.pcs[pid].(mask := m.pcs[pid].mask + [alive], phase := ProbePid)])
  }

  function Unlock(m: Micro, pid: nat): Micro {
    m.(pcs := m.pcs[pid := Idle], locked := false, lockPid := None)
  }

  function OwnerNow(m: Micro, pid: nat): Option<Instance> {
    if pid in m.table then Some(Instance(pid, m.table[pid])) else None
  }

  function Critically(m: Micro, pid: nat): Micro
    requires InCritical(m, pid)
  {
    var Critical(op, raw, mask, phase) := m.pcs[pid];
    match phase
    case WritePid => Goto(m, pid, Read).(lockPid := Some(pid))
    case Read =>
      var next := if m.shared.lease.Some? then ProbePid else if op.AcquireOp? then Show else Remove;
      m.(pcs := m.pcs[pid := Critical(op, m.shared.lease, [], next)])
    case ProbePid =>
      if raw.None? then m
      else if |mask| < |raw.value.holders| then
        var h := raw.value.holders[|mask|];
        if HolderPid(h).None? || HolderPid(h).value !in m.table then Judge(m, pid, false)
        else if ComparesTicks(h, m.onLinux) then Goto(m, pid, ProbeTicks)
        else Judge(m, pid, true)
      else if |mask| == |raw.value.holders| then
        Goto(m, pid, Decide(op, raw.value, Mask(raw.value.holders, mask)))
      else m
    case ProbeTicks =>
      if raw.Some? && |mask| < |raw.value.holders| then
        Judge(m, pid, JudgedAlive(raw.value.holders[|mask|], m.table, m.onLinux))
      else m
    case Restore =>
      if raw.None? then m
      else Goto(m, pid, Remove).(shared := m.shared.(option := raw.value.originalMode))
    case Remove =>
      Goto(m, pid, if op.AcquireOp? then Show else UnlockRelease).(shared := m.shared.(lease := None))
    case Show => Goto(m, pid, SetAlways(Normal(m.shared.option)))
    case SetAlways(previous) =>
      Goto(m, pid, Create(previous, [])).(shared := m.shared.(option := ALWAYS))
    case Create(originalMode, kept) =>
      if op.AcquireOp? then
        var h := NewHolder(op.id, op.pid, m.table, m.onLinux);
        Goto(m, pid, Write(originalMode, kept, h, OwnerNow(m, op.pid)))
      else
        Goto(m, pid, UnlockRelease).(shared := m.shared.(lease := Some(Lease(originalMode, kept))))
    case Write(originalMode, kept, h, maker) =>
      Goto(m, pid, UnlockAcquire(h, maker)).(
        shared := m.shared.(lease := Some(Lease(originalMode, kept + [h]))))
    case UnlockAcquire(h, maker) => Unlock(m, pid).(owner := m.owner[op.id := maker])
    case UnlockRelease => Unlock(m, pid)
  }

  function Apply(m: Micro, e: Event): Micro
    requires Enabled(m, e)
  {
    match e
    case Start(pid) =>
      m.(table := m.table[pid := m.clock], clock := m.clock + 1, pcs := m.pcs[pid := Idle],
         entry := m.entry.(since := m.entry.since + {pid}))
    case Die(pid) => m.(table := m.table - {pid}, pcs := m.pcs - {pid})
    case BeginAcquire(pid, id, holderPid) =>
      m.(pcs := m.pcs[pid := Waiting(AcquireOp(id, holderPid), 0)], issued := m.issued + {id})
    case BeginRelease(pid, id) =>
      m.(pcs := m.pcs[pid := Waiting(ReleaseOp(id), 0)], released := m.released + {id})
    case JudgeStale(pid) => m.(pcs := m.pcs[pid := Breaking(m.pcs[pid].op, m.pcs[pid].attempts)])
    case Advance(pid) =>
      match m.pcs[pid]
      case Waiting(op, attempts) =>
        if !m.locked then
          m.(pcs := m.pcs[pid := Critical(op, None, [], WritePid)], locked := true,
             entry := Entry(m.shared, m.table, m.clock, {}))
        else if attempts + 1 < MAX_ATTEMPTS then m.(pcs := m.pcs[pid := Waiting(op, attempts + 1)])
        else m.(pcs := m.pcs[pid := Idle])
      case Breaking(op, attempts) =>
        var next := if attempts + 1 < MAX_ATTEMPTS then Waiting(op, attempts + 1) else Idle;
        m.(pcs := m.pcs[pid := next], locked := false, lockPid := None)
      case Critical(_, _, _, _) => Critically(m, pid)
  }

  function Init(user: Mode, onLinux: bool): Micro {
    var shared := Shared(user, None);
    Micro(onLinux, shared, map[], 0, map[], {}, {}, map[], false, None, Entry(shared, map[], 0, {}))
  }

  predicate Possible(m: Micro, run: seq<Event>)
    decreases |run|
  {
    run == [] || (Enabled(m, run[0]) && Possible(Apply(m, run[0]), run[1..]))
  }

  function After(m: Micro, run: seq<Event>): Micro
    requires Possible(m, run)
    decreases |run|
  {
    if run == [] then m else After(Apply(m, run[0]), run[1..])
  }
}
