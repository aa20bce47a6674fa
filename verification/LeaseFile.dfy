/** The tmux extended-keys lease file: its holders, how a holder is judged alive,
    and what one whole acquire or release does to the file and to the tmux option. */
module LeaseFile {
  import opened Wrappers
  import opened Text

  type Mode = string

  const ALWAYS: Mode := "always"
  const FALLBACK: Mode := "off"

  /** The process table: each live pid with the start ticks of the process that has it now. */
  type Table = map<nat, nat>

  /** One process, told apart from every other one that ever had the same pid. */
  datatype Instance = Instance(pid: nat, birth: nat)

  predicate Alive(table: Table, i: Instance) {
    i.pid in table && table[i.pid] == i.birth
  }

  /** A holder is a bare string "<pid>-..." (older files) or a record. */
  datatype Holder =
    | Legacy(text: string)
    | Record(id: string, pid: nat, linux: bool, ticks: Option<nat>)

  datatype Lease = Lease(originalMode: Mode, holders: seq<Holder>)

  /** What the lock guards. */
  datatype Shared = Shared(option: Mode, lease: Option<Lease>)

  function IdOf(h: Holder): string {
    if h.Legacy? then h.text else h.id
  }

  /** The value of the digits that start `s`, provided a '-' ends them. */
  function DigitsBeforeDash(s: string, acc: nat): Option<nat> {
    if s == "" then None
    else if s[0] == '-' then Some(acc)
    else if IsDigit(s[0]) then DigitsBeforeDash(s[1..], 10 * acc + (s[0] as int - '0' as int))
    else None
  }

  function HolderPid(h: Holder): Option<nat> {
    match h
    case Record(_, pid, _, _) => if 0 < pid <= MAX_SAFE_INTEGER then Some(pid) else None
    case Legacy(text) =>
      if text == "" || text[0] == '0' || !IsDigit(text[0]) then None else
      var n := DigitsBeforeDash(text, 0);
      if n.Some? && n.value <= MAX_SAFE_INTEGER then n else None
  }

  /** Only a record written on Linux, with ticks, and read on Linux is compared by start ticks. */
  predicate ComparesTicks(h: Holder, onLinux: bool) {
    h.Record? && h.linux && onLinux && h.ticks.Some?
  }

  predicate JudgedAlive(h: Holder, table: Table, onLinux: bool) {
    var pid := HolderPid(h);
    && pid.Some?
    && pid.value in table
    && (ComparesTicks(h, onLinux) ==> table[pid.value] == h.ticks.value)
  }

  /** The elements of `s` that `mask` keeps, in order. */
  function Mask<T>(s: seq<T>, mask: seq<bool>): seq<T>
    requires |s| == |mask|
  {
    if s == [] then []
    else Mask(s[..|s| - 1], mask[..|s| - 1]) + (if mask[|s| - 1] then [s[|s| - 1]] else [])
  }

  lemma {:induction false} MaskExtend<T>(s: seq<T>, mask: seq<bool>, k: nat, b: bool)
    requires k < |s| && |mask| == k
    ensures Mask(s[..k + 1], mask + [b]) == Mask(s[..k], mask) + if b then [s[k]] else []
  {
    assert s[..k + 1][..k] == s[..k];
    assert (mask + [b])[..k] == mask;
  }

  /** An element survives exactly when its position is kept. */
  lemma {:induction false} MaskContents<T>(s: seq<T>, mask: seq<bool>)
    requires |s| == |mask|
    ensures forall x :: x in Mask(s, mask) <==> exists k :: 0 <= k < |s| && mask[k] && s[k] == x
  {
    if s != [] {
      var n := |s| - 1;
      MaskContents(s[..n], mask[..n]);
      forall x ensures x in Mask(s, mask) <==> exists k :: 0 <= k < |s| && mask[k] && s[k] == x {
        if x in Mask(s[..n], mask[..n]) {
          var k :| 0 <= k < n && mask[..n][k] && s[..n][k] == x;
          assert mask[k] && s[k] == x;
        }
        if k :| 0 <= k < n && mask[k] && s[k] == x {
          assert mask[..n][k] && s[..n][k] == x;
        }
      }
    }
  }

  function Without(holders: seq<Holder>, id: string): seq<Holder> {
    if holders == [] then []
    else (if IdOf(holders[0]) != id then [holders[0]] else []) + Without(holders[1..], id)
  }

  lemma {:induction false} WithoutContents(holders: seq<Holder>, id: string)
    ensures forall h :: h in Without(holders, id) <==> h in holders && IdOf(h) != id
  {
    if holders != [] {
      WithoutContents(holders[1..], id);
      assert holders == [holders[0]] + holders[1..];
    }
  }

  /** The liveness verdicts of one pass over the holders. */
  function Verdicts(holders: seq<Holder>, table: Table, onLinux: bool): (mask: seq<bool>)
    ensures |mask| == |holders|
    ensures forall k :: 0 <= k < |holders| ==> mask[k] == JudgedAlive(holders[k], table, onLinux)
  {
    seq(|holders|, k requires 0 <= k < |holders| => JudgedAlive(holders[k], table, onLinux))
  }

  function Normal(m: Mode): Mode {
    if m == "" then FALLBACK else m
  }

  predicate Fits(lease: Option<Lease>, mask: seq<bool>) {
    lease.Some? ==> |mask| == |lease.value.holders|
  }

  function Kept(lease: Option<Lease>, mask: seq<bool>): seq<Holder>
    requires Fits(lease, mask)
  {
    if lease.None? then [] else Mask(lease.value.holders, mask)
  }

  /** One whole acquire, given which listed holders were judged alive. */
  function AcquireEffect(s: Shared, mask: seq<bool>, h: Holder): Shared
    requires Fits(s.lease, mask)
  {
    var kept := Kept(s.lease, mask);
    if kept == [] then
      var seen := if s.lease.Some? then s.lease.value.originalMode else s.option;
      Shared(ALWAYS, Some(Lease(Normal(seen), [h])))
    else Shared(s.option, Some(Lease(s.lease.value.originalMode, kept + [h])))
  }

  /** One whole release, given which listed holders were judged alive. */
  function ReleaseEffect(s: Shared, mask: seq<bool>, id: string): Shared
    requires Fits(s.lease, mask)
  {
    if s.lease.None? then s
    else
      var rest := Without(Kept(s.lease, mask), id);
      if rest == [] then Shared(s.lease.value.originalMode, None)
      else Shared(s.option, Some(Lease(s.lease.value.originalMode, rest)))
  }

  function NewHolder(id: string, pid: nat, table: Table, onLinux: bool): Holder {
    Record(id, pid, onLinux, if onLinux && pid in table then Some(table[pid]) else None)
  }

  lemma {:induction false} MaskAll<T>(s: seq<T>, mask: seq<bool>)
    requires |s| == |mask| && forall k :: 0 <= k < |s| ==> mask[k]
    ensures Mask(s, mask) == s
  {
    if s != [] {
      MaskAll(s[..|s| - 1], mask[..|s| - 1]);
    }
  }

  lemma {:induction false} WithoutStranger(holders: seq<Holder>, id: string, h: Holder)
    requires forall g :: g in holders ==> IdOf(g) != id
    ensures Without(holders + [h], id) == holders + if IdOf(h) == id then [] else [h]
  {
    if holders == [] {
      assert [] + [h] == [h] && [h][1..] == [];
    } else {
      WithoutStranger(holders[1..], id, h);
      assert (holders + [h])[1..] == holders[1..] + [h];
    }
  }

  lemma {:induction false} OnlyHolderReleases(option: Mode, saved: Mode, h: Holder)
    ensures ReleaseEffect(Shared(option, Some(Lease(saved, [h]))), [true], IdOf(h)) == Shared(saved, None)
  {
    MaskAll([h], [true]);
    WithoutStranger([], IdOf(h), h);
    assert [] + [h] == [h];
  }

  /** A release undoes its acquire when nobody died in between. The first holder's leaves no
      file and the option as it was, save that one that printed as nothing comes back "off". */
  lemma {:induction false} ReleaseUndoesFirstAcquire(option: Mode, h: Holder)
    ensures var held := AcquireEffect(Shared(option, None), [], h);
            Fits(held.lease, [true]) &&
            ReleaseEffect(held, [true], IdOf(h)) == Shared(if option == "" then "off" else option, None)
  {
    var saved := if option == "" then "off" else option;
    assert AcquireEffect(Shared(option, None), [], h) == Shared(ALWAYS, Some(Lease(saved, [h])));
    OnlyHolderReleases(ALWAYS, saved, h);
  }

  /** ... and every later holder's gives the very same file back. */
  lemma {:induction false} ReleaseUndoesAcquire(option: Mode, lease: Lease, all: seq<bool>, all': seq<bool>, h: Holder)
    requires lease.holders != [] && forall g :: g in lease.holders ==> IdOf(g) != IdOf(h)
    requires |all| == |lease.holders| && |all'| == |all| + 1
    requires (forall k :: 0 <= k < |all| ==> all[k]) && (forall k :: 0 <= k < |all'| ==> all'[k])
    ensures var s := Shared(option, Some(lease));
            var held := AcquireEffect(s, all, h);
            Fits(held.lease, all') && ReleaseEffect(held, all', IdOf(h)) == s
  {
    MaskAll(lease.holders, all);
    MaskAll(lease.holders + [h], all');
    WithoutStranger(lease.holders, IdOf(h), h);
    assert lease.holders + [] == lease.holders;
  }

  /** On Linux, what an acquire for a living process writes carries that process's start ticks, so a pass over the file
      keeps it exactly while that very process lives, whoever gets the pid later. */
  lemma {:induction false} AcquiredThenReaped(s: Shared, mask: seq<bool>, id: string, pid: nat, table: Table, later: Table)
    requires Fits(s.lease, mask) && pid in table && 0 < pid <= MAX_SAFE_INTEGER
    ensures var held := AcquireEffect(s, mask, NewHolder(id, pid, table, true));
            var h := Record(id, pid, true, Some(table[pid]));
            && held.lease.Some? && h in held.lease.value.holders
            && (h in Mask(held.lease.value.holders, Verdicts(held.lease.value.holders, later, true)) <==>
                  pid in later && later[pid] == table[pid])
  {
    var held := AcquireEffect(s, mask, NewHolder(id, pid, table, true));
    var holders := held.lease.value.holders;
    var h := Record(id, pid, true, Some(table[pid]));
    assert holders[|holders| - 1] == h;
    MaskContents(holders, Verdicts(holders, later, true));
    assert Verdicts(holders, later, true)[|holders| - 1] == JudgedAlive(h, later, true);
  }

  /** The tmux server option and the lease file on disk, as the two operations rewrite them
      command by command while they hold the lock. */
  class LeaseStore {
    var option: Mode
    var lease: Option<Lease>

    ghost function State(): Shared
      reads this
    {
      Shared(option, lease)
    }

    constructor (mode: Mode)
      ensures State() == Shared(mode, None)
    {
      option, lease := mode, None;
    }

    /** Filters the dead holders out of a lease that was read from disk. */
    method Reap(raw: Lease, table: Table, onLinux: bool) returns (kept: seq<Holder>)
      ensures kept == Mask(raw.holders, Verdicts(raw.holders, table, onLinux))
    {
      kept := [];
      ghost var all := Verdicts(raw.holders, table, onLinux);
      for k := 0 to |raw.holders|
        invariant kept == Mask(raw.holders[..k], all[..k])
      {
        var alive := JudgedAlive(raw.holders[k], table, onLinux);
        MaskExtend(raw.holders, all[..k], k, alive);
        assert all[..k + 1] == all[..k] + [alive];
        if alive { kept := kept + [raw.holders[k]]; }
      }
      assert raw.holders[..|raw.holders|] == raw.holders && all[..|raw.holders|] == all;
    }

    method Acquire(id: string, pid: nat, table: Table, onLinux: bool)
      modifies this
      ensures var mask := if old(lease).Some? then Verdicts(old(lease).value.holders, table, onLinux) else [];
              State() == AcquireEffect(old(State()), mask, NewHolder(id, pid, table, onLinux))
    {
      var raw := lease;
      var kept := [];
      if raw.Some? {
        kept := Reap(raw.value, table, onLinux);
        if kept == [] {
          option := raw.value.originalMode;
          lease := None;
        }
      }
      if kept == [] {
        var previous := Normal(option);
        option := ALWAYS;
        lease := Some(Lease(previous, [NewHolder(id, pid, table, onLinux)]));
        return;
      }
      lease := Some(Lease(raw.value.originalMode, kept + [NewHolder(id, pid, table, onLinux)]));
    }

    method Release(id: string, table: Table, onLinux: bool)
      modifies this
      ensures var mask := if old(lease).Some? then Verdicts(old(lease).value.holders, table, onLinux) else [];
              State() == ReleaseEffect(old(State()), mask, id)
    {
      var raw := lease;
      if raw.None? {
        lease := None;
        return;
      }
      var kept := Reap(raw.value, table, onLinux);
      if kept == [] {
        option := raw.value.originalMode;
        lease := None;
        return;
      }
      var rest := Without(kept, id);
      if rest != [] {
        lease := Some(Lease(raw.value.originalMode, rest));
        return;
      }
      option := raw.value.originalMode;
      lease := None;
    }
  }
}
