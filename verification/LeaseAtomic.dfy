/** The lease protocol as a machine whose steps are whole operations: processes start and
    die (pids are reused), and acquire and release each happen at one instant. */
module LeaseAtomic {
  import opened Wrappers
  import opened LeaseFile

  datatype State = State(
    shared: Shared,
    table: Table,
    clock: nat,                           // start ticks of the next process
    owner: map<string, Option<Instance>>, // the process each completed acquire was made for
    released: set<string>)                // leases whose release has begun

  datatype Event =
    | Start(pid: nat)
    | Die(pid: nat)
    | BeginRelease(id: string)
    | Acquire(id: string, mask: seq<bool>, holder: Holder, maker: Option<Instance>)
    | Release(id: string, mask: seq<bool>)

  predicate OwnerAlive(s: State, id: string) {
    id in s.owner && s.owner[id].Some? && Alive(s.table, s.owner[id].value)
  }

  /** A lease somebody still relies on. */
  predicate Relied(s: State, id: string) {
    OwnerAlive(s, id) && id !in s.released
  }

  predicate Listed(lease: Option<Lease>, id: string) {
    lease.Some? && exists h :: h in lease.value.holders && IdOf(h) == id
  }

  /** What a holder says agrees with the process it was written for. */
  predicate Describes(h: Holder, maker: Option<Instance>, clock: nat) {
    && (maker.Some? ==> maker.value.birth < clock && HolderPid(h) == Some(maker.value.pid))
    && (h.Record? && h.ticks.Some? ==> maker.Some? && h.ticks.value == maker.value.birth)
    && (h.Record? && h.linux && maker.Some? ==> h.ticks.Some?)
  }

  /** No living owner is struck off. */
  predicate DropsOnlyDead(s: State, holders: seq<Holder>, mask: seq<bool>)
    requires |mask| <= |holders|
  {
    forall k :: 0 <= k < |mask| && !mask[k] ==> !OwnerAlive(s, IdOf(holders[k]))
  }

  predicate Sound(s: State, mask: seq<bool>) {
    Fits(s.shared.lease, mask) &&
    (s.shared.lease.Some? ==> DropsOnlyDead(s, s.shared.lease.value.holders, mask))
  }

  predicate Enabled(s: State, e: Event) {
    match e
    case Start(pid) => pid !in s.table
    case Die(pid) => pid in s.table
    case BeginRelease(_) => true
    case Acquire(id, mask, h, maker) =>
      id !in s.owner && IdOf(h) == id && h.Record? && Describes(h, maker, s.clock) && Sound(s, mask)
    case Release(id, mask) => id in s.released && Sound(s, mask)
  }

  function Apply(s: State, e: Event): State
    requires Enabled(s, e)
  {
    match e
    case Start(pid) => s.(table := s.table[pid := s.clock], clock := s.clock + 1)
    case Die(pid) => s.(table := s.table - {pid})
    case BeginRelease(id) => s.(released := s.released + {id})
    case Acquire(id, mask, h, maker) =>
      s.(shared := AcquireEffect(s.shared, mask, h), owner := s.owner[id := maker])
    case Release(id, mask) => s.(shared := ReleaseEffect(s.shared, mask, id))
  }

  function Init(user: Mode): State {
    State(Shared(user, None), map[], 0, map[], {})
  }

  predicate Possible(s: State, run: seq<Event>)
    decreases |run|
  {
    run == [] || (Enabled(s, run[0]) && Possible(Apply(s, run[0]), run[1..]))
  }

  function After(s: State, run: seq<Event>): State
    requires Possible(s, run)
    decreases |run|
  {
    if run == [] then s else After(Apply(s, run[0]), run[1..])
  }

  /** The option shows the user's own mode; a mode that printed as nothing comes back as "off". */
  predicate ShowsOriginal(option: Mode, user: Mode) {
    Normal(option) == Normal(user) && (user != "" ==> option == user)
  }

  ghost predicate Inv(s: State, user: Mode) {
    && (forall pid :: pid in s.table ==> s.table[pid] < s.clock)
    && (s.shared.lease.None? ==> ShowsOriginal(s.shared.option, user))
    && (s.shared.lease.Some? ==>
          && s.shared.lease.value.holders != []
          && s.shared.lease.value.originalMode == Normal(user)
          && s.shared.option == ALWAYS
          && (forall h :: h in s.shared.lease.value.holders ==>
                IdOf(h) in s.owner && Describes(h, s.owner[IdOf(h)], s.clock)))
    && (forall id :: Relied(s, id) ==> Listed(s.shared.lease, id))
    && (forall id :: id in s.owner && s.owner[id].Some? ==> s.owner[id].value.birth < s.clock)
  }

  lemma {:induction false} AcquireKeeps(s: State, id: string, mask: seq<bool>, h: Holder, maker: Option<Instance>, user: Mode)
    requires Inv(s, user) && Enabled(s, Acquire(id, mask, h, maker))
    ensures Inv(Apply(s, Acquire(id, mask, h, maker)), user)
  {
    var t := Apply(s, Acquire(id, mask, h, maker));
    var kept := Kept(s.shared.lease, mask);
    if s.shared.lease.Some? { MaskContents(s.shared.lease.value.holders, mask); }
    assert kept != [] ==> s.shared.lease.Some?;
    assert forall g :: g in kept ==> g in s.shared.lease.value.holders;
    assert t.shared.lease.value.holders == kept + [h];
    forall x | Relied(t, x) ensures Listed(t.shared.lease, x) {
      if x == id {
        assert h in t.shared.lease.value.holders;
      } else {
        assert Relied(s, x);
        var g :| g in s.shared.lease.value.holders && IdOf(g) == x;
        var k :| 0 <= k < |mask| && s.shared.lease.value.holders[k] == g;
        assert mask[k];
        assert g in kept;
        assert g in t.shared.lease.value.holders;
      }
    }
  }

  lemma {:induction false} ReleaseKeeps(s: State, id: string, mask: seq<bool>, user: Mode)
    requires Inv(s, user) && Enabled(s, Release(id, mask))
    ensures Inv(Apply(s, Release(id, mask)), user)
  {
    if s.shared.lease.Some? {
      var t := Apply(s, Release(id, mask));
      var kept := Kept(s.shared.lease, mask);
      MaskContents(s.shared.lease.value.holders, mask);
      WithoutContents(kept, id);
      forall x | Relied(t, x) ensures Listed(t.shared.lease, x) {
        assert Relied(s, x);
        var g :| g in s.shared.lease.value.holders && IdOf(g) == x;
        var k :| 0 <= k < |mask| && s.shared.lease.value.holders[k] == g;
        assert mask[k];
        assert g in Without(kept, id);
        assert g in t.shared.lease.value.holders;
      }
    }
  }

  lemma {:induction false} StepKeeps(s: State, e: Event, user: Mode)
    requires Inv(s, user) && Enabled(s, e)
    ensures Inv(Apply(s, e), user)
  {
    match e
    case Start(pid) =>
      var t := Apply(s, e);
      forall x | Relied(t, x) ensures Listed(t.shared.lease, x) { assert Relied(s, x); }
    case Die(pid) =>
      var t := Apply(s, e);
      forall x | Relied(t, x) ensures Listed(t.shared.lease, x) { assert Relied(s, x); }
    case BeginRelease(id) =>
      var t := Apply(s, e);
      forall x | Relied(t, x) ensures Listed(t.shared.lease, x) { assert Relied(s, x); }
    case Acquire(id, mask, h, maker) => AcquireKeeps(s, id, mask, h, maker, user);
    case Release(id, mask) => ReleaseKeeps(s, id, mask, user);
  }

  lemma {:induction false} RunKeeps(s: State, run: seq<Event>, user: Mode)
    requires Inv(s, user) && Possible(s, run)
    ensures Inv(After(s, run), user)
    decreases |run|
  {
    if run != [] {
      StepKeeps(s, run[0], user);
      RunKeeps(Apply(s, run[0]), run[1..], user);
    }
  }

  /** Over every run: without a lease file the option is the user's own; with one, somebody is
      listed, the saved mode is the user's own and the option is "always"; and while anybody
      relies on a lease it is listed, so the option is "always". */
  lemma LeaseSafety(run: seq<Event>, user: Mode)
    requires Possible(Init(user), run)
    ensures var s := After(Init(user), run);
            && (s.shared.lease.None? ==> ShowsOriginal(s.shared.option, user))
            && (s.shared.lease.Some? ==>
                  && s.shared.lease.value.holders != []
                  && s.shared.lease.value.originalMode == (if user == "" then "off" else user)
                  && s.shared.option == "always")
            && (forall id :: Relied(s, id) ==> Listed(s.shared.lease, id) && s.shared.option == "always")
  {
    RunKeeps(Init(user), run, user);
  }

  /** Releasing restores the user's mode exactly when every other listed holder was struck off
      as dead, whether or not those had released. */
  lemma {:induction false} ReleaseRestoresIff(s: State, id: string, mask: seq<bool>, user: Mode)
    requires Inv(s, user) && Enabled(s, Release(id, mask)) && s.shared.lease.Some?
    ensures var t := Apply(s, Release(id, mask));
            var holders := s.shared.lease.value.holders;
            && (t.shared.lease.None? <==>
                  forall k :: 0 <= k < |holders| && mask[k] ==> IdOf(holders[k]) == id)
            && (t.shared.lease.None? ==> t.shared.option == Normal(user))
            && (t.shared.lease.Some? ==> t.shared.option == ALWAYS)
  {
    var holders := s.shared.lease.value.holders;
    var kept := Kept(s.shared.lease, mask);
    MaskContents(holders, mask);
    WithoutContents(kept, id);
    var rest := Without(kept, id);
    if rest == [] {
      forall k | 0 <= k < |holders| && mask[k] ensures IdOf(holders[k]) == id {
        assert holders[k] in kept;
      }
    } else {
      assert rest[0] in kept;
      var k :| 0 <= k < |holders| && mask[k] && holders[k] == rest[0];
    }
  }

  /** A verdict never condemns a living owner. It is exact, whoever has the pid now, on Linux and for a holder that was
      written on Linux with start ticks; in every other case it goes by the pid alone. */
  lemma {:induction false} VerdictExact(s: State, h: Holder, user: Mode, onLinux: bool)
    requires Inv(s, user) && s.shared.lease.Some? && h in s.shared.lease.value.holders
    ensures OwnerAlive(s, IdOf(h)) ==> JudgedAlive(h, s.table, onLinux)
    ensures onLinux && h.Record? && h.linux && h.ticks.Some? ==>
              (JudgedAlive(h, s.table, onLinux) <==> OwnerAlive(s, IdOf(h)))
    ensures var maker := s.owner[IdOf(h)];
            !(onLinux && h.Record? && h.linux && h.ticks.Some?) && maker.Some? ==>
              (JudgedAlive(h, s.table, onLinux) <==> maker.value.pid in s.table)
  {
    var maker := s.owner[IdOf(h)];
    assert Describes(h, maker, s.clock);
    if maker.Some? { assert HolderPid(h) == Some(maker.value.pid); }
  }

  /** So a pass over the whole file, as one acquire or release makes it, never strikes off a living owner. */
  lemma {:induction false} VerdictsSound(s: State, user: Mode, onLinux: bool)
    requires Inv(s, user) && s.shared.lease.Some?
    ensures Sound(s, Verdicts(s.shared.lease.value.holders, s.table, onLinux))
  {
    var holders := s.shared.lease.value.holders;
    var mask := Verdicts(holders, s.table, onLinux);
    forall k | 0 <= k < |mask| && !mask[k] ensures !OwnerAlive(s, IdOf(holders[k])) {
      VerdictExact(s, holders[k], user, onLinux);
    }
  }
}
