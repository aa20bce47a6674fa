/** The process table as a tree: walks up by parent pid and down by worklist. */
module ProcessTree {
  import opened Wrappers

  /** A command line, with the verdicts of the three command patterns on it. */
  datatype Command = Command(text: string, codex: bool, omxLaunch: bool, entrypoint: Option<string>)

  datatype Process = Process(pid: nat, ppid: nat, command: Command)

  /** What ps lists: positive pids, no pid twice. */
  ghost predicate Table(ps: seq<Process>) {
    && (forall i :: 0 <= i < |ps| ==> ps[i].pid > 0)
    && (forall i, j :: 0 <= i < j < |ps| ==> ps[i].pid != ps[j].pid)
  }

  type ByPid = map<nat, Process>

  function Index(ps: seq<Process>): (m: ByPid)
    ensures forall p :: p in m ==> m[p] in ps && m[p].pid == p
    ensures forall e :: e in ps ==> e.pid in m
  {
    if ps == [] then map[]
    else
      var n := |ps| - 1;
      assert ps == ps[..n] + [ps[n]];
      Index(ps[..n])[ps[n].pid := ps[n]]
  }

  lemma {:induction false} IndexFinds(ps: seq<Process>, e: Process)
    requires Table(ps) && e in ps
    ensures e.pid in Index(ps) && Index(ps)[e.pid] == e
  {
    var i :| 0 <= i < |ps| && ps[i] == e;
    var f := Index(ps)[e.pid];
    var j :| 0 <= j < |ps| && ps[j] == f;
    assert i == j;
  }

  // ----- upwards

  /** The k-th pid on the chain of parents of `pid`; a parent of 0 ends the chain. */
  ghost function Up(m: ByPid, pid: nat, k: nat): Option<nat> {
    if k == 0 then Some(pid)
    else
      var q := Up(m, pid, k - 1);
      if q.Some? && q.value in m && m[q.value].ppid > 0 then Some(m[q.value].ppid) else None
  }

  lemma {:induction false} UpFromParent(m: ByPid, pid: nat, k: nat)
    ensures Up(m, pid, k + 1) ==
              if pid in m && m[pid].ppid > 0 then Up(m, m[pid].ppid, k) else None
  {
    if k > 0 {
      UpFromParent(m, pid, k - 1);
    } else {
      assert Up(m, pid, 1) == if pid in m && m[pid].ppid > 0 then Some(m[pid].ppid) else None;
    }
  }

  ghost predicate MatchesAt(m: ByPid, pid: nat, matches: Command -> bool, k: nat) {
    var a := Up(m, pid, k);
    a.Some? && a.value in m && matches(m[a.value].command)
  }

  /** Some proper ancestor's command matches. */
  ghost predicate HasAncestor(m: ByPid, pid: nat, matches: Command -> bool) {
    exists k: nat :: k > 0 && MatchesAt(m, pid, matches, k)
  }

  /** A set of pids closed under parents holds every ancestor. */
  lemma {:induction false} ClosedHoldsAncestors(m: ByPid, pid: nat, seen: set<nat>, k: nat)
    requires pid in m && m[pid].ppid > 0 ==> m[pid].ppid in seen
    requires forall q :: q in seen && q in m && m[q].ppid > 0 ==> m[q].ppid in seen
    requires k > 0 && Up(m, pid, k).Some?
    ensures Up(m, pid, k).value in seen
  {
    if k > 1 {
      ClosedHoldsAncestors(m, pid, seen, k - 1);
    } else {
      assert Up(m, pid, 0) == Some(pid);
    }
  }

  /** The upward walk with a visited set: it ends on every table, cyclic ones included, and
      answers whether some proper ancestor matches. */
  method HasAncestorMatching(m: ByPid, pid: nat, matches: Command -> bool) returns (found: bool)
    ensures found <==> HasAncestor(m, pid, matches)
  {
    var seen: set<nat> := {};
    var current := if pid in m then m[pid].ppid else 0;
    ghost var n := 0;
    assert Up(m, pid, 0) == Some(pid);
    while current > 0 && current !in seen
      invariant Up(m, pid, n + 1) == if current > 0 then Some(current) else None
      invariant pid in m && m[pid].ppid > 0 ==> m[pid].ppid == current || m[pid].ppid in seen
      invariant forall q :: q in seen ==> q in m && !matches(m[q].command)
      invariant forall q :: q in seen && m[q].ppid > 0 ==> m[q].ppid == current || m[q].ppid in seen
      decreases m.Keys - seen
    {
      ghost var before := seen;
      seen := seen + {current};
      if current !in m {
        forall k: nat | k > 0 && Up(m, pid, k).Some?
          ensures Up(m, pid, k).value in seen
        {
          ClosedHoldsAncestors(m, pid, seen, k);
        }
        return false;
      }
      if matches(m[current].command) {
        assert MatchesAt(m, pid, matches, n + 1);
        return true;
      }
      assert m.Keys - seen < m.Keys - before;
      current := m[current].ppid;
      n := n + 1;
    }
    forall k: nat | k > 0 && Up(m, pid, k).Some?
      ensures Up(m, pid, k).value in seen
    {
      ClosedHoldsAncestors(m, pid, seen, k);
    }
    return false;
  }

  predicate IsCodex(m: ByPid, pid: nat) {
    pid in m && m[pid].command.codex
  }

  /** Where the walk to the protected root stops. */
  predicate Stops(m: ByPid, pid: nat) {
    pid <= 1 || IsCodex(m, pid) || pid !in m || m[pid].ppid == 0 || m[pid].ppid == pid
  }

  ghost predicate StopsAt(m: ByPid, pid: nat, k: nat) {
    Up(m, pid, k).Some? && Stops(m, Up(m, pid, k).value)
  }

  /** The walk has no visited set; this is exactly when it ends. */
  ghost predicate Halts(m: ByPid, pid: nat) {
    exists k: nat :: StopsAt(m, pid, k)
  }

  /** Where it does not end, there is no last step: from every pid it reaches it goes on to that pid's parent. */
  lemma {:induction false} EndlessWalk(m: ByPid, pid: nat, n: nat)
    requires !Halts(m, pid)
    ensures Up(m, pid, n).Some?
    ensures var q := Up(m, pid, n).value;
            q > 1 && !IsCodex(m, q) && q in m && m[q].ppid != 0 && m[q].ppid != q && Up(m, pid, n + 1) == Some(m[q].ppid)
  {
    if n > 0 { EndlessWalk(m, pid, n - 1); }
    assert !StopsAt(m, pid, n);
  }

  // ----- when the walk ends

  ghost predicate FirstStop(m: ByPid, pid: nat, n: nat) {
    StopsAt(m, pid, n) && forall k: nat :: k < n ==> !StopsAt(m, pid, k)
  }

  lemma {:induction false} SomeFirstStop(m: ByPid, pid: nat, n: nat) returns (first: nat)
    requires StopsAt(m, pid, n)
    ensures FirstStop(m, pid, first)
  {
    if k: nat :| k < n && StopsAt(m, pid, k) {
      first := SomeFirstStop(m, pid, k);
    } else {
      first := n;
    }
  }

  /** Where the chain of parents comes back to a pid, it goes on as it did before. */
  lemma {:induction false} Periodic(m: ByPid, pid: nat, i: nat, j: nat, k: nat)
    requires Up(m, pid, i) == Up(m, pid, j)
    ensures Up(m, pid, i + k) == Up(m, pid, j + k)
  {
    if k > 0 {
      Periodic(m, pid, i, j, k - 1);
      UpNext(m, pid, i + k);
      UpNext(m, pid, j + k);
    }
  }

  lemma {:induction false} UpNext(m: ByPid, pid: nat, k: nat)
    requires k > 0
    ensures var q := Up(m, pid, k - 1);
            Up(m, pid, k) == if q.Some? && q.value in m && m[q.value].ppid > 0 then Some(m[q.value].ppid) else None
  {
  }

  lemma {:induction false} UpEarlier(m: ByPid, pid: nat, k: nat, n: nat)
    requires k <= n && Up(m, pid, n).Some?
    ensures Up(m, pid, k).Some?
  {
    if k < n { UpEarlier(m, pid, k, n - 1); }
  }

  /** Before the first stop no pid comes twice. */
  lemma {:induction false} NoReturnBeforeStop(m: ByPid, pid: nat, n: nat, i: nat, j: nat)
    requires FirstStop(m, pid, n) && i < j < n
    ensures Up(m, pid, i) != Up(m, pid, j)
  {
    if Up(m, pid, i) == Up(m, pid, j) {
      Periodic(m, pid, i, j, n - j);
      assert StopsAt(m, pid, i + (n - j));
    }
  }

  ghost function Walked(m: ByPid, pid: nat, n: nat): set<nat> {
    set k | 0 <= k < n && Up(m, pid, k).Some? :: Up(m, pid, k).value
  }

  lemma {:induction false} WalkedCount(m: ByPid, pid: nat, n: nat, last: nat)
    requires FirstStop(m, pid, last) && n <= last
    ensures |Walked(m, pid, n)| == n
  {
    if n > 0 {
      WalkedCount(m, pid, n - 1, last);
      UpEarlier(m, pid, n - 1, last);
      var q := Up(m, pid, n - 1).value;
      assert Walked(m, pid, n) == Walked(m, pid, n - 1) + {q};
      NewlyWalked(m, pid, n - 1, last);
    }
  }

  lemma {:induction false} NewlyWalked(m: ByPid, pid: nat, n: nat, last: nat)
    requires FirstStop(m, pid, last) && n < last && Up(m, pid, n).Some?
    ensures Up(m, pid, n).value !in Walked(m, pid, n)
  {
    forall k | 0 <= k < n && Up(m, pid, k).Some? ensures Up(m, pid, k).value != Up(m, pid, n).value {
      NoReturnBeforeStop(m, pid, last, k, n);
    }
  }

  lemma {:induction false} WalkedListed(m: ByPid, pid: nat, last: nat)
    requires FirstStop(m, pid, last)
    ensures Walked(m, pid, last) <= m.Keys
  {
    forall k | 0 <= k < last && Up(m, pid, k).Some? ensures Up(m, pid, k).value in m {
      assert !StopsAt(m, pid, k);
    }
  }

  lemma {:induction false} SubsetCount(a: set<nat>, b: set<nat>)
    requires a <= b
    ensures |a| <= |b|
  {
    if a != {} {
      var x :| x in a;
      SubsetCount(a - {x}, b - {x});
    }
  }

  /** So the walk ends exactly when it stops within as many steps as there are processes, which a caller can find out
      beforehand. */
  lemma {:induction false} HaltsIff(m: ByPid, pid: nat)
    ensures Halts(m, pid) <==> exists k: nat :: k <= |m| && StopsAt(m, pid, k)
  {
    if n: nat :| StopsAt(m, pid, n) {
      var first := SomeFirstStop(m, pid, n);
      WalkedCount(m, pid, first, first);
      WalkedListed(m, pid, first);
      SubsetCount(Walked(m, pid, first), m.Keys);
      assert |m.Keys| == |m|;
    }
  }

  /** There are tables on which it does not end: two processes that name each other as their parent, neither of them
      Codex. */
  lemma {:induction false} EndlessExample(m: ByPid, p: nat, q: nat, n: nat)
    requires p > 1 && q > 1 && p != q && p in m && q in m && m[p].ppid == q && m[q].ppid == p
    requires !m[p].command.codex && !m[q].command.codex
    ensures Up(m, p, n) == Some(if n % 2 == 0 then p else q) && !StopsAt(m, p, n)
  {
    if n > 0 { EndlessExample(m, p, q, n - 1); }
  }

  lemma {:induction false} EndlessTable(p: Process, q: Process)
    requires p.pid > 1 && q.pid > 1 && p.pid != q.pid && p.ppid == q.pid && q.ppid == p.pid
    requires !p.command.codex && !q.command.codex
    ensures Table([p, q]) && !Halts(Index([p, q]), p.pid)
  {
    IndexFinds([p, q], p);
    IndexFinds([p, q], q);
    forall n: nat ensures !StopsAt(Index([p, q]), p.pid, n) {
      EndlessExample(Index([p, q]), p.pid, q.pid, n);
    }
  }

  /** No pid above 1 comes round again on the chain of parents, unless it is its own parent. */
  ghost predicate Acyclic(m: ByPid, pid: nat) {
    forall i: nat, j: nat :: i < j && Up(m, pid, i).Some? && Up(m, pid, i) == Up(m, pid, j) ==>
      Stops(m, Up(m, pid, i).value)
  }

  lemma {:induction false} AcyclicHalts(m: ByPid, pid: nat)
    requires Acyclic(m, pid)
    ensures Halts(m, pid)
  {
    WalkOn(m, pid, 0, {});
  }

  ghost predicate Met(m: ByPid, pid: nat, n: nat, q: nat) {
    exists i: nat :: i < n && Up(m, pid, i) == Some(q)
  }

  lemma {:induction false} WalkOn(m: ByPid, pid: nat, n: nat, seen: set<nat>)
    requires Acyclic(m, pid) && Up(m, pid, n).Some?
    requires seen <= m.Keys
    requires forall q :: q in seen ==> !Stops(m, q) && Met(m, pid, n, q)
    ensures Halts(m, pid)
    decreases m.Keys - seen
  {
    var q := Up(m, pid, n).value;
    if Stops(m, q) {
      assert StopsAt(m, pid, n);
    } else {
      assert q !in seen;
      assert m.Keys - (seen + {q}) < m.Keys - seen;
      assert Up(m, pid, n) == Some(q) && Up(m, pid, n + 1).Some?;
      forall p | p in seen + {q} ensures !Stops(m, p) && Met(m, pid, n + 1, p) {
        if p in seen {
          var i: nat :| i < n && Up(m, pid, i) == Some(p);
          assert i < n + 1;
        } else {
          assert n < n + 1 && Up(m, pid, n) == Some(p);
        }
      }
      WalkOn(m, pid, n + 1, seen + {q});
    }
  }

  /** `pid`'s k-th ancestor is the first Codex process, itself included, and only pids above 1
      come before it. */
  ghost predicate NearestCodexAt(m: ByPid, pid: nat, k: nat) {
    && Up(m, pid, k).Some? && Up(m, pid, k).value > 1 && IsCodex(m, Up(m, pid, k).value)
    && forall i :: 0 <= i < k ==> Up(m, pid, i).Some? && Up(m, pid, i).value > 1 && !IsCodex(m, Up(m, pid, i).value)
  }

  ghost predicate IsProtectedRoot(m: ByPid, pid: nat, root: nat) {
    || (exists k: nat :: NearestCodexAt(m, pid, k) && Up(m, pid, k) == Some(root))
    || (root == pid && forall k: nat :: !NearestCodexAt(m, pid, k))
  }

  lemma {:induction false} RootUnique(m: ByPid, pid: nat, a: nat, b: nat)
    requires IsProtectedRoot(m, pid, a) && IsProtectedRoot(m, pid, b)
    ensures a == b
  {
    if k: nat :| NearestCodexAt(m, pid, k) && Up(m, pid, k) == Some(a) {
      var l: nat :| NearestCodexAt(m, pid, l) && Up(m, pid, l) == Some(b);
      assert k == l;
    }
  }

  /** Past a stop that is no Codex process there is nothing to find. */
  lemma {:induction false} NothingPastStop(m: ByPid, pid: nat, n: nat, k: nat)
    requires StopsAt(m, pid, n)
    requires Up(m, pid, n).value <= 1 || !IsCodex(m, Up(m, pid, n).value)
    requires forall i :: 0 <= i < n ==> Up(m, pid, i).Some? && !IsCodex(m, Up(m, pid, i).value)
    ensures !NearestCodexAt(m, pid, k)
  {
    if k > n && Up(m, pid, n).value > 1 {
      var q := Up(m, pid, n).value;
      SelfParent(m, pid, n, k);
    }
  }

  lemma {:induction false} SelfParent(m: ByPid, pid: nat, n: nat, k: nat)
    requires n < k && Up(m, pid, n).Some?
    requires var q := Up(m, pid, n).value; q !in m || m[q].ppid == 0 || m[q].ppid == q
    ensures Up(m, pid, k).None? || Up(m, pid, k) == Up(m, pid, n)
  {
    if k > n + 1 {
      SelfParent(m, pid, n, k - 1);
    }
  }

  method ParentsAndCommands(ps: seq<Process>)
    returns (parentByPid: map<nat, nat>, commandByPid: map<nat, Command>)
    ensures parentByPid.Keys == commandByPid.Keys == Index(ps).Keys
    ensures forall p :: p in parentByPid ==>
      parentByPid[p] == Index(ps)[p].ppid && commandByPid[p] == Index(ps)[p].command
  {
    parentByPid, commandByPid := map[], map[];
    for i := 0 to |ps|
      invariant parentByPid.Keys == commandByPid.Keys == Index(ps[..i]).Keys
      invariant forall p :: p in parentByPid ==>
        parentByPid[p] == Index(ps[..i])[p].ppid && commandByPid[p] == Index(ps[..i])[p].command
    {
      assert ps[..i + 1][..i] == ps[..i];
      parentByPid := parentByPid[ps[i].pid := ps[i].ppid];
      commandByPid := commandByPid[ps[i].pid := ps[i].command];
    }
    assert ps[..|ps|] == ps;
  }

  ghost predicate Passed(m: ByPid, pid: nat, n: nat) {
    forall i :: 0 <= i < n ==>
      Up(m, pid, i).Some? && Up(m, pid, i).value > 1 && !IsCodex(m, Up(m, pid, i).value)
  }

  lemma {:induction false} NotBeyond(m: ByPid, pid: nat, n: nat)
    requires StopsAt(m, pid, n) && Passed(m, pid, n)
    requires Up(m, pid, n).value <= 1 || !IsCodex(m, Up(m, pid, n).value)
    ensures IsProtectedRoot(m, pid, pid)
  {
    forall k: nat ensures !NearestCodexAt(m, pid, k) {
      NothingPastStop(m, pid, n, k);
    }
  }

  /** The walk is not past its first stop. */
  lemma {:induction false} StopAhead(m: ByPid, pid: nat, n: nat, last: nat)
    requires StopsAt(m, pid, last) && n <= last && Up(m, pid, n).Some? && !Stops(m, Up(m, pid, n).value)
    ensures n < last
  {
  }

  /** The upward walk without a visited set finds the nearest Codex process, or falls back to
      where it began. */
  method WalkToRoot(parentByPid: map<nat, nat>, commandByPid: map<nat, Command>, currentPid: nat, ghost m: ByPid)
    returns (root: nat)
    requires parentByPid.Keys == commandByPid.Keys == m.Keys
    requires forall p :: p in m ==> parentByPid[p] == m[p].ppid && commandByPid[p] == m[p].command
    requires Halts(m, currentPid)
    ensures IsProtectedRoot(m, currentPid, root)
  {
    ghost var last: nat :| StopsAt(m, currentPid, last);
    var pid := currentPid;
    ghost var n := 0;
    while pid > 1
      invariant Up(m, currentPid, n) == Some(pid) && n <= last && Passed(m, currentPid, n)
      decreases last - n
    {
      if pid in commandByPid && commandByPid[pid].codex {
        assert NearestCodexAt(m, currentPid, n);
        return pid;
      }
      if pid !in parentByPid || parentByPid[pid] == 0 || parentByPid[pid] == pid {
        break;
      }
      StopAhead(m, currentPid, n, last);
      pid := parentByPid[pid];
      n := n + 1;
    }
    NotBeyond(m, currentPid, n);
    return currentPid;
  }

  method ResolveProtectedRootPid(ps: seq<Process>, currentPid: nat) returns (root: nat)
    requires Halts(Index(ps), currentPid)
    ensures IsProtectedRoot(Index(ps), currentPid, root)
  {
    var parentByPid, commandByPid := ParentsAndCommands(ps);
    root := WalkToRoot(parentByPid, commandByPid, currentPid, Index(ps));
  }

  // ----- downwards

  ghost predicate Edge(ps: seq<Process>, child: nat, parent: nat) {
    exists e :: e in ps && e.pid == child && e.ppid == parent
  }

  /** `pid` is `n` generations below `root`. */
  ghost predicate Below(ps: seq<Process>, root: nat, pid: nat, n: nat)
    decreases n
  {
    if n == 0 then pid == root
    else exists parent :: Edge(ps, pid, parent) && Below(ps, root, parent, n - 1)
  }

  ghost predicate Descends(ps: seq<Process>, root: nat, pid: nat) {
    exists n: nat :: Below(ps, root, pid, n)
  }

  /** Going up leads from below. */
  lemma {:induction false} UpIsBelow(ps: seq<Process>, pid: nat, k: nat)
    requires Up(Index(ps), pid, k).Some?
    ensures Below(ps, Up(Index(ps), pid, k).value, pid, k)
    decreases k
  {
    if k > 0 {
      var m := Index(ps);
      UpFromParent(m, pid, k - 1);
      UpIsBelow(ps, m[pid].ppid, k - 1);
      assert m[pid] in ps;
      assert Edge(ps, pid, m[pid].ppid);
    }
  }

  /** The index and the list agree, as they do when no pid is listed twice. */
  ghost predicate Agrees(ps: seq<Process>, m: ByPid) {
    forall e :: e in ps ==> e.pid > 0 && e.pid in m && m[e.pid] == e
  }

  lemma {:induction false} TableAgrees(ps: seq<Process>)
    requires Table(ps)
    ensures Agrees(ps, Index(ps))
  {
    forall e | e in ps ensures e.pid > 0 && e.pid in Index(ps) && Index(ps)[e.pid] == e {
      var i :| 0 <= i < |ps| && ps[i] == e;
      IndexFinds(ps, e);
    }
  }

  /** ... and on a real process table coming down leads back up. */
  lemma {:induction false} BelowIsUp(ps: seq<Process>, m: ByPid, root: nat, pid: nat, n: nat)
    requires Agrees(ps, m) && root > 0 && Below(ps, root, pid, n)
    ensures pid > 0 && Up(m, pid, n) == Some(root)
    decreases n
  {
    if n > 0 {
      var parent :| Edge(ps, pid, parent) && Below(ps, root, parent, n - 1);
      BelowIsUp(ps, m, root, parent, n - 1);
      UpFromParent(m, pid, n - 1);
    }
  }

  function Kids(children: map<nat, seq<nat>>, pid: nat): seq<nat> {
    if pid in children then children[pid] else []
  }

  method ListChildren(ps: seq<Process>) returns (children: map<nat, seq<nat>>)
    ensures forall a, b :: b in Kids(children, a) <==> Edge(ps, b, a)
  {
    children := map[];
    for i := 0 to |ps|
      invariant forall a, b :: b in Kids(children, a) <==> Edge(ps[..i], b, a)
    {
      var e := ps[i];
      ghost var before := children;
      children := children[e.ppid := Kids(children, e.ppid) + [e.pid]];
      assert ps[..i + 1] == ps[..i] + [e];
      forall a, b ensures b in Kids(children, a) <==> Edge(ps[..i + 1], b, a) {
        assert b in Kids(children, a) <==> b in Kids(before, a) || (a == e.ppid && b == e.pid);
        assert e in ps[..i + 1];
      }
    }
    assert ps[..|ps|] == ps;
  }

  lemma {:induction false} ClosedHoldsBelow(ps: seq<Process>, root: nat, s: set<nat>, pid: nat, n: nat)
    requires root in s && forall a, b :: Edge(ps, b, a) && a in s ==> b in s
    requires Below(ps, root, pid, n)
    ensures pid in s
    decreases n
  {
    if n > 0 {
      var parent :| Edge(ps, pid, parent) && Below(ps, root, parent, n - 1);
      ClosedHoldsBelow(ps, root, s, parent, n - 1);
    }
  }

  lemma {:induction false} ChildDescends(ps: seq<Process>, root: nat, child: nat, parent: nat)
    requires Edge(ps, child, parent) && Descends(ps, root, parent)
    ensures Descends(ps, root, child)
  {
    var n: nat :| Below(ps, root, parent, n);
    assert Below(ps, root, child, n + 1);
  }

  method PushUnprotected(descendants: seq<nat>, kids: seq<nat>, protected: set<nat>) returns (more: seq<nat>)
    ensures forall p :: p in more <==> p in descendants || (p in kids && p !in protected)
  {
    more := descendants;
    for i := 0 to |kids|
      invariant forall p :: p in more <==> p in descendants || (p in kids[..i] && p !in protected)
    {
      assert kids[..i + 1] == kids[..i] + [kids[i]];
      if kids[i] !in protected { more := more + [kids[i]]; }
    }
    assert kids[..|kids|] == kids;
  }

  /** The protected set is exactly the protected root and what descends from it; the worklist
      ends on every table, cyclic ones included. */
  method BuildProtectedPidSet(ps: seq<Process>, currentPid: nat) returns (protected: set<nat>, ghost root: nat)
    requires Halts(Index(ps), currentPid)
    ensures IsProtectedRoot(Index(ps), currentPid, root)
    ensures forall pid :: pid in protected <==> Descends(ps, root, pid)
    ensures forall r, pid :: IsProtectedRoot(Index(ps), currentPid, r) ==> (pid in protected <==> Descends(ps, r, pid))
  {
    var children := ListChildren(ps);
    var protectedRootPid := ResolveProtectedRootPid(ps, currentPid);
    root := protectedRootPid;
    protected := {};
    var descendants := [protectedRootPid];
    ghost var all := {root} + set e | e in ps :: e.pid;
    assert Below(ps, root, root, 0);
    while |descendants| > 0
      invariant root in protected || root in descendants
      invariant protected <= all
      invariant forall p :: p in descendants ==> p in all && Descends(ps, root, p)
      invariant forall p :: p in protected ==> Descends(ps, root, p)
      invariant forall a, b :: a in protected && Edge(ps, b, a) ==> b in protected || b in descendants
      decreases all - protected, |descendants|
    {
      var pid := descendants[|descendants| - 1];
      assert descendants == descendants[..|descendants| - 1] + [pid];
      descendants := descendants[..|descendants| - 1];
      if pid in protected {
        continue;
      }
      assert all - (protected + {pid}) < all - protected;
      protected := protected + {pid};
      var kids := Kids(children, pid);
      forall p | p in kids ensures p in all && Descends(ps, root, p) {
        ChildDescends(ps, root, p, pid);
      }
      descendants := PushUnprotected(descendants, kids, protected);
    }
    forall pid | Descends(ps, root, pid) ensures pid in protected {
      var n: nat :| Below(ps, root, pid, n);
      ClosedHoldsBelow(ps, root, protected, pid, n);
    }
    forall r | IsProtectedRoot(Index(ps), currentPid, r) ensures r == root {
      RootUnique(Index(ps), currentPid, r, root);
    }
  }

  /** The current process always descends from its protected root. */
  lemma {:induction false} CurrentIsProtected(ps: seq<Process>, currentPid: nat, root: nat)
    requires IsProtectedRoot(Index(ps), currentPid, root)
    ensures Descends(ps, root, currentPid)
  {
    if k: nat :| Up(Index(ps), currentPid, k) == Some(root) {
      UpIsBelow(ps, currentPid, k);
    } else {
      assert Below(ps, root, currentPid, 0);
    }
  }

  /** Whatever was reached downwards from a Codex root has, on the walk upwards, a Codex ancestor. */
  lemma {:induction false} ProtectedHasCodexAncestor(ps: seq<Process>, root: nat, pid: nat)
    requires Table(ps) && root > 0 && IsCodex(Index(ps), root)
    requires Descends(ps, root, pid) && pid != root
    ensures HasAncestor(Index(ps), pid, (c: Command) => c.codex)
  {
    var n: nat :| Below(ps, root, pid, n);
    TableAgrees(ps);
    BelowIsUp(ps, Index(ps), root, pid, n);
    assert MatchesAt(Index(ps), pid, (c: Command) => c.codex, n);
  }

  /** With pid 1 at the top of the table, nothing below another process is a child of pid 1 or 0. */
  lemma {:induction false} NotBelowInit(ps: seq<Process>, m: ByPid, root: nat, e: Process)
    requires Agrees(ps, m) && root > 1 && forall p :: p in ps && p.pid == 1 ==> p.ppid == 0
    requires e in ps && e.pid != root && Descends(ps, root, e.pid)
    ensures e.ppid > 1
  {
    var n: nat :| Below(ps, root, e.pid, n);
    var parent :| Edge(ps, e.pid, parent) && Below(ps, root, parent, n - 1);
    assert m[e.pid] == e && parent == e.ppid;
    BelowIsUp(ps, m, root, parent, n - 1);
    if parent != root {
      var above :| Edge(ps, parent, above) && Below(ps, root, above, n - 2);
      BelowIsUp(ps, m, root, above, n - 2);
    }
  }
}
