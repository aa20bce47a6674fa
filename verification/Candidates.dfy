/** Which MCP server processes a cleanup may kill. */
module Candidates {
  import opened Wrappers
  import opened Sequences
  import opened ProcessTree

  datatype Reason = InitChild | OutsideSession | DuplicateSibling

  datatype Candidate = Candidate(process: Process, reason: Reason)

  type Key = (nat, string)

  predicate IsMcp(p: Process) {
    p.command.entrypoint.Some?
  }

  function KeyOf(p: Process): Key
    requires IsMcp(p)
  {
    (p.ppid, p.command.entrypoint.value)
  }

  function PidOf(p: Process): nat { p.pid }

  function CandidatePid(c: Candidate): nat { c.process.pid }

  /** Two MCP processes of one parent that run the same entrypoint. */
  predicate Siblings(p: Process, q: Process) {
    p.command.entrypoint.Some? && q.command.entrypoint == p.command.entrypoint && q.ppid == p.ppid
  }

  /** A newer sibling runs the same entrypoint. */
  predicate Superseded(ps: seq<Process>, p: Process) {
    exists q :: q in ps && Siblings(p, q) && p.pid < q.pid
  }

  function Group(ps: seq<Process>, key: Key): seq<Process> {
    Filter(ps, (p: Process) => IsMcp(p) && KeyOf(p) == key)
  }

  lemma {:induction false} FilterAppend(s: seq<Process>, x: Process, keep: Process -> bool)
    ensures Filter(s + [x], keep) == Filter(s, keep) + if keep(x) then [x] else []
  {
    if s == [] {
      assert s + [x] == [x] && [x][1..] == [];
    } else {
      FilterAppend(s[1..], x, keep);
      assert (s + [x])[1..] == s[1..] + [x];
    }
  }

  lemma {:induction false} GroupAppend(ps: seq<Process>, e: Process, k: Key)
    ensures Group(ps + [e], k) == Group(ps, k) + if IsMcp(e) && KeyOf(e) == k then [e] else []
  {
    FilterAppend(ps, e, (p: Process) => IsMcp(p) && KeyOf(p) == k);
  }

  ghost predicate Grouped(ps: seq<Process>, groups: map<Key, seq<Process>>) {
    && (forall k :: k in groups ==> groups[k] == Group(ps, k) && groups[k] != [])
    && (forall k :: k !in groups ==> Group(ps, k) == [])
  }

  lemma {:induction false} GroupedAppend(ps: seq<Process>, e: Process, groups: map<Key, seq<Process>>)
    requires Grouped(ps, groups)
    ensures !IsMcp(e) ==> Grouped(ps + [e], groups)
    ensures IsMcp(e) ==>
              Grouped(ps + [e], groups[KeyOf(e) := (if KeyOf(e) in groups then groups[KeyOf(e)] else []) + [e]])
  {
    forall k: Key ensures Group(ps + [e], k) == Group(ps, k) + if IsMcp(e) && KeyOf(e) == k then [e] else [] {
      GroupAppend(ps, e, k);
    }
  }

  /** Groups the MCP processes by parent and entrypoint, the keys in order of first sight. */
  method GroupSiblings(ps: seq<Process>) returns (keys: seq<Key>, groups: map<Key, seq<Process>>)
    ensures forall i, j :: 0 <= i < j < |keys| ==> keys[i] != keys[j]
    ensures forall k :: k in keys <==> k in groups
    ensures forall p :: p in ps && IsMcp(p) ==> KeyOf(p) in groups
    ensures forall k :: k in groups ==> groups[k] == Group(ps, k) && groups[k] != []
  {
    keys, groups := [], map[];
    for i := 0 to |ps|
      invariant forall i, j :: 0 <= i < j < |keys| ==> keys[i] != keys[j]
      invariant forall k :: k in keys <==> k in groups
      invariant forall p :: p in ps[..i] && IsMcp(p) ==> KeyOf(p) in groups
      invariant Grouped(ps[..i], groups)
    {
      var e := ps[i];
      assert ps[..i + 1] == ps[..i] + [e];
      GroupedAppend(ps[..i], e, groups);
      if IsMcp(e) {
        var key := KeyOf(e);
        var group := if key in groups then groups[key] else [];
        if key !in groups { keys := keys + [key]; }
        groups := groups[key := group + [e]];
      }
    }
    assert ps[..|ps|] == ps;
  }

  /** A group loses all but its newest member. */
  lemma {:induction false} GroupLosers(ps: seq<Process>, key: Key)
    requires Table(ps) && Group(ps, key) != []
    ensures var sorted := SortBy(Group(ps, key), PidOf);
            && sorted != [] && Increasing(sorted, PidOf)
            && (forall p :: p in sorted[..|sorted| - 1] <==>
                  p in ps && IsMcp(p) && KeyOf(p) == key && Superseded(ps, p))
  {
    var group := Group(ps, key);
    var keep := (p: Process) => IsMcp(p) && KeyOf(p) == key;
    FilterContents(ps, keep);
    FilterDistinct(ps, keep, PidOf);
    SortByDistinct(group, PidOf);
    var sorted := SortBy(group, PidOf);
    AllButLast(sorted, PidOf);
    forall p ensures p in sorted[..|sorted| - 1] <==> p in ps && IsMcp(p) && KeyOf(p) == key && Superseded(ps, p) {
      LosesIff(ps, key, sorted, p);
    }
  }

  lemma {:induction false} LosesIff(ps: seq<Process>, key: Key, sorted: seq<Process>, p: Process)
    requires forall q :: q in sorted <==> q in ps && IsMcp(q) && KeyOf(q) == key
    ensures (p in sorted && exists q :: q in sorted && PidOf(p) < PidOf(q)) <==>
              (p in ps && IsMcp(p) && KeyOf(p) == key && Superseded(ps, p))
  {
    if p in ps && IsMcp(p) && KeyOf(p) == key && Superseded(ps, p) {
      var q :| q in ps && Siblings(p, q) && p.pid < q.pid;
      assert q in sorted && PidOf(p) < PidOf(q);
    }
    if p in sorted && exists q :: q in sorted && PidOf(p) < PidOf(q) {
      var q :| q in sorted && PidOf(p) < PidOf(q);
      assert q in ps && Siblings(p, q);
    }
  }

  function AsDuplicates(s: seq<Process>): (r: seq<Candidate>)
    ensures |r| == |s| && forall i :: 0 <= i < |s| ==> r[i] == Candidate(s[i], DuplicateSibling)
  {
    seq(|s|, i requires 0 <= i < |s| => Candidate(s[i], DuplicateSibling))
  }

  lemma {:induction false} SamePid(ps: seq<Process>, p: Process, q: Process)
    requires Table(ps) && p in ps && q in ps && p.pid == q.pid
    ensures p == q
  {
    IndexFinds(ps, p);
    IndexFinds(ps, q);
  }

  ghost predicate IsDuplicate(ps: seq<Process>, c: Candidate) {
    c.process in ps && IsMcp(c.process) && Superseded(ps, c.process) && c.reason == DuplicateSibling
  }

  /** One more group's losers, none of which was listed under an earlier key. */
  lemma {:induction false} AppendLosers(ps: seq<Process>, listed: seq<Candidate>, losers: seq<Process>, key: Key)
    requires Table(ps) && Distinct(listed, CandidatePid) && Increasing(losers, PidOf)
    requires forall c :: c in listed ==> IsDuplicate(ps, c) && KeyOf(c.process) != key
    requires forall p :: p in losers ==> p in ps && IsMcp(p) && KeyOf(p) == key
    ensures Distinct(listed + AsDuplicates(losers), CandidatePid)
  {
    var added := AsDuplicates(losers);
    forall i, j | 0 <= i < |listed| && 0 <= j < |added| ensures CandidatePid(listed[i]) != CandidatePid(added[j]) {
      assert listed[i] in listed && losers[j] in losers;
      if CandidatePid(listed[i]) == CandidatePid(added[j]) {
        SamePid(ps, listed[i].process, losers[j]);
      }
    }
  }

  /** Lists, in rising order of pid, exactly the processes that a newer sibling supersedes. */
  method FindDuplicateSiblingCleanupCandidates(ps: seq<Process>) returns (result: seq<Candidate>)
    requires Table(ps)
    ensures Increasing(result, CandidatePid)
    ensures forall c :: c in result <==> IsDuplicate(ps, c)
  {
    var keys, groups := GroupSiblings(ps);
    var candidates: seq<Candidate> := [];
    for i := 0 to |keys|
      invariant Distinct(candidates, CandidatePid)
      invariant forall c :: c in candidates <==> IsDuplicate(ps, c) && KeyOf(c.process) in keys[..i]
    {
      assert keys[i] in keys;
      var group := groups[keys[i]];
      GroupLosers(ps, keys[i]);
      var sorted := SortBy(group, PidOf);
      var losers := sorted[..|sorted| - 1];
      AppendLosers(ps, candidates, losers, keys[i]);
      ghost var before := candidates;
      candidates := candidates + AsDuplicates(losers);
      assert keys[..i + 1] == keys[..i] + [keys[i]];
      forall c ensures c in candidates <==> IsDuplicate(ps, c) && KeyOf(c.process) in keys[..i + 1] {
        ListsLosers(losers, c);
      }
    }
    assert keys[..|keys|] == keys;
    SortByDistinct(candidates, CandidatePid);
    result := SortBy(candidates, CandidatePid);
  }

  lemma {:induction false} ListsLosers(losers: seq<Process>, c: Candidate)
    ensures c in AsDuplicates(losers) <==> c.process in losers && c.reason == DuplicateSibling
  {
    if c.process in losers && c.reason == DuplicateSibling {
      var i :| 0 <= i < |losers| && losers[i] == c.process;
      assert AsDuplicates(losers)[i] == c;
    }
  }

  // ----- the partition

  ghost function McpOf(ps: seq<Process>): set<Process> {
    set p | p in ps && p.command.entrypoint.Some?
  }

  ghost function KeysOf(ps: seq<Process>): set<(nat, string)> {
    set p | p in McpOf(ps) :: (p.ppid, p.command.entrypoint.value)
  }

  ghost function NewestOf(ps: seq<Process>): set<Process> {
    set p | p in ps && IsMcp(p) && !Superseded(ps, p)
  }

  lemma {:induction false} NewestSibling(ps: seq<Process>, p: Process) returns (q: Process)
    requires p in ps && IsMcp(p)
    ensures q in NewestOf(ps) && KeyOf(q) == KeyOf(p)
    decreases set r | r in ps && r.pid > p.pid
  {
    if Superseded(ps, p) {
      var n :| n in ps && Siblings(p, n) && p.pid < n.pid;
      var above, aboveN := set r | r in ps && r.pid > p.pid, set r | r in ps && r.pid > n.pid;
      assert aboveN <= above && n in above && n !in aboveN;
      q := NewestSibling(ps, n);
    } else {
      q := p;
    }
  }

  lemma {:induction false} KeysCount(s: set<Process>)
    requires forall p :: p in s ==> IsMcp(p)
    requires forall p, q :: p in s && q in s && KeyOf(p) == KeyOf(q) ==> p == q
    ensures |set p | p in s :: KeyOf(p)| == |s|
  {
    if s != {} {
      var p :| p in s;
      var t := s - {p};
      KeysCount(t);
      var keys, keysT := set q | q in s :: KeyOf(q), set q | q in t :: KeyOf(q);
      assert keys == keysT + {KeyOf(p)};
      assert KeyOf(p) !in keysT;
    }
  }

  ghost function ProcessesOf(s: seq<Candidate>): set<Process> {
    set c | c in s :: c.process
  }

  lemma {:induction false} ProcessesAppend(s: seq<Candidate>, c: Candidate)
    ensures ProcessesOf(s + [c]) == ProcessesOf(s) + {c.process}
  {
    forall p | p in ProcessesOf(s) ensures p in ProcessesOf(s + [c]) {
      var d :| d in s && d.process == p;
      assert d in s + [c];
    }
    assert c in s + [c];
  }

  lemma {:induction false} ListedCount(s: seq<Candidate>)
    requires Increasing(s, CandidatePid)
    ensures |ProcessesOf(s)| == |s|
  {
    if s != [] {
      var n := |s| - 1;
      assert s == s[..n] + [s[n]];
      ListedCount(s[..n]);
      ProcessesAppend(s[..n], s[n]);
      LastIsNew(s, n);
    }
  }

  lemma {:induction false} LastIsNew(s: seq<Candidate>, n: nat)
    requires Increasing(s, CandidatePid) && n < |s|
    ensures s[n].process !in ProcessesOf(s[..n])
  {
    forall c | c in s[..n] ensures c.process != s[n].process {
      var i :| 0 <= i < n && s[i] == c;
      assert CandidatePid(s[i]) < CandidatePid(s[n]);
    }
  }

  /** Each group of siblings keeps exactly its newest member: the MCP processes are the listed
      duplicates plus one survivor for every (parent, entrypoint) group. */
  lemma {:induction false} DuplicatesPartition(ps: seq<Process>, duplicates: seq<Candidate>)
    requires Table(ps) && Increasing(duplicates, CandidatePid)
    requires forall c :: c in duplicates <==> IsDuplicate(ps, c)
    ensures |McpOf(ps)| == |duplicates| + |KeysOf(ps)|
    ensures |NewestOf(ps)| == |KeysOf(ps)|
  {
    var losers := ProcessesOf(duplicates);
    ListedCount(duplicates);
    var newest := NewestOf(ps);
    forall p | p in McpOf(ps) ensures p in losers + newest {
      if p !in newest { assert Candidate(p, DuplicateSibling) in duplicates; }
    }
    assert McpOf(ps) == losers + newest && losers !! newest;
    forall p, q | p in newest && q in newest && KeyOf(p) == KeyOf(q) ensures p == q {
      assert Siblings(p, q) && Siblings(q, p);
      SamePid(ps, p, q);
    }
    KeysCount(newest);
    var newestKeys := set p | p in newest :: KeyOf(p);
    forall k | k in KeysOf(ps) ensures k in newestKeys {
      var p :| p in McpOf(ps) && KeyOf(p) == k;
      var q := NewestSibling(ps, p);
    }
    assert newestKeys == KeysOf(ps);
  }

  // ----- the full selection

  function AsOrphans(s: seq<Process>): (r: seq<Candidate>)
    ensures |r| == |s|
    ensures forall i :: 0 <= i < |s| ==>
      r[i] == Candidate(s[i], if s[i].ppid <= 1 then InitChild else OutsideSession)
  {
    seq(|s|, i requires 0 <= i < |s| => Candidate(s[i], if s[i].ppid <= 1 then InitChild else OutsideSession))
  }

  lemma {:induction false} ListsOrphans(s: seq<Process>, c: Candidate)
    ensures c in AsOrphans(s) <==>
      c.process in s && c.reason == if c.process.ppid <= 1 then InitChild else OutsideSession
  {
    if c.process in s && c.reason == if c.process.ppid <= 1 then InitChild else OutsideSession {
      var i :| 0 <= i < |s| && s[i] == c.process;
      assert AsOrphans(s)[i] == c;
    }
  }

  ghost predicate Outside(ps: seq<Process>, currentPid: nat, pid: nat) {
    forall root :: IsProtectedRoot(Index(ps), currentPid, root) ==> !Descends(ps, root, pid)
  }

  /** Another MCP process, either superseded by a newer sibling or outside the session. */
  ghost predicate Selected(ps: seq<Process>, currentPid: nat, c: Candidate) {
    && c.process in ps && IsMcp(c.process) && c.process.pid != currentPid
    && c.reason == (if Superseded(ps, c.process) then DuplicateSibling
                    else if c.process.ppid <= 1 then InitChild else OutsideSession)
    && (Superseded(ps, c.process) || Outside(ps, currentPid, c.process.pid))
  }

  lemma {:induction false} OutsideIff(ps: seq<Process>, currentPid: nat, root: nat, protected: set<nat>, pid: nat)
    requires IsProtectedRoot(Index(ps), currentPid, root)
    requires forall p :: p in protected <==> Descends(ps, root, p)
    ensures Outside(ps, currentPid, pid) <==> pid !in protected
  {
    if pid !in protected {
      forall r | IsProtectedRoot(Index(ps), currentPid, r) ensures !Descends(ps, r, pid) {
        RootUnique(Index(ps), currentPid, r, root);
      }
    }
  }

  lemma {:induction false} DistinctUnion(ps: seq<Process>, a: seq<Candidate>, b: seq<Process>)
    requires Table(ps) && Distinct(a, CandidatePid) && Distinct(b, PidOf)
    requires forall c :: c in a ==> c.process in ps
    requires forall p :: p in b ==> p in ps && Candidate(p, DuplicateSibling) !in a
    requires forall c :: c in a ==> c.reason == DuplicateSibling
    ensures Distinct(a + AsOrphans(b), CandidatePid)
  {
    var orphans := AsOrphans(b);
    forall i, j | 0 <= i < |a| && 0 <= j < |orphans| ensures CandidatePid(a[i]) != CandidatePid(orphans[j]) {
      assert a[i] in a && b[j] in b;
      if CandidatePid(a[i]) == CandidatePid(orphans[j]) {
        SamePid(ps, a[i].process, b[j]);
      }
    }
  }

  /** A pid is among the duplicates' exactly when its process is superseded. */
  lemma {:induction false} DuplicatePid(ps: seq<Process>, currentPid: nat, duplicates: seq<Candidate>, p: Process)
    requires Table(ps) && p in ps && IsMcp(p) && p.pid != currentPid
    requires forall c :: c in duplicates <==> IsDuplicate(ps, c) && c.process.pid != currentPid
    ensures (exists c :: c in duplicates && c.process.pid == p.pid) <==> Superseded(ps, p)
  {
    if c :| c in duplicates && c.process.pid == p.pid {
      SamePid(ps, c.process, p);
    }
    if Superseded(ps, p) {
      assert Candidate(p, DuplicateSibling) in duplicates;
    }
  }

  function NotPid(pid: nat): Candidate -> bool {
    (c: Candidate) => c.process.pid != pid
  }

  function IsOrphan(currentPid: nat, duplicatePids: set<nat>, protected: set<nat>): Process -> bool {
    (p: Process) => p.pid != currentPid && IsMcp(p) && p.pid !in duplicatePids && p.pid !in protected
  }

  /** What the two lists hold between them. */
  lemma {:induction false} ListedIsSelected(ps: seq<Process>, currentPid: nat, root: nat, protected: set<nat>,
                                            duplicates: seq<Candidate>, orphans: seq<Process>, c: Candidate)
    requires Table(ps) && IsProtectedRoot(Index(ps), currentPid, root)
    requires forall p :: p in protected <==> Descends(ps, root, p)
    requires forall d :: d in duplicates <==> IsDuplicate(ps, d) && d.process.pid != currentPid
    requires c.process in orphans <==> c.process in ps && IsOrphan(currentPid, PidSet(duplicates), protected)(c.process)
    ensures c in duplicates + AsOrphans(orphans) <==> Selected(ps, currentPid, c)
  {
    ListsOrphans(orphans, c);
    OutsideIff(ps, currentPid, root, protected, c.process.pid);
    if c.process in ps && IsMcp(c.process) && c.process.pid != currentPid {
      DuplicatePid(ps, currentPid, duplicates, c.process);
    }
  }

  function PidSet(s: seq<Candidate>): set<nat> {
    set c | c in s :: c.process.pid
  }

  lemma {:induction false} OrphanIsNotDuplicate(p: Process, duplicates: seq<Candidate>)
    requires p.pid !in PidSet(duplicates)
    ensures Candidate(p, DuplicateSibling) !in duplicates
  {
    var c := Candidate(p, DuplicateSibling);
    assert c in duplicates ==> c.process.pid in PidSet(duplicates);
  }

  /** The duplicates but for the current process. */
  method OtherDuplicates(ps: seq<Process>, currentPid: nat) returns (duplicates: seq<Candidate>)
    requires Table(ps)
    ensures Distinct(duplicates, CandidatePid)
    ensures forall d :: d in duplicates <==> IsDuplicate(ps, d) && d.process.pid != currentPid
  {
    var all := FindDuplicateSiblingCleanupCandidates(ps);
    FilterContents(all, NotPid(currentPid));
    FilterDistinct(all, NotPid(currentPid), CandidatePid);
    duplicates := Filter(all, NotPid(currentPid));
  }

  /** The manual cleanup's selection, exactly, in strictly rising order of pid. */
  method FindCleanupCandidates(ps: seq<Process>, currentPid: nat) returns (result: seq<Candidate>)
    requires Table(ps) && Halts(Index(ps), currentPid)
    ensures Increasing(result, CandidatePid)
    ensures forall c :: c in result <==> Selected(ps, currentPid, c)
  {
    var protected, root := BuildProtectedPidSet(ps, currentPid);
    var duplicates := OtherDuplicates(ps, currentPid);
    ghost var wanted := IsOrphan(currentPid, PidSet(duplicates), protected);
    var orphans := Filter(ps, IsOrphan(currentPid, PidSet(duplicates), protected));
    FilterContents(ps, wanted);
    FilterDistinct(ps, wanted, PidOf);
    forall p | p in orphans ensures p in ps && Candidate(p, DuplicateSibling) !in duplicates {
      OrphanIsNotDuplicate(p, duplicates);
    }
    var listed := duplicates + AsOrphans(orphans);
    DistinctUnion(ps, duplicates, orphans);
    SortByDistinct(listed, CandidatePid);
    result := SortBy(listed, CandidatePid);
    forall c ensures c in listed <==> Selected(ps, currentPid, c) {
      ListedIsSelected(ps, currentPid, root, protected, duplicates, orphans, c);
    }
  }

  function CodexSession(): Command -> bool { (c: Command) => c.codex }

  function OmxLaunch(): Command -> bool { (c: Command) => c.omxLaunch }

  ghost predicate LaunchesAt(m: ByPid, pid: nat, k: nat) {
    var a := Up(m, pid, k);
    a.Some? && a.value in m && (m[a.value].command.codex || m[a.value].command.omxLaunch)
  }

  /** Left to init, or no proper ancestor is a Codex session or an OMX launch. */
  ghost predicate LaunchSafe(ps: seq<Process>, p: Process) {
    p.ppid <= 1 || forall k: nat :: k > 0 ==> !LaunchesAt(Index(ps), p.pid, k)
  }

  lemma {:induction false} LaunchesIff(m: ByPid, pid: nat)
    ensures HasAncestor(m, pid, CodexSession()) || HasAncestor(m, pid, OmxLaunch()) <==>
              exists k: nat :: k > 0 && LaunchesAt(m, pid, k)
  {
    if k: nat :| k > 0 && LaunchesAt(m, pid, k) {
      assert MatchesAt(m, pid, CodexSession(), k) || MatchesAt(m, pid, OmxLaunch(), k);
    }
    if k: nat :| k > 0 && MatchesAt(m, pid, CodexSession(), k) {
      assert LaunchesAt(m, pid, k);
    }
    if k: nat :| k > 0 && MatchesAt(m, pid, OmxLaunch(), k) {
      assert LaunchesAt(m, pid, k);
    }
  }

  /** The automatic cleanup's selection: the manual one without whatever still hangs below a
      Codex or OMX launch process. */
  method FindLaunchSafeCleanupCandidates(ps: seq<Process>, currentPid: nat) returns (result: seq<Candidate>)
    requires Table(ps) && Halts(Index(ps), currentPid)
    ensures forall c :: c in result <==> Selected(ps, currentPid, c) && LaunchSafe(ps, c.process)
    ensures Increasing(result, CandidatePid)
  {
    var processByPid := Index(ps);
    var candidates := FindCleanupCandidates(ps, currentPid);
    result := [];
    for i := 0 to |candidates|
      invariant forall c :: c in result <==> c in candidates[..i] && LaunchSafe(ps, c.process)
      invariant Increasing(result, CandidatePid)
    {
      var c := candidates[i];
      assert candidates[..i + 1] == candidates[..i] + [c];
      var keep := IsLaunchSafe(ps, processByPid, c.process);
      IncreasingAppend(candidates, i, result);
      if keep { result := result + [c]; }
    }
    assert candidates[..|candidates|] == candidates;
  }

  lemma {:induction false} IncreasingAppend(all: seq<Candidate>, i: nat, some: seq<Candidate>)
    requires i < |all| && Increasing(all, CandidatePid) && Increasing(some, CandidatePid)
    requires forall c :: c in some ==> c in all[..i]
    ensures Increasing(some + [all[i]], CandidatePid)
  {
    forall k | 0 <= k < |some| ensures CandidatePid(some[k]) < CandidatePid(all[i]) {
      assert some[k] in all[..i];
      var j :| 0 <= j < i && all[..i][j] == some[k];
      assert CandidatePid(all[j]) < CandidatePid(all[i]);
    }
  }

  method IsLaunchSafe(ps: seq<Process>, processByPid: ByPid, p: Process) returns (safe: bool)
    requires processByPid == Index(ps)
    ensures safe <==> LaunchSafe(ps, p)
  {
    if p.ppid <= 1 { return true; }
    LaunchesIff(processByPid, p.pid);
    var codex := HasAncestorMatching(processByPid, p.pid, CodexSession());
    if codex { return false; }
    var launch := HasAncestorMatching(processByPid, p.pid, OmxLaunch());
    return !launch;
  }

  /** Launch-safe cleanup spares whatever a Codex session or an OMX launch started, at whatever depth, but for a process
      whose parent is pid 0 or 1. */
  lemma {:induction false} LaunchSafeSparesLaunch(ps: seq<Process>, currentPid: nat, launch: Process, c: Candidate)
    requires Table(ps) && launch in ps && (launch.command.codex || launch.command.omxLaunch)
    requires Descends(ps, launch.pid, c.process.pid) && c.process.pid != launch.pid
    requires Selected(ps, currentPid, c) && LaunchSafe(ps, c.process)
    ensures c.process.ppid <= 1
  {
    var m := Index(ps);
    TableAgrees(ps);
    assert launch.pid > 0 && m[launch.pid] == launch;
    var n: nat :| Below(ps, launch.pid, c.process.pid, n);
    BelowIsUp(ps, m, launch.pid, c.process.pid, n);
    assert n > 0;
    assert LaunchesAt(m, c.process.pid, n);
  }

  /** So, when the protected root is a Codex process, none of the session's other processes is selected. */
  lemma {:induction false} LaunchSafeSparesSession(ps: seq<Process>, currentPid: nat, root: nat, c: Candidate)
    requires Table(ps) && IsProtectedRoot(Index(ps), currentPid, root) && IsCodex(Index(ps), root)
    requires Descends(ps, root, c.process.pid) && c.process.pid != root
    requires Selected(ps, currentPid, c) && LaunchSafe(ps, c.process)
    ensures c.process.ppid <= 1
  {
    LaunchSafeSparesLaunch(ps, currentPid, Index(ps)[root], c);
  }

  /** With pid 1 at the top of the table, no exception is left. */
  lemma {:induction false} LaunchSafeSparesAll(ps: seq<Process>, currentPid: nat, root: nat, c: Candidate)
    requires Table(ps) && IsProtectedRoot(Index(ps), currentPid, root) && IsCodex(Index(ps), root)
    requires root > 1 && forall p :: p in ps && p.pid == 1 ==> p.ppid == 0
    requires Descends(ps, root, c.process.pid) && c.process.pid != root
    ensures !(Selected(ps, currentPid, c) && LaunchSafe(ps, c.process))
  {
    if Selected(ps, currentPid, c) && LaunchSafe(ps, c.process) {
      LaunchSafeSparesSession(ps, currentPid, root, c);
      TableAgrees(ps);
      NotBelowInit(ps, Index(ps), root, c.process);
    }
  }
}
