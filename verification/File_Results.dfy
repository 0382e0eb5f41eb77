/** Safe shutdown, ownership of entries, and convergence after rewrites. */
module FileResults {
  import opened FileModel

  /** How many decode goroutines have not yet left the wait group. */
  ghost function Alive(infos: seq<Info>): nat {
    if infos == [] then 0
    else Alive(infos[..|infos| - 1]) + if infos[|infos| - 1].phase.Gone? then 0 else 1
  }

  lemma {:induction false} AliveUpdate(infos: seq<Info>, id: nat, i: Info)
    requires id < |infos|
    ensures Alive(infos[id := i]) - (if i.phase.Gone? then 0 else 1)
         == Alive(infos) - (if infos[id].phase.Gone? then 0 else 1)
    decreases |infos|
  {
    var n := |infos| - 1;
    var upd := infos[id := i];
    if id == n {
      assert upd[..n] == infos[..n];
    } else {
      assert upd[..n] == infos[..n][id := i];
      AliveUpdate(infos[..n], id, i);
    }
  }

  lemma {:induction false} NoneAlive(infos: seq<Info>, id: nat)
    requires Alive(infos) == 0 && id < |infos|
    ensures infos[id].phase.Gone?
    decreases |infos|
  {
    if id < |infos| - 1 {
      NoneAlive(infos[..|infos| - 1], id);
    }
  }

  lemma {:induction false} SomeAlive(infos: seq<Info>) returns (id: nat)
    requires Alive(infos) > 0
    ensures id < |infos| && !infos[id].phase.Gone?
    decreases |infos|
  {
    id := |infos| - 1;
    if infos[id].phase.Gone? {
      id := SomeAlive(infos[..id]);
    }
  }

  /** Who holds the mutex, and what the map of entries refers to. */
  ghost predicate Locks(s: State) {
    && (s.mu.ByPoll? <==> !s.poll.Idle? && !s.poll.Globbed? && !s.poll.Exited?)
    && (s.mu.ByCloser? <==> s.closer.Holding?)
    && (s.poll.Checked? || s.poll.Statted? ==> s.poll.path !in s.tail)
    && (s.poll.Scan? ==> s.poll.todo <= s.tail.Keys)
    && (forall p :: p in s.tail ==> s.tail[p] < |s.infos| && s.infos[s.tail[p]].path == p)
  }

  /** Between the check of the context and the start of a decode the poll loop holds the mutex, so
      once Close has held it the loop is never between the two again. */
  ghost predicate Shutdown(s: State) {
    && s.wg == Alive(s.infos)
    && (!s.closer.NotClosing? ==> s.cancelled)
    && (s.closer.Holding? || s.closer.Waiting? || s.closer.Waited? ==> !s.poll.Checked? && !s.poll.Statted?)
    && (s.closer.Waited? ==> s.wg == 0)
    && !s.lateAdd && !s.lateShip
  }

  ghost predicate CanShip(i: Info) {
    i.phase.Start? || i.phase.Opened? || i.phase.Decode? || i.phase.Ship?
  }

  /** One goroutine's record is consistent with its phase. */
  ghost predicate Lawful(i: Info) {
    && i.decoding == (!i.phase.Cleared? && !i.phase.Gone?)
    && (i.shipped ==> i.phase.Finish? || i.phase.Cleared? || i.phase.Gone?)
  }

  ghost predicate Registered(i: Info) {
    i.shipped || CanShip(i) || i.phase.Failing?
  }

  /** Entries still in the map come from a decode that is under way, failing, or complete. */
  ghost predicate Ownership(s: State) {
    && (forall k :: 0 <= k < |s.infos| ==> Lawful(s.infos[k]))
    && (forall p :: p in s.tail ==> s.tail[p] < |s.infos| && Registered(s.infos[s.tail[p]]))
    && (forall k :: 0 <= k < |s.infos| && CanShip(s.infos[k]) && s.infos[k].path !in s.orphaned ==>
          s.infos[k].path in s.tail && s.tail[s.infos[k].path] == k)
  }

  ghost predicate Inv(s: State) {
    Locks(s) && Shutdown(s) && Ownership(s)
  }

  lemma ScanKeepsLocks(s: State, p: string, ok: bool)
    requires Locks(s) && PollEnabled(s, ScanOne(p, ok))
    ensures Locks(PollApply(s, ScanOne(p, ok)))
  {
    var t := PollApply(s, ScanOne(p, ok));
    assert t.tail == s.tail || t.tail == s.tail - {p};
    assert t.poll.todo == s.poll.todo - {p} && t.infos == s.infos;
  }

  lemma SpawnKeepsLocks(s: State)
    requires Locks(s) && PollEnabled(s, Spawn)
    ensures Locks(PollApply(s, Spawn))
  {
    var t := PollApply(s, Spawn);
    assert forall k :: 0 <= k < |s.infos| ==> t.infos[k] == s.infos[k];
    assert t.infos[|s.infos|].path == s.poll.path;
  }

  lemma PollKeepsLocks(s: State, a: PollAct)
    requires Locks(s) && PollEnabled(s, a)
    ensures Locks(PollApply(s, a))
  {
    match a
    case ScanOne(p, ok) => ScanKeepsLocks(s, p, ok);
    case Spawn => SpawnKeepsLocks(s);
    case _ => assert PollApply(s, a).tail == s.tail && PollApply(s, a).infos == s.infos;
  }

  lemma PollKeepsShutdown(s: State, a: PollAct)
    requires Locks(s) && Shutdown(s) && PollEnabled(s, a)
    ensures Shutdown(PollApply(s, a))
  {
    var t := PollApply(s, a);
    if a.Spawn? {
      assert t.infos[..|t.infos| - 1] == s.infos;
    } else {
      assert t.infos == s.infos;
    }
  }

  lemma SpawnKeepsOwnership(s: State)
    requires Locks(s) && Ownership(s) && PollEnabled(s, Spawn)
    ensures Ownership(PollApply(s, Spawn))
  {
    var t := PollApply(s, Spawn);
    assert forall k :: 0 <= k < |s.infos| ==> t.infos[k] == s.infos[k];
  }

  lemma ScanKeepsOwnership(s: State, p: string, ok: bool)
    requires Locks(s) && Ownership(s) && PollEnabled(s, ScanOne(p, ok))
    ensures Ownership(PollApply(s, ScanOne(p, ok)))
  {
    var t := PollApply(s, ScanOne(p, ok));
    assert t.infos == s.infos;
    assert t.tail == s.tail || t.tail == s.tail - {p};
    var id := s.tail[p];
    assert Lawful(s.infos[id]);
    assert p !in t.orphaned && p !in t.tail ==> !CanShip(s.infos[id]);
  }

  lemma PollKeeps(s: State, a: PollAct)
    requires Inv(s) && PollEnabled(s, a)
    ensures Inv(PollApply(s, a))
  {
    PollKeepsLocks(s, a);
    PollKeepsShutdown(s, a);
    match a
    case Spawn => SpawnKeepsOwnership(s);
    case ScanOne(p, ok) => ScanKeepsOwnership(s, p, ok);
    case _ => assert PollApply(s, a).tail == s.tail && PollApply(s, a).infos == s.infos;
  }

  lemma JobKeepsShutdown(s: State, id: nat, j: JobAct)
    requires Shutdown(s) && JobEnabled(s, id, j)
    ensures Shutdown(JobApply(s, id, j))
  {
    AliveUpdate(s.infos, id, JobInfo(s, id, j));
    if s.closer.Waited? {
      NoneAlive(s.infos, id);
    }
  }

  lemma JobKeepsLocks(s: State, id: nat, j: JobAct)
    requires Locks(s) && JobEnabled(s, id, j)
    ensures Locks(JobApply(s, id, j))
  {
    var t := JobApply(s, id, j);
    assert t.tail == s.tail || (j.Drop? && t.tail == s.tail - {s.infos[id].path});
    assert t.infos == s.infos[id := JobInfo(s, id, j)] && JobInfo(s, id, j).path == s.infos[id].path;
  }

  /** What one step of a goroutine does to its own record. */
  lemma JobInfoLawful(s: State, id: nat, j: JobAct)
    requires JobEnabled(s, id, j) && Lawful(s.infos[id])
    ensures Lawful(JobInfo(s, id, j))
    ensures CanShip(JobInfo(s, id, j)) ==> CanShip(s.infos[id])
    ensures Registered(s.infos[id]) && !j.Drop? ==> Registered(JobInfo(s, id, j))
    ensures JobInfo(s, id, j).path == s.infos[id].path
  {
  }

  lemma JobKeepsOwnership(s: State, id: nat, j: JobAct)
    requires Locks(s) && Ownership(s) && JobEnabled(s, id, j)
    ensures Ownership(JobApply(s, id, j))
  {
    var t := JobApply(s, id, j);
    assert Lawful(s.infos[id]);
    JobInfoLawful(s, id, j);
    assert t.infos == s.infos[id := JobInfo(s, id, j)];
    assert t.tail == if j.Drop? then Dropped(s.tail, s.infos[id].path, id) else s.tail;
    assert t.orphaned == s.orphaned;
    OwnershipUpdate(s, t, id, JobInfo(s, id, j), j.Drop?);
  }

  lemma OwnershipUpdate(s: State, t: State, id: nat, i: Info, drop: bool)
    requires Locks(s) && Ownership(s) && id < |s.infos| && t.infos == s.infos[id := i] && t.orphaned == s.orphaned
    requires i.path == s.infos[id].path && Lawful(i) && (CanShip(i) ==> CanShip(s.infos[id]))
    requires t.tail == if drop then Dropped(s.tail, i.path, id) else s.tail
    requires drop ==> !CanShip(s.infos[id])
    requires !drop && Registered(s.infos[id]) ==> Registered(i)
    ensures Ownership(t)
  {
    assert forall k :: 0 <= k < |t.infos| && k != id ==> t.infos[k] == s.infos[k];
  }

  lemma JobKeeps(s: State, id: nat, j: JobAct)
    requires Inv(s) && JobEnabled(s, id, j)
    ensures Inv(JobApply(s, id, j))
  {
    JobKeepsLocks(s, id, j);
    JobKeepsShutdown(s, id, j);
    JobKeepsOwnership(s, id, j);
  }

  lemma CloseKeeps(s: State, c: CloseAct)
    requires Inv(s) && CloseEnabled(s, c)
    ensures Inv(CloseApply(s, c))
  {
  }

  lemma StepKeeps(s: State, a: Action)
    requires Inv(s) && Enabled(s, a)
    ensures Inv(Apply(s, a))
  {
    match a
    case Poll(b) => PollKeeps(s, b);
    case Job(id, j) => JobKeeps(s, id, j);
    case Closer(c) => CloseKeeps(s, c);
    case Disk(_, _) =>
    case Unlink(_) =>
  }

  lemma {:induction false} RunKeeps(disk: map<string, Stat>, steps: seq<State>)
    requires Run(disk, steps)
    ensures Inv(steps[|steps| - 1])
    decreases |steps|
  {
    if |steps| > 1 {
      var s, a := RunLast(disk, steps);
      RunKeeps(disk, steps[..|steps| - 1]);
      StepKeeps(s, a);
    }
  }

  lemma ReachKeeps(disk: map<string, Stat>, s: State)
    requires Reach(disk, s)
    ensures Inv(s)
  {
    var steps :| Run(disk, steps) && steps[|steps| - 1] == s;
    RunKeeps(disk, steps);
  }

  /** CLOSE SAFETY.  In every interleaving: no decode joins the wait group after Close has held the
      mutex, no row is shipped after Close waited for the decodes, at that point every decode is
      gone, and Close does not hold the mutex while it waits. */
  lemma CloseIsSafe(disk: map<string, Stat>, s: State)
    requires Reach(disk, s)
    ensures !s.lateAdd && !s.lateShip
    ensures s.closer.Waited? ==> forall k :: 0 <= k < |s.infos| ==> s.infos[k].phase.Gone?
    ensures s.closer.Waiting? ==> !s.mu.ByCloser?
  {
    ReachKeeps(disk, s);
    if s.closer.Waited? {
      forall k | 0 <= k < |s.infos| ensures s.infos[k].phase.Gone? {
        NoneAlive(s.infos, k);
      }
    }
  }

  /** While Close waits for decodes, a decode can go on, or the poll loop can, which holds the mutex
      the decode wants. */
  lemma CloseIsNotStuck(disk: map<string, Stat>, s: State) returns (a: Action)
    requires Reach(disk, s) && s.closer.Waiting? && s.wg > 0
    ensures Enabled(s, a) && ((a.Job? && !a.j.ShipRow?) || (a.Poll? && s.mu.ByPoll?))
  {
    ReachKeeps(disk, s);
    var id := SomeAlive(s.infos);
    match s.infos[id].phase
    case Start => a := Job(id, Open(false));
    case Opened(_, _) => a := Job(id, Read(false, 0));
    case Decode => a := Job(id, DecodeRows(true));
    case Ship => a := Job(id, ShipEnd);
    case Finish => a := Job(id, Clear);
    case Cleared => a := Job(id, WgDone);
    case Failing =>
      if s.mu.Free? {
        a := Job(id, Drop);
      } else {
        a := PollGoesOn(s);
      }
  }

  lemma PollGoesOn(s: State) returns (a: Action)
    requires Locks(s) && s.mu.ByPoll?
    ensures Enabled(s, a) && a.Poll?
  {
    match s.poll
    case Scan(todo, _) =>
      if todo == {} {
        a := Poll(ScanDone);
      } else {
        var p :| p in todo;
        assert p in s.tail.Keys;
        a := Poll(ScanOne(p, false));
      }
    case Match(_) => a := Poll(NextMatch);
    case Checked(_, _) => a := Poll(StatMatch(false));
    case Statted(_, _, _) => a := Poll(Spawn);
    case Unlocking => a := Poll(Unlock);
  }

  /** THE SCAN, one path.  An entry stays exactly if its decode runs, or its file has the recorded size and
      time and is not another one by its inode: one replaced by a file of another inode goes, whatever its
      size and time. */
  lemma ScanRemovesIff(s: State, p: string)
    requires PollEnabled(s, ScanOne(p, true))
    ensures var i, st, t := s.infos[s.tail[p]], s.disk[p], PollApply(s, ScanOne(p, true));
      && (p !in t.tail <==>
            !i.decoding && ((i.inode != 0 && st.inode != 0 && i.inode != st.inode) || i.size != st.size || i.mtime != st.mtime))
      && forall q :: q != p ==> (q in t.tail <==> q in s.tail) && (q in t.tail ==> t.tail[q] == s.tail[q])
  {
  }

  /** DECODE OWNERSHIP.  Unless the poll loop found the file of a path missing while it was being
      decoded, a goroutine that can still ship rows of that path owns its entry, so there is only one. */
  lemma OneShipperPerPath(disk: map<string, Stat>, s: State, k: nat, l: nat)
    requires Reach(disk, s) && k < |s.infos| && l < |s.infos| && s.infos[k].path !in s.orphaned
    requires CanShip(s.infos[k]) && CanShip(s.infos[l]) && s.infos[k].path == s.infos[l].path
    ensures k == l
    ensures s.infos[k].path in s.tail && s.tail[s.infos[k].path] == k
  {
    ReachKeeps(disk, s);
  }

  /** A failing decode removes its own entry and no other, in every reachable state. */
  lemma FailureDropsOwnEntry(disk: map<string, Stat>, s: State, id: nat, l: nat)
    requires Reach(disk, s) && JobEnabled(s, id, Drop) && l < |s.infos|
    ensures var t := JobApply(s, id, Drop); var p := s.infos[l].path;
      (p in t.tail && t.tail[p] == l) <==> (l != id && p in s.tail && s.tail[p] == l)
  {
    ReachKeeps(disk, s);
  }

  // ----- An entry removed mid-decode -----------------------------------------------------------

  /** The poll loop discovers path p and starts a decode for it. */
  lemma Discover(disk: map<string, Stat>, s: State, p: string)
    requires Reach(disk, s) && s.poll.Idle? && s.mu.Free? && !s.cancelled && s.closer.NotClosing? && s.tail == map[]
    requires p in s.disk
    ensures Reach(disk, s.(infos := s.infos + [Info(p, s.disk[p].inode, true, 0, 0, -1, Start, false)],
                           tail := map[p := |s.infos|], wg := s.wg + 1))
  {
    var made := Info(p, s.disk[p].inode, true, 0, 0, -1, Start, false);
    ReachStep(disk, s, Poll(Top([p])));
    var s1 := s.(poll := Globbed([p]));
    ReachStep(disk, s1, Poll(Lock));
    assert s.tail.Keys == {};
    var s2 := s.(mu := ByPoll, poll := Scan({}, [p]));
    assert Apply(s1, Poll(Lock)) == s2;
    ReachStep(disk, s2, Poll(ScanDone));
    var s3 := s.(mu := ByPoll, poll := Match([p]));
    ReachStep(disk, s3, Poll(NextMatch));
    var s4 := s.(mu := ByPoll, poll := Checked(p, []));
    assert [p][1..] == [];
    assert Apply(s3, Poll(NextMatch)) == s4;
    ReachStep(disk, s4, Poll(StatMatch(true)));
    var s5 := s.(mu := ByPoll, poll := Statted(p, s.disk[p].inode, []));
    assert Apply(s4, Poll(StatMatch(true))) == s5;
    ReachStep(disk, s5, Poll(Spawn));
    var s6 := s.(mu := ByPoll, poll := Match([]), infos := s.infos + [made], tail := map[p := |s.infos|], wg := s.wg + 1);
    assert Apply(s5, Poll(Spawn)) == s6;
    ReachStep(disk, s6, Poll(NextMatch));
    var s7 := s6.(poll := Unlocking);
    assert Apply(s6, Poll(NextMatch)) == s7;
    ReachStep(disk, s7, Poll(Unlock));
    assert Apply(s7, Poll(Unlock)) == s6.(mu := Free, poll := Idle);
  }

  /** The condition of OneShipperPerPath is needed: a file that disappears and comes back while it is
      being decoded gets a second goroutine that ships its rows. */
  lemma MissingFileDoublesShippers(disk: map<string, Stat>, p: string)
    requires p in disk
    ensures exists s: State :: Reach(disk, s) && |s.infos| == 2 && CanShip(s.infos[0]) && CanShip(s.infos[1])
                        && s.infos[0].path == s.infos[1].path
  {
    ReachInit(disk);
    var s0 := Init(disk);
    Discover(disk, s0, p);
    var made := Info(p, disk[p].inode, true, 0, 0, -1, Start, false);
    var s1 := s0.(infos := [made], tail := map[p := 0], wg := 1);
    assert s0.infos + [made] == [made];
    ReachStep(disk, s1, Poll(Top([])));
    var s2 := s1.(poll := Globbed([]));
    ReachStep(disk, s2, Poll(Lock));
    assert s1.tail.Keys == {p};
    var s3 := s1.(mu := ByPoll, poll := Scan({p}, []));
    assert Apply(s2, Poll(Lock)) == s3;
    ReachStep(disk, s3, Poll(ScanOne(p, false)));
    assert s1.tail - {p} == map[] && {p} - {p} == {};
    var s4 := s1.(mu := ByPoll, poll := Scan({}, []), tail := map[], orphaned := {p});
    assert Apply(s3, Poll(ScanOne(p, false))) == s4;
    ReachStep(disk, s4, Poll(ScanDone));
    var s5 := s4.(poll := Match([]));
    ReachStep(disk, s5, Poll(NextMatch));
    var s6 := s4.(poll := Unlocking);
    assert Apply(s5, Poll(NextMatch)) == s6;
    ReachStep(disk, s6, Poll(Unlock));
    var s7 := s4.(poll := Idle, mu := Free);
    assert Apply(s6, Poll(Unlock)) == s7;
    Discover(disk, s7, p);
  }
}
