/** A Parquet file that stays as it is ends up decoded: whatever rotations and rewrites came before
    or during decodes, the poll loop converges on the final version and then leaves it alone. */
module FileConvergence {
  import opened FileModel
  import opened FileResults

  /** The decode behind the entry has read, or is going to read, the size and time of `st`. */
  ghost predicate Right(i: Info, st: Stat) {
    && Fits(i.inode, st)
    && match i.phase
       case Start => true
       case Opened(c, _) => c.size == st.size && c.mtime == st.mtime
       case Failing => false
       case _ => i.size == st.size && i.mtime == st.mtime
  }

  /** How far path p is from being settled on `st`.  0: settled.  1: the right decode is running.
      2: about to start it.  3: no entry.  4: a finished entry for something else.  5: a running decode
      of something else.  6: about to start one. */
  ghost function Rank(s: State, p: string, st: Stat): nat {
    if p in s.tail && s.tail[p] < |s.infos| then
      var i := s.infos[s.tail[p]];
      if Right(i, st) then (if i.decoding then 1 else 0) else (if i.decoding then 5 else 4)
    else if s.poll.Statted? && s.poll.path == p then (if Fits(s.poll.inode, st) then 2 else 6)
    else 3
  }

  /** The step leaves file p alone, and nothing about p fails. */
  ghost predicate Calm(s: State, a: Action, p: string) {
    match a
    case Poll(b) => (b.ScanOne? && b.p == p ==> b.ok) && (b.StatMatch? && s.poll.Checked? && s.poll.path == p ==> b.ok)
    case Job(id, j) =>
      id < |s.infos| && s.infos[id].path == p ==>
        (j.Open? ==> j.found) && (j.Read? ==> j.whole) && (j.DecodeRows? ==> j.decoded)
    case Closer(_) => true
    case Disk(q, _) => q != p
    case Unlink(q) => q != p
  }

  ghost predicate Fixed(s: State, p: string, st: Stat) {
    p in s.disk && s.disk[p] == st
  }

  lemma ScanOtherRank(s: State, q: string, ok: bool, p: string, st: Stat)
    requires Locks(s) && PollEnabled(s, ScanOne(q, ok)) && q != p
    ensures Rank(PollApply(s, ScanOne(q, ok)), p, st) == Rank(s, p, st)
  {
    var t := PollApply(s, ScanOne(q, ok));
    assert t.infos == s.infos && (t.tail == s.tail || t.tail == s.tail - {q});
    RankSame(s, t, p, st);
  }

  lemma RankSame(s: State, t: State, p: string, st: Stat)
    requires t.infos == s.infos && (p in t.tail <==> p in s.tail) && (p in s.tail ==> t.tail[p] == s.tail[p])
    requires !s.poll.Statted? && !t.poll.Statted?
    ensures Rank(t, p, st) == Rank(s, p, st)
  {
  }

  lemma ScanOwnRank(s: State, p: string, st: Stat)
    requires Locks(s) && Ownership(s) && Fixed(s, p, st) && PollEnabled(s, ScanOne(p, true))
    ensures var t := PollApply(s, ScanOne(p, true));
      Rank(t, p, st) == if Rank(s, p, st) == 4 then 3 else Rank(s, p, st)
  {
    var t := PollApply(s, ScanOne(p, true));
    var i := s.infos[s.tail[p]];
    assert Lawful(i);
    EntryRank(s, p, st);
    if i.decoding || Unchanged(i, st) {
      assert t.infos == s.infos && t.tail == s.tail;
      RankSame(s, t, p, st);
    } else {
      assert t.tail == s.tail - {p};
    }
  }

  /** The rank of a path that has an entry. */
  lemma EntryRank(s: State, p: string, st: Stat)
    requires p in s.tail && s.tail[p] < |s.infos| && Lawful(s.infos[s.tail[p]])
    ensures var i := s.infos[s.tail[p]];
      Rank(s, p, st) == if i.decoding then (if Right(i, st) then 1 else 5) else if Unchanged(i, st) then 0 else 4
  {
  }

  lemma ScanRank(s: State, q: string, ok: bool, p: string, st: Stat)
    requires Locks(s) && Ownership(s) && Fixed(s, p, st) && PollEnabled(s, ScanOne(q, ok)) && (q == p ==> ok)
    ensures var t := PollApply(s, ScanOne(q, ok));
      Rank(t, p, st) == if q == p && Rank(s, p, st) == 4 then 3 else Rank(s, p, st)
  {
    if q == p { ScanOwnRank(s, p, st); } else { ScanOtherRank(s, q, ok, p, st); }
  }

  lemma SpawnRank(s: State, p: string, st: Stat)
    requires Locks(s) && PollEnabled(s, Spawn)
    ensures var t := PollApply(s, Spawn);
      && (s.poll.path != p ==> Rank(t, p, st) == Rank(s, p, st))
      && (s.poll.path == p ==> (Rank(s, p, st) == 2 && Rank(t, p, st) == 1) || (Rank(s, p, st) == 6 && Rank(t, p, st) == 5))
  {
    var t := PollApply(s, Spawn);
    assert forall k :: 0 <= k < |s.infos| ==> t.infos[k] == s.infos[k];
    assert t.infos[|s.infos|].phase.Start?;
  }

  lemma StatRank(s: State, ok: bool, p: string, st: Stat)
    requires Locks(s) && Fixed(s, p, st) && PollEnabled(s, StatMatch(ok)) && (s.poll.path == p ==> ok)
    ensures var t := PollApply(s, StatMatch(ok));
      && (s.poll.path != p ==> Rank(t, p, st) == Rank(s, p, st))
      && (s.poll.path == p ==> Rank(s, p, st) == 3 && Rank(t, p, st) == 2)
  {
    assert PollApply(s, StatMatch(ok)).tail == s.tail;
  }

  lemma PollRank(s: State, a: PollAct, p: string, st: Stat)
    requires Locks(s) && Ownership(s) && Fixed(s, p, st) && PollEnabled(s, a) && Calm(s, Poll(a), p)
    ensures Rank(PollApply(s, a), p, st) <= Rank(s, p, st)
  {
    match a
    case ScanOne(q, ok) => ScanRank(s, q, ok, p, st);
    case Spawn => SpawnRank(s, p, st);
    case StatMatch(ok) => StatRank(s, ok, p, st);
    case _ => assert PollApply(s, a).tail == s.tail && PollApply(s, a).infos == s.infos;
  }

  lemma JobRight(s: State, id: nat, j: JobAct, p: string, st: Stat)
    requires JobEnabled(s, id, j) && Calm(s, Job(id, j), p) && s.infos[id].path == p && Fixed(s, p, st)
    requires Lawful(s.infos[id])
    ensures Right(s.infos[id], st) ==> Right(JobInfo(s, id, j), st) && !j.Drop?
    ensures JobInfo(s, id, j).decoding == (s.infos[id].decoding && !j.Clear?)
  {
  }

  lemma JobRank(s: State, id: nat, j: JobAct, p: string, st: Stat)
    requires Locks(s) && Ownership(s) && Fixed(s, p, st) && JobEnabled(s, id, j) && Calm(s, Job(id, j), p)
    ensures Rank(JobApply(s, id, j), p, st) <= Rank(s, p, st)
    ensures (j.Clear? || j.Drop?) && p in s.tail && s.tail[p] == id ==> Rank(JobApply(s, id, j), p, st) < Rank(s, p, st)
  {
    var t := JobApply(s, id, j);
    assert Lawful(s.infos[id]);
    assert t.infos == s.infos[id := JobInfo(s, id, j)];
    assert t.tail == if j.Drop? then Dropped(s.tail, s.infos[id].path, id) else s.tail;
    assert t.poll == s.poll;
    if p in s.tail && s.tail[p] == id {
      JobRight(s, id, j, p, st);
    }
  }

  /** CONVERGENCE, 1.  While file p stays as it is and nothing about it fails, no step of anybody
      takes it further away from being settled; so a settled file stays settled. */
  lemma RankNeverRises(s: State, a: Action, p: string, st: Stat)
    requires Inv(s) && Fixed(s, p, st) && Enabled(s, a) && Calm(s, a, p)
    ensures Fixed(Apply(s, a), p, st)
    ensures Rank(Apply(s, a), p, st) <= Rank(s, p, st)
  {
    match a
    case Poll(b) => PollRank(s, b, p, st);
    case Job(id, j) => JobRank(s, id, j, p, st);
    case Closer(c) =>
    case Disk(_, _) =>
    case Unlink(_) =>
  }

  /** CONVERGENCE, 2.  The end of a decode of the entry lowers the rank. */
  lemma DecodeEndLowersRank(s: State, j: JobAct, p: string, st: Stat)
    requires Inv(s) && Fixed(s, p, st) && p in s.tail && JobEnabled(s, s.tail[p], j) && (j.Clear? || j.Drop?)
    ensures Rank(JobApply(s, s.tail[p], j), p, st) < Rank(s, p, st)
  {
    JobRank(s, s.tail[p], j, p, st);
  }

  /** Where one poll cycle that has path p among its matches stands with it. */
  ghost predicate Cycle(s: State, p: string, st: Stat) {
    var r := Rank(s, p, st);
    r <= 1 ||
    match s.poll
    case Scan(todo, matches) => p in matches && (r == 3 || (r == 4 && p in todo))
    case Match(matches) => r == 3 && p in matches
    case Checked(q, rest) => r == 3 && (q == p || p in rest)
    case Statted(q, _, rest) => if q == p then r == 2 else r == 3 && p in rest
    case _ => false
  }

  lemma CycleStart(s: State, p: string, st: Stat)
    requires Inv(s) && Fixed(s, p, st) && PollEnabled(s, Lock) && p in s.poll.matches
    requires p in s.tail ==> !s.infos[s.tail[p]].decoding
    ensures Cycle(PollApply(s, Lock), p, st)
  {
  }

  lemma CyclePoll(s: State, a: PollAct, p: string, st: Stat)
    requires Locks(s) && Ownership(s) && Fixed(s, p, st) && Cycle(s, p, st)
    requires PollEnabled(s, a) && Calm(s, Poll(a), p) && !a.Unlock? && !s.cancelled
    ensures Cycle(PollApply(s, a), p, st)
  {
    PollRank(s, a, p, st);
    match a
    case NextMatch => CycleMatch(s, p, st);
    case StatMatch(ok) => StatRank(s, ok, p, st);
    case ScanOne(q, ok) => ScanRank(s, q, ok, p, st);
    case Spawn => SpawnRank(s, p, st);
    case _ => assert PollApply(s, a).tail == s.tail && PollApply(s, a).infos == s.infos;
  }

  lemma CycleMatch(s: State, p: string, st: Stat)
    requires Locks(s) && Cycle(s, p, st) && PollEnabled(s, NextMatch) && !s.cancelled
    ensures Cycle(PollApply(s, NextMatch), p, st)
  {
    var t := PollApply(s, NextMatch);
    assert t.tail == s.tail && t.infos == s.infos;
    if s.poll.matches != [] {
      assert s.poll.matches == [s.poll.matches[0]] + s.poll.matches[1..];
    }
  }

  lemma CycleJob(s: State, id: nat, j: JobAct, p: string, st: Stat)
    requires Locks(s) && Ownership(s) && Fixed(s, p, st) && Cycle(s, p, st) && s.mu.ByPoll?
    requires JobEnabled(s, id, j) && Calm(s, Job(id, j), p)
    ensures Cycle(JobApply(s, id, j), p, st)
  {
    JobRank(s, id, j, p, st);
    var t := JobApply(s, id, j);
    assert t.tail == s.tail && t.poll == s.poll && |t.infos| == |s.infos|;
  }

  lemma CycleStep(s: State, a: Action, p: string, st: Stat)
    requires Inv(s) && Fixed(s, p, st) && Cycle(s, p, st) && s.mu.ByPoll? && !s.cancelled
    requires Enabled(s, a) && Calm(s, a, p) && a != Poll(Unlock)
    ensures var t := Apply(s, a); Inv(t) && Fixed(t, p, st) && Cycle(t, p, st) && t.mu.ByPoll?
  {
    StepKeeps(s, a);
    match a
    case Poll(b) => CyclePoll(s, b, p, st);
    case Job(id, j) => CycleJob(s, id, j, p, st);
    case Closer(c) =>
    case Disk(_, _) =>
    case Unlink(_) =>
  }

  /** One poll cycle: it has just locked the mutex, and every step since leaves file p alone. */
  ghost predicate Segment(steps: seq<State>, p: string) {
    && steps != []
    && forall i :: 0 <= i < |steps| - 1 ==> CalmStep(steps[i], steps[i + 1], p)
  }

  ghost predicate CalmStep(s: State, t: State, p: string) {
    !s.cancelled && exists a :: Enabled(s, a) && Calm(s, a, p) && a != Poll(Unlock) && t == Apply(s, a)
  }

  lemma {:induction false} SegmentKeeps(steps: seq<State>, p: string, st: Stat)
    requires Segment(steps, p)
    requires Inv(steps[0]) && Fixed(steps[0], p, st) && Cycle(steps[0], p, st) && steps[0].mu.ByPoll?
    ensures var t := steps[|steps| - 1]; Inv(t) && Fixed(t, p, st) && Cycle(t, p, st) && t.mu.ByPoll?
    decreases |steps|
  {
    if |steps| > 1 {
      var front := steps[..|steps| - 1];
      forall i | 0 <= i < |front| - 1 ensures CalmStep(front[i], front[i + 1], p) {
        assert CalmStep(steps[i], steps[i + 1], p);
      }
      SegmentKeeps(front, p, st);
      var s := steps[|steps| - 2];
      assert CalmStep(s, steps[|steps| - 2 + 1], p);
      var a :| Enabled(s, a) && Calm(s, a, p) && a != Poll(Unlock) && steps[|steps| - 1] == Apply(s, a);
      CycleStep(s, a, p, st);
    }
  }

  /** CONVERGENCE, 3.  A poll cycle that finds path p, and starts when no decode of its entry is
      running, ends with the file settled or with the right decode running; whatever the entry was
      made for before. */
  lemma PollCycleConverges(disk: map<string, Stat>, s: State, steps: seq<State>, p: string, st: Stat)
    requires Reach(disk, s) && PollEnabled(s, Lock) && p in s.poll.matches && Fixed(s, p, st)
    requires p in s.tail && s.tail[p] < |s.infos| ==> !s.infos[s.tail[p]].decoding
    requires Segment(steps, p) && steps[0] == PollApply(s, Lock) && steps[|steps| - 1].poll.Unlocking?
    ensures Rank(steps[|steps| - 1], p, st) <= 1 && Fixed(steps[|steps| - 1], p, st)
  {
    ReachKeeps(disk, s);
    CycleStart(s, p, st);
    PollKeeps(s, Lock);
    SegmentKeeps(steps, p, st);
  }

  /** CONVERGENCE, 4.  What being settled means: the entry stems from a completed decode that
      recorded the final size and modification time, and it fits the final inode. */
  lemma SettledMeansDecoded(disk: map<string, Stat>, s: State, p: string, st: Stat)
    requires Reach(disk, s) && Rank(s, p, st) == 0
    ensures p in s.tail && s.tail[p] < |s.infos|
    ensures var i := s.infos[s.tail[p]];
      i.path == p && i.shipped && !i.decoding && i.size == st.size && i.mtime == st.mtime
      && (i.inode == 0 || st.inode == 0 || i.inode == st.inode)
  {
    ReachKeeps(disk, s);
    assert Lawful(s.infos[s.tail[p]]);
    assert Registered(s.infos[s.tail[p]]);
  }

  ghost predicate CalmRun(steps: seq<State>, p: string) {
    forall i, j :: 0 <= i && j == i + 1 && j < |steps| ==> QuietStep(steps[i], steps[j], p)
  }

  ghost predicate QuietStep(s: State, t: State, p: string) {
    exists a :: Enabled(s, a) && Calm(s, a, p) && t == Apply(s, a)
  }

  ghost predicate AtMost(disk: map<string, Stat>, s: State, p: string, st: Stat, r: nat) {
    Reach(disk, s) && Fixed(s, p, st) && Rank(s, p, st) <= r
  }

  lemma CalmStepKeeps(disk: map<string, Stat>, steps: seq<State>, m: nat, n: nat, p: string, st: Stat, r: nat)
    requires CalmRun(steps, p) && m <= n < |steps| - 1 && forall k :: m <= k <= n ==> AtMost(disk, steps[k], p, st, r)
    ensures forall k :: m <= k <= n + 1 ==> AtMost(disk, steps[k], p, st, r)
  {
    var s, t := steps[n], steps[n + 1];
    assert QuietStep(s, t, p) && AtMost(disk, s, p, st, r);
    var a :| Enabled(s, a) && Calm(s, a, p) && t == Apply(s, a);
    ReachKeeps(disk, s);
    RankNeverRises(s, a, p, st);
    ReachStep(disk, s, a);
    assert AtMost(disk, t, p, st, r);
  }

  /** A bound on the rank lasts as long as nothing about p changes or fails. */
  lemma {:induction false} CalmRunKeeps(disk: map<string, Stat>, steps: seq<State>, m: nat, n: nat, p: string, st: Stat, r: nat)
    requires CalmRun(steps, p) && m <= n < |steps| && AtMost(disk, steps[m], p, st, r)
    ensures forall k :: m <= k <= n ==> AtMost(disk, steps[k], p, st, r)
    decreases n
  {
    if m < n {
      CalmRunKeeps(disk, steps, m, n - 1, p, st, r);
      CalmStepKeeps(disk, steps, m, n - 1, p, st, r);
    }
  }

  lemma NotRunning(s: State, p: string, st: Stat)
    requires Rank(s, p, st) <= 1 && (p in s.tail && s.tail[p] < |s.infos| ==> !s.infos[s.tail[p]].decoding)
    ensures Rank(s, p, st) == 0
  {
  }

  lemma {:induction false} SegmentReach(disk: map<string, Stat>, steps: seq<State>, m: nat, p: string)
    requires Segment(steps, p) && Reach(disk, steps[0]) && m < |steps|
    ensures Reach(disk, steps[m])
  {
    if m > 0 {
      SegmentReach(disk, steps, m - 1, p);
      assert CalmStep(steps[m - 1], steps[m - 1 + 1], p);
      var a :| Enabled(steps[m - 1], a) && steps[m] == Apply(steps[m - 1], a);
      ReachStep(disk, steps[m - 1], a);
    }
  }

  /** SETTLED FOR GOOD.  After a poll cycle that finds p, and starts when no decode of its entry is
      running, as long as nothing about p changes or fails: from the first moment at which no decode of
      the entry is running, p is settled, and stays so whatever else happens. */
  lemma SettledForGood(disk: map<string, Stat>, s: State, cycle: seq<State>, later: seq<State>, m: nat, n: nat, p: string, st: Stat)
    requires Reach(disk, s) && PollEnabled(s, Lock) && p in s.poll.matches && Fixed(s, p, st)
    requires p in s.tail && s.tail[p] < |s.infos| ==> !s.infos[s.tail[p]].decoding
    requires Segment(cycle, p) && cycle[0] == PollApply(s, Lock) && cycle[|cycle| - 1].poll.Unlocking?
    requires CalmRun(later, p) && m <= n < |later| && later[0] == cycle[|cycle| - 1]
    requires p in later[m].tail && later[m].tail[p] < |later[m].infos| ==> !later[m].infos[later[m].tail[p]].decoding
    ensures Rank(later[n], p, st) == 0
  {
    PollCycleConverges(disk, s, cycle, p, st);
    ReachStep(disk, s, Poll(Lock));
    SegmentReach(disk, cycle, |cycle| - 1, p);
    CalmRunKeeps(disk, later, 0, m, p, st, 1);
    assert AtMost(disk, later[m], p, st, 1);
    NotRunning(later[m], p, st);
    CalmRunKeeps(disk, later, m, n, p, st, 0);
    assert AtMost(disk, later[n], p, st, 0);
  }

  // ----- Which content was decoded -------------------------------------------------------------

  /** The inode of p on this disk. */
  ghost predicate Saw(disk: map<string, Stat>, p: string, inode: nat) {
    p in disk && disk[p].inode == inode
  }

  /** The poll loop took this inode on one of the first m disks. */
  ghost predicate SeenBy(disks: seq<map<string, Stat>>, p: string, inode: nat, m: nat)
    requires m <= |disks|
  {
    exists k :: 0 <= k < m && Saw(disks[k], p, inode)
  }

  /** A decode that opened p when there had been m disks can record this size and time with that content. */
  ghost predicate ReadAt(disks: seq<map<string, Stat>>, p: string, m: nat, size: int, mtime: int, ver: int)
    requires 0 < m <= |disks|
  {
    && p in disks[m - 1] && disks[m - 1][p].size == size && disks[m - 1][p].mtime == mtime
    && (disks[m - 1][p].ver == ver || Rewritten(disks, p, disks[m - 1][p], m))
  }

  ghost predicate Recorded(disks: seq<map<string, Stat>>, i: Info) {
    exists m :: 0 < m <= |disks| && SeenBy(disks, i.path, i.inode, m) && ReadAt(disks, i.path, m, i.size, i.mtime, i.ver)
  }

  /** Where what a decode knows comes from. */
  ghost predicate Traced(disks: seq<map<string, Stat>>, i: Info) {
    match i.phase
    case Start => SeenBy(disks, i.path, i.inode, |disks|)
    case Opened(c, at) => 0 < at <= |disks| && i.path in disks[at - 1] && disks[at - 1][i.path] == c && SeenBy(disks, i.path, i.inode, at)
    case Decode => Recorded(disks, i)
    case Ship => Recorded(disks, i)
    case _ => i.shipped ==> Recorded(disks, i)
  }

  ghost predicate AllTraced(s: State) {
    && s.disks != [] && s.disks[|s.disks| - 1] == s.disk
    && (forall k :: 0 <= k < |s.infos| ==> Traced(s.disks, s.infos[k]))
    && (s.poll.Statted? ==> SeenBy(s.disks, s.poll.path, s.poll.inode, |s.disks|))
  }

  lemma TracedLater(disks: seq<map<string, Stat>>, i: Info, disk: map<string, Stat>)
    requires Traced(disks, i)
    ensures Traced(disks + [disk], i)
  {
    var more := disks + [disk];
    assert forall k :: 0 <= k < |disks| ==> more[k] == disks[k];
    assert forall m: nat, inode :: m <= |disks| && SeenBy(disks, i.path, inode, m) ==> SeenBy(more, i.path, inode, m);
    assert SeenBy(disks, i.path, i.inode, |disks|) ==> SeenBy(more, i.path, i.inode, |more|);
    assert forall c, m: nat :: Rewritten(disks, i.path, c, m) ==> Rewritten(more, i.path, c, m);
    if Recorded(disks, i) {
      var m :| 0 < m <= |disks| && SeenBy(disks, i.path, i.inode, m) && ReadAt(disks, i.path, m, i.size, i.mtime, i.ver);
      assert SeenBy(more, i.path, i.inode, m) && ReadAt(more, i.path, m, i.size, i.mtime, i.ver);
    }
  }

  lemma ChangedTraced(s: State, disk: map<string, Stat>)
    requires AllTraced(s)
    ensures AllTraced(Changed(s, disk))
  {
    var t := Changed(s, disk);
    forall k | 0 <= k < |t.infos| ensures Traced(t.disks, t.infos[k]) {
      TracedLater(s.disks, s.infos[k], disk);
    }
    if s.poll.Statted? {
      var k :| 0 <= k < |s.disks| && Saw(s.disks[k], s.poll.path, s.poll.inode);
      assert Saw(t.disks[k], s.poll.path, s.poll.inode);
    }
  }

  lemma JobTraced(s: State, id: nat, j: JobAct)
    requires AllTraced(s) && JobEnabled(s, id, j) && Lawful(s.infos[id])
    ensures Traced(s.disks, JobInfo(s, id, j))
  {
    var i, t := s.infos[id], JobInfo(s, id, j);
    assert Traced(s.disks, i);
    if j.Read? && j.whole {
      var m := i.phase.at;
      assert ReadAt(s.disks, i.path, m, t.size, t.mtime, t.ver) && SeenBy(s.disks, t.path, t.inode, m);
      assert Recorded(s.disks, t);
    } else if Recorded(s.disks, i) {
      var m :| 0 < m <= |s.disks| && SeenBy(s.disks, i.path, i.inode, m) && ReadAt(s.disks, i.path, m, i.size, i.mtime, i.ver);
      assert t.size == i.size && t.mtime == i.mtime && t.ver == i.ver ==> ReadAt(s.disks, t.path, m, t.size, t.mtime, t.ver);
    }
  }

  lemma StepTraced(s: State, a: Action)
    requires AllTraced(s) && Inv(s) && Enabled(s, a)
    ensures AllTraced(Apply(s, a))
  {
    match a
    case Poll(b) => PollTraced(s, b);
    case Job(id, j) =>
      assert Lawful(s.infos[id]);
      JobTraced(s, id, j);
      assert JobApply(s, id, j).infos == s.infos[id := JobInfo(s, id, j)];
    case Closer(c) =>
    case Disk(q, st) => ChangedTraced(s, s.disk[q := st]);
    case Unlink(q) => ChangedTraced(s, s.disk - {q});
  }

  lemma PollTraced(s: State, a: PollAct)
    requires AllTraced(s) && PollEnabled(s, a)
    ensures AllTraced(PollApply(s, a))
  {
    if a.StatMatch? && a.ok {
      assert Saw(s.disks[|s.disks| - 1], s.poll.path, s.disk[s.poll.path].inode);
    }
  }

  lemma {:induction false} RunTraced(disk: map<string, Stat>, steps: seq<State>)
    requires Run(disk, steps)
    ensures AllTraced(steps[|steps| - 1])
    decreases |steps|
  {
    if |steps| > 1 {
      var s, a := RunLast(disk, steps);
      RunTraced(disk, steps[..|steps| - 1]);
      RunKeeps(disk, steps[..|steps| - 1]);
      StepTraced(s, a);
    }
  }

  /** On these disks the content st of p can be missed: the poll loop sees a file that could be st; then
      a decode opens p with the size and time of st, but finds another content there, or p is rewritten
      in place before the read is over. */
  ghost predicate CanBeMissed(disks: seq<map<string, Stat>>, p: string, st: Stat) {
    exists k, m :: 0 <= k < m <= |disks| && MissedAt(disks, p, st, k, m)
  }

  ghost predicate MissedAt(disks: seq<map<string, Stat>>, p: string, st: Stat, k: nat, m: nat)
    requires k < m <= |disks|
  {
    && p in disks[k] && (disks[k][p].inode == 0 || st.inode == 0 || disks[k][p].inode == st.inode)
    && LooksLike(disks[m - 1], p, st)
    && (disks[m - 1][p].ver != st.ver || Rewritten(disks, p, disks[m - 1][p], m))
  }

  /** The entry of p is settled on st, although another content was decoded. */
  ghost predicate Missed(s: State, p: string, st: Stat) {
    Fixed(s, p, st) && Rank(s, p, st) == 0 && p in s.tail && s.tail[p] < |s.infos| && s.infos[s.tail[p]].ver != st.ver
  }

  lemma MissedOnlyIf(disk: map<string, Stat>, s: State, p: string, st: Stat)
    requires Reach(disk, s) && Missed(s, p, st)
    ensures CanBeMissed(s.disks, p, st)
  {
    var steps :| Run(disk, steps) && steps[|steps| - 1] == s;
    RunTraced(disk, steps);
    SettledMeansDecoded(disk, s, p, st);
    RunKeeps(disk, steps);
    var i := s.infos[s.tail[p]];
    assert Traced(s.disks, i) && Lawful(i);
    var m :| 0 < m <= |s.disks| && SeenBy(s.disks, i.path, i.inode, m) && ReadAt(s.disks, i.path, m, i.size, i.mtime, i.ver);
    var k :| 0 <= k < m && Saw(s.disks[k], i.path, i.inode);
    assert MissedAt(s.disks, p, st, k, m);
  }

  /** Disks that can follow each other: one file changes at a time. */
  ghost predicate Follow(disks: seq<map<string, Stat>>) {
    forall k :: 0 <= k < |disks| - 1 ==> DiskStep(disks[k], disks[k + 1])
  }

  ghost predicate DiskStep(disk: map<string, Stat>, next: map<string, Stat>) {
    exists a :: DiskAction(disk, a, next)
  }

  ghost predicate DiskAction(disk: map<string, Stat>, a: Action, next: map<string, Stat>) {
    (a.Disk? && next == disk[a.path := a.st]) || (a.Unlink? && next == disk - {a.gone})
  }

  /** The state s when the disk has gone on to number m - 1. */
  ghost function When(s: State, disks: seq<map<string, Stat>>, m: nat): State
    requires 0 < m <= |disks|
  {
    s.(disk := disks[m - 1], disks := disks[..m])
  }

  lemma {:induction false} DisksGoOn(s: State, disks: seq<map<string, Stat>>, k: nat, m: nat)
    requires 0 < k <= m <= |disks| && Follow(disks) && Reach(disks[0], When(s, disks, k))
    ensures Reach(disks[0], When(s, disks, m))
    decreases m - k
  {
    if k < m {
      var t := When(s, disks, k);
      assert DiskStep(disks[k - 1], disks[k - 1 + 1]);
      var a :| DiskAction(disks[k - 1], a, disks[k]);
      assert disks[..k] + [disks[k]] == disks[..k + 1];
      ReachStep(disks[0], t, a);
      assert Apply(t, a) == When(s, disks, k + 1);
      DisksGoOn(s, disks, k + 1, m);
    }
  }

  /** A run in which p is found on disk k, opened on disk m - 1, and read on disk n - 1. */
  lemma MissedRun(disks: seq<map<string, Stat>>, p: string, k: nat, m: nat, n: nat, got: int) returns (s: State)
    requires k < m <= n <= |disks| && Follow(disks) && p in disks[k] && p in disks[m - 1]
    requires got == disks[m - 1][p].ver || Rewritten(disks[..n], p, disks[m - 1][p], m)
    ensures Reach(disks[0], s) && s.disks == disks && s.disk == disks[|disks| - 1] && s.tail == map[p := 0]
    ensures s.infos == [Info(p, disks[k][p].inode, false, disks[m - 1][p].size, disks[m - 1][p].mtime, got, Cleared, true)]
    ensures s.poll.Idle?
  {
    var c := disks[m - 1][p];
    ReachInit(disks[0]);
    assert disks[..1] == [disks[0]];
    assert When(Init(disks[0]), disks, 1) == Init(disks[0]);
    DisksGoOn(Init(disks[0]), disks, 1, k + 1);
    var s0 := When(Init(disks[0]), disks, k + 1);
    Discover(disks[0], s0, p);
    var i0 := Info(p, disks[k][p].inode, true, 0, 0, -1, Start, false);
    assert s0.infos + [i0] == [i0];
    var s1 := Init(disks[0]).(infos := [i0], tail := map[p := 0], wg := 1);
    assert s0.(infos := [i0], tail := map[p := 0], wg := 1) == When(s1, disks, k + 1);
    DisksGoOn(s1, disks, k + 1, m);
    ReachStep(disks[0], When(s1, disks, m), Job(0, Open(true)));
    var s2 := s1.(infos := [i0.(phase := Opened(c, m))]);
    assert Apply(When(s1, disks, m), Job(0, Open(true))) == When(s2, disks, m);
    DisksGoOn(s2, disks, m, n);
    FinishDecode(disks[0], When(s2, disks, n), 0, c, m, got);
    MissedRunEnd(s1, s2, i0, c, disks, n, got);
    s := s1.(infos := [i0.(decoding := false, size := c.size, mtime := c.mtime, ver := got, phase := Cleared, shipped := true)]);
    DisksGoOn(s, disks, n, |disks|);
    s := When(s, disks, |disks|);
    assert disks[..|disks|] == disks;
  }

  lemma MissedRunEnd(s1: State, s2: State, i0: Info, c: Stat, disks: seq<map<string, Stat>>, n: nat, got: int)
    requires 0 < n <= |disks| && |s2.infos| == 1 && s2 == s1.(infos := s2.infos)
    requires s2.infos[0] == i0.(phase := s2.infos[0].phase)
    ensures var i := s2.infos[0].(decoding := false, size := c.size, mtime := c.mtime, ver := got, phase := Cleared, shipped := true);
      && i == i0.(decoding := false, size := c.size, mtime := c.mtime, ver := got, phase := Cleared, shipped := true)
      && When(s2, disks, n).(infos := s2.infos[0 := i]) == When(s1.(infos := [i]), disks, n)
  {
  }

  /** A decode that has opened the file goes through. */
  lemma FinishDecode(disk: map<string, Stat>, s: State, id: nat, c: Stat, at: nat, got: int)
    requires Reach(disk, s) && id < |s.infos| && s.infos[id].phase == Opened(c, at)
    requires got == c.ver || Rewritten(s.disks, s.infos[id].path, c, at)
    ensures Reach(disk, s.(infos := s.infos[id := s.infos[id].(decoding := false, size := c.size, mtime := c.mtime,
                                                               ver := got, phase := Cleared, shipped := true)]))
  {
    var i := s.infos[id];
    var i1 := i.(size := c.size, mtime := c.mtime, ver := got, phase := Decode);
    ReachStep(disk, s, Job(id, Read(true, got)));
    var s1 := s.(infos := s.infos[id := i1]);
    ReachStep(disk, s1, Job(id, DecodeRows(true)));
    var s2 := s.(infos := s.infos[id := i1.(phase := Ship)]);
    assert Apply(s1, Job(id, DecodeRows(true))) == s2;
    FinishShip(disk, s2, id);
    assert s2.(infos := s2.infos[id := i1.(phase := Cleared, shipped := true, decoding := false)])
        == s.(infos := s.infos[id := i1.(phase := Cleared, shipped := true, decoding := false)]);
  }

  lemma FinishShip(disk: map<string, Stat>, s: State, id: nat)
    requires Reach(disk, s) && id < |s.infos| && s.infos[id].phase.Ship?
    ensures Reach(disk, s.(infos := s.infos[id := s.infos[id].(decoding := false, phase := Cleared, shipped := true)]))
  {
    var i := s.infos[id];
    ReachStep(disk, s, Job(id, ShipEnd));
    var s1 := s.(infos := s.infos[id := i.(phase := Finish, shipped := true)]);
    assert Apply(s, Job(id, ShipEnd)) == s1;
    ReachStep(disk, s1, Job(id, Clear));
    assert Apply(s1, Job(id, Clear)) == s.(infos := s.infos[id := i.(phase := Cleared, shipped := true, decoding := false)]);
  }

  /** NOTHING LEFT UNDECODED, EXACTLY WHEN.  Let the disk go through these states, the last with st at p.
      Some run ends with the entry of p settled on st although another content was decoded if and only
      if these disks allow st to be missed. */
  lemma MissedIff(disks: seq<map<string, Stat>>, p: string, st: Stat)
    requires disks != [] && Follow(disks) && p in disks[|disks| - 1] && disks[|disks| - 1][p] == st
    ensures (exists s: State :: Reach(disks[0], s) && s.disks == disks && Missed(s, p, st)) <==> CanBeMissed(disks, p, st)
  {
    if CanBeMissed(disks, p, st) {
      var k, m :| 0 <= k < m <= |disks| && MissedAt(disks, p, st, k, m);
      var c := disks[m - 1][p];
      if c.ver != st.ver {
        var s := MissedRun(disks, p, k, m, m, c.ver);
        assert Missed(s, p, st);
      } else {
        var l :| m <= l < |disks| && RewrittenBy(disks[l], p, c);
        assert disks[..l + 1][l] == disks[l];
        assert Rewritten(disks[..l + 1], p, c, m);
        var s := MissedRun(disks, p, k, m, l + 1, disks[l][p].ver);
        assert Missed(s, p, st);
      }
    }
    forall s: State | Reach(disks[0], s) && s.disks == disks && Missed(s, p, st) ensures CanBeMissed(disks, p, st) {
      MissedOnlyIf(disks[0], s, p, st);
    }
  }

  /** So whenever st cannot be missed on the disks there have been, a settled entry has decoded it. */
  lemma FinalVersionDecoded(disk: map<string, Stat>, s: State, p: string, st: Stat)
    requires Reach(disk, s) && Fixed(s, p, st) && Rank(s, p, st) == 0 && !CanBeMissed(s.disks, p, st)
    ensures p in s.tail && s.tail[p] < |s.infos| && s.infos[s.tail[p]].ver == st.ver
  {
    SettledMeansDecoded(disk, s, p, st);
    if Missed(s, p, st) { MissedOnlyIf(disk, s, p, st); }
  }

  /** It is enough that the size and time of st, once p has them, stay with the content of st. */
  lemma LastingIsDecoded(disks: seq<map<string, Stat>>, p: string, st: Stat)
    requires forall k, l :: 0 <= k <= l < |disks| && LooksLike(disks[k], p, st) && p in disks[l] ==> disks[l][p].ver == st.ver
    ensures !CanBeMissed(disks, p, st)
  {
    forall k: nat, m: nat | k < m <= |disks| ensures !MissedAt(disks, p, st, k, m) {
      assert LooksLike(disks[m - 1], p, st) ==> disks[m - 1][p].ver == st.ver && !Rewritten(disks, p, disks[m - 1][p], m);
    }
  }

  ghost predicate LooksLike(disk: map<string, Stat>, p: string, st: Stat) {
    p in disk && disk[p].size == st.size && disk[p].mtime == st.mtime
  }

  /** It is not enough that size and time tell the contents apart.  A file rewritten in place between the
      moment its size and time are taken and the read, and then put back with its old time, is settled
      with the content in between decoded: by a read of that content, and nothing else. */
  lemma RewriteDuringReadIsMissed(p: string, first: Stat, other: Stat)
    requires first.inode == other.inode && first.ver != other.ver
    ensures exists s: State :: Reach(map[p := first], s) && Missed(s, p, first) && s.infos[s.tail[p]].ver == other.ver
  {
    var disks := [map[p := first], map[p := other], map[p := first]];
    OneFile(disks, p, first, other);
    assert disks[..2][1][p] == other;
    assert Rewritten(disks[..2], p, first, 1);
    var s := MissedRun(disks, p, 0, 1, 2, other.ver);
    assert Missed(s, p, first);
  }

  lemma OneFile(disks: seq<map<string, Stat>>, p: string, first: Stat, other: Stat)
    requires disks == [map[p := first], map[p := other], map[p := first]]
    ensures Follow(disks)
  {
    assert DiskAction(disks[0], Disk(p, other), disks[1]) && DiskAction(disks[1], Disk(p, first), disks[2]);
    assert DiskStep(disks[0], disks[1]) && DiskStep(disks[1], disks[2]);
  }

  /** Nor do inodes help when size and time do not: the poll loop takes the inode before the decode opens
      the file, so a file that is replaced for the duration of the read by one of the same size and time
      is settled although its content was never decoded. */
  lemma SwapBackIsMissed(p: string, first: Stat, other: Stat)
    requires first.inode != 0 && other.inode != 0 && first.inode != other.inode
    requires first.size == other.size && first.mtime == other.mtime && first.ver != other.ver
    ensures exists s: State :: Reach(map[p := first], s) && Missed(s, p, first) && s.infos[s.tail[p]].ver == other.ver
  {
    var disks := [map[p := first], map[p := other], map[p := first]];
    OneFile(disks, p, first, other);
    var s := MissedRun(disks, p, 0, 2, 2, other.ver);
    assert Missed(s, p, first);
  }
}
