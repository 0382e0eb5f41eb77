/** The Parquet side of the file adapter (file/client.go): the poll loop, one decode goroutine per
    discovered file, and `Close`, over the shared map of entries, its mutex, the cancelled context
    and the wait group of decodes.  Files change at any time.  Only paths that are recognised as
    Parquet by their name are modelled. */
module FileModel {

  /** What os.Stat tells about a file, and which version of the content it is; the version is only
      for the statements, the adapter never sees it.  An inode of 0 means unknown. */
  datatype Stat = Stat(inode: nat, size: int, mtime: int, ver: int)

  /** A decode goroutine, between its synchronisation points.  It has opened the file, and asked for its
      size and time, when there had been `at` disks. */
  datatype Phase = Start | Opened(c: Stat, at: nat) | Decode | Ship | Failing | Finish | Cleared | Gone

  /** A tailInfo made by the Parquet branch, together with the goroutine that decodes for it.
      `ver` is the version that was read, `shipped` says that the decode went through. */
  datatype Info = Info(path: string, inode: nat, decoding: bool, size: int, mtime: int, ver: int,
                       phase: Phase, shipped: bool)

  datatype Owner = Free | ByPoll | ByCloser

  /** The poll loop.  The states from Scan to Unlocking hold the mutex. */
  datatype PollPc =
    | Idle
    | Globbed(matches: seq<string>)
    | Scan(todo: set<string>, matches: seq<string>)
    | Match(matches: seq<string>)
    | Checked(path: string, rest: seq<string>)
    | Statted(path: string, inode: nat, rest: seq<string>)
    | Unlocking
    | Exited

  datatype ClosePc = NotClosing | Cancelled | Holding | Waiting | Waited

  /** The last four fields are history: all disks there have been, up to the one there is; the paths whose
      entry was removed because the file was missing while its decode ran; a decode was started after Close held
      the mutex; a row was shipped after Close waited for the decodes. */
  datatype State = State(
    disk: map<string, Stat>, tail: map<string, nat>, infos: seq<Info>,
    mu: Owner, cancelled: bool, wg: int, poll: PollPc, closer: ClosePc,
    disks: seq<map<string, Stat>>, orphaned: set<string>, lateAdd: bool, lateShip: bool)

  datatype PollAct = Top(found: seq<string>) | Lock | ScanOne(p: string, ok: bool) | ScanDone
    | NextMatch | StatMatch(ok: bool) | Spawn | Unlock
  datatype JobAct = Open(found: bool) | Read(whole: bool, got: int) | DecodeRows(decoded: bool) | ShipRow | ShipEnd
    | Drop | Clear | WgDone
  datatype CloseAct = Cancel | CloseLock | CloseUnlock | CloseWait
  datatype Action = Poll(a: PollAct) | Job(id: nat, j: JobAct) | Closer(c: CloseAct) | Disk(path: string, st: Stat) | Unlink(gone: string)

  ghost function Init(disk: map<string, Stat>): State {
    State(disk, map[], [], Free, false, 0, Idle, NotClosing, [disk], {}, false, false)
  }

  /** file/client.go:216-217: the poll loop leaves a finished entry alone. */
  predicate Unchanged(i: Info, st: Stat) {
    && Fits(i.inode, st)
    && i.size == st.size && i.mtime == st.mtime
  }

  /** No rotation is seen between an entry made for `inode` and a file with `st`. */
  predicate Fits(inode: nat, st: Stat) {
    st.inode == 0 || inode == 0 || inode == st.inode
  }

  ghost predicate PollEnabled(s: State, a: PollAct) {
    match a
    case Top(_) => s.poll.Idle?
    case Lock => s.poll.Globbed? && s.mu.Free?
    case ScanOne(p, ok) =>
      s.poll.Scan? && p in s.poll.todo && p in s.tail && s.tail[p] < |s.infos| && (ok ==> p in s.disk)
    case ScanDone => s.poll.Scan? && s.poll.todo == {}
    case NextMatch => s.poll.Match?
    case StatMatch(ok) => s.poll.Checked? && (ok ==> s.poll.path in s.disk)
    case Spawn => s.poll.Statted?
    case Unlock => s.poll.Unlocking?
  }

  /** file/client.go:172-441, Parquet entries only. */
  ghost function PollApply(s: State, a: PollAct): State
    requires PollEnabled(s, a)
  {
    match a
    case Top(found) => s.(poll := if s.cancelled then Exited else Globbed(found))
    case Lock => s.(mu := ByPoll, poll := Scan(s.tail.Keys, s.poll.matches))
    case ScanOne(p, ok) =>
      var next := Scan(s.poll.todo - {p}, s.poll.matches);
      var i := s.infos[s.tail[p]];
      if !ok then s.(poll := next, tail := s.tail - {p}, orphaned := s.orphaned + if i.decoding then {p} else {})
      else if i.decoding || Unchanged(i, s.disk[p]) then s.(poll := next)
      else s.(poll := next, tail := s.tail - {p})
    case ScanDone => s.(poll := Match(s.poll.matches))
    case NextMatch =>
      s.(poll :=
        if s.poll.matches == [] || s.cancelled then Unlocking
        else if s.poll.matches[0] in s.tail then Match(s.poll.matches[1..])
        else Checked(s.poll.matches[0], s.poll.matches[1..]))
    case StatMatch(ok) =>
      s.(poll := if ok then Statted(s.poll.path, s.disk[s.poll.path].inode, s.poll.rest) else Match(s.poll.rest))
    case Spawn =>
      s.(infos := s.infos + [Info(s.poll.path, s.poll.inode, true, 0, 0, -1, Start, false)],
         tail := s.tail[s.poll.path := |s.infos|],
         wg := s.wg + 1,
         lateAdd := s.lateAdd || s.closer.Holding? || s.closer.Waiting? || s.closer.Waited?,
         poll := Match(s.poll.rest))
    case Unlock => s.(mu := Free, poll := Idle)
  }

  /** The file at p that was c when there had been `at` disks has been rewritten in place since: a read
      of it may then get anything.  A file put in its place is another one, and does not change what is read. */
  ghost predicate Rewritten(disks: seq<map<string, Stat>>, p: string, c: Stat, at: nat) {
    exists k :: at <= k < |disks| && RewrittenBy(disks[k], p, c)
  }

  ghost predicate RewrittenBy(disk: map<string, Stat>, p: string, c: Stat) {
    && p in disk && disk[p].ver != c.ver
    && (c.inode == 0 || disk[p].inode == 0 || c.inode == disk[p].inode)
  }

  ghost predicate JobEnabled(s: State, id: nat, j: JobAct) {
    id < |s.infos| &&
    var i := s.infos[id];
    match j
    case Open(ok) => i.phase.Start? && (ok ==> i.path in s.disk)
    case Read(whole, got) =>
      i.phase.Opened? && (whole ==> got == i.phase.c.ver || Rewritten(s.disks, i.path, i.phase.c, i.phase.at))
    case DecodeRows(_) => i.phase.Decode?
    case ShipRow => i.phase.Ship?
    case ShipEnd => i.phase.Ship?
    case Drop => i.phase.Failing? && s.mu.Free?
    case Clear => i.phase.Finish?
    case WgDone => i.phase.Cleared?
  }

  /** The goroutine's own record after the step (file/client.go:744-780). */
  ghost function JobInfo(s: State, id: nat, j: JobAct): Info
    requires JobEnabled(s, id, j)
  {
    var i := s.infos[id];
    match j
    case Open(ok) => i.(phase := if ok then Opened(s.disk[i.path], |s.disks|) else Failing)
    case Read(ok, got) =>
      if ok then i.(size := i.phase.c.size, mtime := i.phase.c.mtime, ver := got, phase := Decode)
      else i.(phase := Failing)
    case DecodeRows(ok) => i.(phase := if ok then Ship else Failing)
    case ShipRow => i
    case ShipEnd => i.(phase := Finish, shipped := true)
    case Drop => i.(phase := Finish)
    case Clear => i.(phase := Cleared, decoding := false)
    case WgDone => i.(phase := Gone)
  }

  ghost function JobApply(s: State, id: nat, j: JobAct): State
    requires JobEnabled(s, id, j)
  {
    var t := s.(infos := s.infos[id := JobInfo(s, id, j)]);
    match j
    case ShipRow => t.(lateShip := s.lateShip || s.closer.Waited?)
    case Drop => t.(tail := Dropped(s.tail, s.infos[id].path, id))
    case WgDone => t.(wg := s.wg - 1)
    case _ => t
  }

  /** dropTailEntryIfMatch (file/client.go:789-795). */
  function Dropped(tail: map<string, nat>, path: string, id: nat): map<string, nat> {
    if path in tail && tail[path] == id then tail - {path} else tail
  }

  ghost predicate CloseEnabled(s: State, c: CloseAct) {
    match c
    case Cancel => s.closer.NotClosing?
    case CloseLock => s.closer.Cancelled? && s.mu.Free?
    case CloseUnlock => s.closer.Holding?
    case CloseWait => s.closer.Waiting? && s.wg == 0
  }

  /** file/client.go:581-611. */
  ghost function CloseApply(s: State, c: CloseAct): State
    requires CloseEnabled(s, c)
  {
    match c
    case Cancel => s.(closer := Cancelled, cancelled := true)
    case CloseLock => s.(closer := Holding, mu := ByCloser)
    case CloseUnlock => s.(closer := Waiting, mu := Free)
    case CloseWait => s.(closer := Waited)
  }

  ghost predicate Enabled(s: State, a: Action) {
    match a
    case Poll(b) => PollEnabled(s, b)
    case Job(id, j) => JobEnabled(s, id, j)
    case Closer(c) => CloseEnabled(s, c)
    case Disk(_, _) => true
    case Unlink(_) => true
  }

  ghost function Apply(s: State, a: Action): State
    requires Enabled(s, a)
  {
    match a
    case Poll(b) => PollApply(s, b)
    case Job(id, j) => JobApply(s, id, j)
    case Closer(c) => CloseApply(s, c)
    case Disk(p, st) => Changed(s, s.disk[p := st])
    case Unlink(p) => Changed(s, s.disk - {p})
  }

  ghost function Changed(s: State, disk: map<string, Stat>): State {
    s.(disk := disk, disks := s.disks + [disk])
  }

  ghost predicate Step(s: State, t: State) {
    exists a :: Enabled(s, a) && t == Apply(s, a)
  }

  ghost predicate Run(disk: map<string, Stat>, steps: seq<State>) {
    && steps != [] && steps[0] == Init(disk)
    && forall i :: 0 <= i < |steps| - 1 ==> Step(steps[i], steps[i + 1])
  }

  ghost predicate Reach(disk: map<string, Stat>, s: State) {
    exists steps :: Run(disk, steps) && steps[|steps| - 1] == s
  }

  lemma ReachInit(disk: map<string, Stat>)
    ensures Reach(disk, Init(disk))
  {
    var steps := [Init(disk)];
    assert Run(disk, steps) && steps[|steps| - 1] == Init(disk);
  }

  lemma ReachStep(disk: map<string, Stat>, s: State, a: Action)
    requires Reach(disk, s) && Enabled(s, a)
    ensures Reach(disk, Apply(s, a))
  {
    var steps :| Run(disk, steps) && steps[|steps| - 1] == s;
    var t := Apply(s, a);
    var more := steps + [t];
    assert Step(s, t);
    forall i | 0 <= i < |more| - 1 ensures Step(more[i], more[i + 1]) {
      if i < |steps| - 1 {
        assert more[i] == steps[i] && more[i + 1] == steps[i + 1];
      }
    }
    assert Run(disk, more) && more[|more| - 1] == t;
  }

  /** A run is its first part and one more step. */
  lemma RunLast(disk: map<string, Stat>, steps: seq<State>) returns (s: State, a: Action)
    requires Run(disk, steps) && |steps| > 1
    ensures Run(disk, steps[..|steps| - 1])
    ensures s == steps[|steps| - 2] == steps[..|steps| - 1][|steps| - 2]
    ensures Enabled(s, a) && steps[|steps| - 1] == Apply(s, a)
  {
    var front := steps[..|steps| - 1];
    forall i | 0 <= i < |front| - 1 ensures Step(front[i], front[i + 1]) {
      assert Step(steps[i], steps[i + 1]);
    }
    s := steps[|steps| - 2];
    assert Step(s, steps[|steps| - 2 + 1]);
    a :| Enabled(s, a) && steps[|steps| - 1] == Apply(s, a);
  }
}
