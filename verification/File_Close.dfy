/** Close's wait for the decodes comes to an end (file/client.go:591-611). */
module FileClose {
  import opened FileModel
  import opened FileResults

  /** How many steps a goroutine still takes, besides shipping rows, at most. */
  ghost function PhaseLeft(p: Phase): nat {
    match p
    case Start => 6 case Opened(_, _) => 5 case Decode => 4 case Ship => 3 case Failing => 3
    case Finish => 2 case Cleared => 1 case Gone => 0
  }

  ghost function DecodesLeft(infos: seq<Info>): nat {
    if infos == [] then 0 else DecodesLeft(infos[..|infos| - 1]) + PhaseLeft(infos[|infos| - 1].phase)
  }

  /** How many steps the poll loop still takes once the context is cancelled, at most. */
  ghost function PollLeft(s: State): nat {
    match s.poll
    case Exited => 0 case Idle => 1 case Unlocking => 2 case Match(_) => 3
    case Statted(_, _, _) => 4 case Checked(_, _) => 5
    case Scan(todo, _) => 6 + |todo| case Globbed(_) => 7 + |s.tail|
  }

  ghost function WaitLeft(s: State): nat {
    DecodesLeft(s.infos) + PollLeft(s)
  }

  lemma {:induction false} DecodesUpdate(infos: seq<Info>, id: nat, i: Info)
    requires id < |infos|
    ensures DecodesLeft(infos[id := i]) == DecodesLeft(infos) - PhaseLeft(infos[id].phase) + PhaseLeft(i.phase)
    decreases |infos|
  {
    var m := |infos| - 1;
    var upd := infos[id := i];
    if id == m {
      assert upd[..m] == infos[..m];
    } else {
      assert upd[..m] == infos[..m][id := i];
      DecodesUpdate(infos[..m], id, i);
    }
  }

  /** A step of the poll loop or of a decode, other than shipping one more row. */
  ghost predicate Counts(a: Action) {
    a.Poll? || (a.Job? && !a.j.ShipRow?)
  }

  lemma PhaseFalls(s: State, id: nat, j: JobAct)
    requires JobEnabled(s, id, j)
    ensures var now := PhaseLeft(JobInfo(s, id, j).phase);
      if j.ShipRow? then now == PhaseLeft(s.infos[id].phase) else now < PhaseLeft(s.infos[id].phase)
  {
  }

  lemma JobCloser(s: State, id: nat, j: JobAct)
    requires JobEnabled(s, id, j)
    ensures var t := JobApply(s, id, j);
      && t.poll == s.poll && t.closer == s.closer && |t.tail| <= |s.tail|
      && DecodesLeft(t.infos) + (if j.ShipRow? then 0 else 1) <= DecodesLeft(s.infos)
  {
    DecodesUpdate(s.infos, id, JobInfo(s, id, j));
    PhaseFalls(s, id, j);
    if j.Drop? { DroppedSmaller(s.tail, s.infos[id].path, id); }
  }

  lemma DroppedSmaller(tail: map<string, nat>, path: string, id: nat)
    ensures |Dropped(tail, path, id)| <= |tail|
  {
    if path in tail {
      assert (tail - {path}).Keys == tail.Keys - {path};
      assert |(tail - {path}).Keys| <= |tail.Keys|;
    }
  }

  lemma PollCloser(s: State, a: PollAct)
    requires PollEnabled(s, a) && s.cancelled && !s.poll.Checked? && !s.poll.Statted?
    ensures var t := PollApply(s, a);
      t.infos == s.infos && t.closer == s.closer && t.cancelled && PollLeft(t) < PollLeft(s)
  {
    if a.ScanOne? {
      assert |s.poll.todo - {a.p}| == |s.poll.todo| - 1;
    } else if a.Lock? {
      assert |s.tail.Keys| == |s.tail|;
    }
  }

  /** While Close waits, every step of a decode but shipping a row, and every one of the poll loop, brings
      the end of the wait nearer; no other step puts it off. */
  lemma WaitLeftFalls(disk: map<string, Stat>, s: State, a: Action)
    requires Reach(disk, s) && s.closer.Waiting? && Enabled(s, a) && !a.Closer?
    ensures var t := Apply(s, a);
      t.closer.Waiting? && WaitLeft(t) + (if Counts(a) then 1 else 0) <= WaitLeft(s)
  {
    ReachKeeps(disk, s);
    match a
    case Poll(b) => PollCloser(s, b);
    case Job(id, j) => JobCloser(s, id, j);
    case Disk(_, _) =>
    case Unlink(_) =>
  }

  /** How many of the first m steps count. */
  ghost function Counted(acts: seq<Action>, m: nat): nat
    requires m <= |acts|
  {
    if m == 0 then 0 else Counted(acts, m - 1) + if Counts(acts[m - 1]) then 1 else 0
  }

  ghost predicate Path(steps: seq<State>, acts: seq<Action>) {
    && |steps| == |acts| + 1
    && forall i, j :: 0 <= i < |acts| && j == i + 1 ==> Goes(steps[i], acts[i], steps[j])
  }

  ghost predicate Goes(s: State, a: Action, t: State) {
    Enabled(s, a) && !a.Closer? && t == Apply(s, a)
  }

  ghost predicate Waits(disk: map<string, Stat>, s: State) {
    Reach(disk, s) && s.closer.Waiting?
  }

  lemma {:induction false} Lasts(held: seq<bool>, m: nat)
    requires m < |held| && held[0] && forall i, j :: 0 <= i < j < |held| && j == i + 1 && held[i] ==> held[j]
    ensures held[m]
  {
    if m > 0 { Lasts(held, m - 1); }
  }

  lemma WaitGoesOn(disk: map<string, Stat>, steps: seq<State>, acts: seq<Action>, m: nat)
    requires Path(steps, acts) && Waits(disk, steps[0]) && m <= |acts|
    ensures Waits(disk, steps[m])
  {
    var held := seq(|steps|, i requires 0 <= i < |steps| => Waits(disk, steps[i]));
    forall i, j | 0 <= i < j < |held| && j == i + 1 && held[i] ensures held[j] {
      NextWaits(disk, steps, acts, i);
    }
    Lasts(held, m);
  }

  lemma NextWaits(disk: map<string, Stat>, steps: seq<State>, acts: seq<Action>, m: nat)
    requires Path(steps, acts) && m < |acts| && Waits(disk, steps[m])
    ensures Waits(disk, steps[m + 1])
  {
    CountedNext(disk, steps, acts, m);
  }

  lemma StillWaits(disk: map<string, Stat>, s: State, a: Action, t: State)
    requires Reach(disk, s) && s.closer.Waiting? && Goes(s, a, t)
    ensures Reach(disk, t) && t.closer.Waiting?
    ensures WaitLeft(t) + (if Counts(a) then 1 else 0) <= WaitLeft(s)
  {
    WaitLeftFalls(disk, s, a);
    ReachStep(disk, s, a);
  }

  /** What falls with every step that counts bounds their number. */
  lemma {:induction false} CountedBounded(left: seq<nat>, acts: seq<Action>, m: nat)
    requires |left| == |acts| + 1 && m <= |acts|
    requires forall i, j :: 0 <= i < |acts| && j == i + 1 ==> left[j] + (if Counts(acts[i]) then 1 else 0) <= left[i]
    ensures Counted(acts, m) + left[m] <= left[0]
  {
    if m > 0 { CountedBounded(left, acts, m - 1); }
  }

  lemma CountedNext(disk: map<string, Stat>, steps: seq<State>, acts: seq<Action>, m: nat)
    requires Path(steps, acts) && m < |acts| && Reach(disk, steps[m]) && steps[m].closer.Waiting?
    ensures Reach(disk, steps[m + 1]) && steps[m + 1].closer.Waiting?
    ensures WaitLeft(steps[m + 1]) + (if Counts(acts[m]) then 1 else 0) <= WaitLeft(steps[m])
  {
    assert Goes(steps[m], acts[m], steps[m + 1]);
    StillWaits(disk, steps[m], acts[m], steps[m + 1]);
  }

  /** CLOSE'S WAIT ENDS.  While Close waits for decodes, only so many steps besides shipping rows, and
      besides changes of files, are left; and when none of these is possible the wait can be passed. */
  lemma WaitEnds(disk: map<string, Stat>, steps: seq<State>, acts: seq<Action>)
    requires Path(steps, acts) && Reach(disk, steps[0]) && steps[0].closer.Waiting?
    ensures Counted(acts, |acts|) <= WaitLeft(steps[0])
    ensures var t := steps[|acts|];
      (forall a: Action :: Enabled(t, a) ==> !Counts(a)) ==> Enabled(t, Closer(CloseWait))
  {
    var left := seq(|steps|, i requires 0 <= i < |steps| => WaitLeft(steps[i]));
    forall i, j | 0 <= i < |acts| && j == i + 1 ensures left[j] + (if Counts(acts[i]) then 1 else 0) <= left[i] {
      WaitGoesOn(disk, steps, acts, i);
      CountedNext(disk, steps, acts, i);
    }
    CountedBounded(left, acts, |acts|);
    WaitGoesOn(disk, steps, acts, |acts|);
    var t := steps[|acts|];
    if t.wg > 0 {
      var a := NextCounts(disk, t);
    } else {
      ReachKeeps(disk, t);
    }
  }

  /** One of them is possible as long as a decode has not left the wait group. */
  lemma NextCounts(disk: map<string, Stat>, s: State) returns (a: Action)
    requires Reach(disk, s) && s.closer.Waiting? && s.wg > 0
    ensures Enabled(s, a) && Counts(a)
  {
    a := CloseIsNotStuck(disk, s);
  }
}
