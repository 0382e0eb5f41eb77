/** The closer ends the pipeline: once it has set `evDone` and released its token, every goroutine comes
    to its end, whatever the iterator and the reader do. */
module PipelineClose {
  import opened PipelineModel
  import opened PipelineInvariant
  import opened PipelineResults

  /** After the closer's release there is a token for `consume`, if it may still ask for one. */
  ghost predicate Freed(cfg: Config, s: State) {
    s.released && (s.gen.Top? || s.gen.Acq? || s.gen.Call?) ==> s.sem < cfg.n
  }

  lemma FreedStep(cfg: Config, s: State, a: Action)
    requires Global(cfg, s) && Freed(cfg, s) && Enabled(cfg, s, a)
    ensures Freed(cfg, Apply(cfg, s, a))
  {
    match a
    case Gen(g) =>
    case Work(w) =>
    case Order(o) => OrderFrame(cfg, s, o);
    case Read(q) =>
    case Close(c) =>
  }

  lemma {:induction false} RunFreed(cfg: Config, steps: seq<State>)
    requires Run(cfg, steps)
    ensures Freed(cfg, steps[|steps| - 1])
    decreases |steps|
  {
    if |steps| > 1 {
      var s := LastStep(cfg, steps);
      var a :| Enabled(cfg, s, a) && steps[|steps| - 1] == Apply(cfg, s, a);
      RunLoose(cfg, steps[..|steps| - 1]);
      RunFreed(cfg, steps[..|steps| - 1]);
      FreedStep(cfg, s, a);
    }
  }

  /** NOBODY IS LEFT BEHIND.  After the closer, as long as the reader is not inside, some goroutine other
      than the reader's can go on until the pipeline is finished or has panicked. */
  lemma ClosedGoesOn(cfg: Config, s: State) returns (a: Action)
    requires Reach(cfg, s) && s.released && s.crash.NoCrash? && !s.reader.Locked? && !s.finished
    ensures Enabled(cfg, s, a) && !a.Read? && !a.Close?
  {
    ReachLoose(cfg, s);
    var steps :| Run(cfg, steps) && steps[|steps| - 1] == s;
    RunFreed(cfg, steps);
    if s.chReady != [] {
      a := Order(Place);
    } else if s.busy != multiset{} {
      var r :| r in s.busy;
      a := Work(SendRec(r));
    } else if s.chGen != [] {
      a := Work(TakeRec);
    } else if !s.gen.Exited? {
      a := match s.gen { case Top => Gen(CheckTop) case Acq => Gen(Acquire) case Got => Gen(CheckAgain)
                         case Call => Gen(Produce) case _ => Gen(MarkDone) };
    } else if s.idle > 0 {
      a := Work(ExitWorker);
    } else if !s.readyClosed {
      a := Work(CloseReady);
    } else if !s.placerDone {
      a := Order(ExitPlacer);
    } else {
      a := Order(Finish);
    }
  }

  /** What `consume` can still do once `evDone` is set: one more call at most. */
  ghost function GenLeft(g: GenPc): nat {
    match g
    case Exited => 0 case Mark => 1 case Top => 1 case Got => 1 case Acq => 2 case Call => 7
  }

  /** How many steps other than the reader's are left, at most. */
  ghost function CloseLeft(s: State): nat {
    GenLeft(s.gen) + 5 * |s.chGen| + Further(s)
  }

  ghost function Further(s: State): nat {
    3 * |s.busy| + |s.chReady| + s.idle
    + (if s.readyClosed then 0 else 1) + (if s.placerDone then 0 else 1) + (if s.finished then 0 else 1)
    + (if s.released then 0 else 1)
  }

  /** Every step but the reader's brings the end nearer, and the reader's do not put it off. */
  lemma CloseLeftDecreases(cfg: Config, s: State, a: Action)
    requires s.closed && s.evDone && Enabled(cfg, s, a)
    ensures var t := Apply(cfg, s, a);
      t.closed && t.evDone && if a.Read? then CloseLeft(t) == CloseLeft(s) else CloseLeft(t) < CloseLeft(s)
  {
    match a
    case Gen(g) => GenCloser(cfg, s, g);
    case Work(w) => WorkCloser(cfg, s, w);
    case Order(o) => OrderCloser(cfg, s, o);
    case Read(q) => ReadCloser(s, q);
    case Close(c) => CloseCloser(s, c);
  }

  /** What the count depends on besides the generator's place and its channel, and whether it is closed. */
  ghost function Rest(s: State): (nat, nat, nat, bool, bool, bool, bool, bool) {
    (|s.busy|, |s.chReady|, s.idle, s.readyClosed, s.placerDone, s.finished, s.released, s.closed)
  }

  lemma SameFurther(s: State, t: State)
    requires Rest(t) == Rest(s)
    ensures Further(t) == Further(s) && t.closed == s.closed
  {
  }

  lemma GenAlike(cfg: Config, s: State, g: GenAct)
    requires GenEnabled(cfg, s, g)
    ensures Rest(GenApply(cfg, s, g)) == Rest(s)
    ensures s.evDone ==> GenApply(cfg, s, g).evDone
  {
  }

  lemma GenNearer(cfg: Config, s: State, g: GenAct)
    requires s.evDone && GenEnabled(cfg, s, g)
    ensures var t := GenApply(cfg, s, g); GenLeft(t.gen) + 5 * |t.chGen| < GenLeft(s.gen) + 5 * |s.chGen|
  {
  }

  lemma GenCloser(cfg: Config, s: State, g: GenAct)
    requires s.evDone && GenEnabled(cfg, s, g)
    ensures var t := GenApply(cfg, s, g); t.closed == s.closed && t.evDone && CloseLeft(t) < CloseLeft(s)
  {
    GenAlike(cfg, s, g);
    GenNearer(cfg, s, g);
    SameFurther(s, GenApply(cfg, s, g));
  }

  lemma OrderCloser(cfg: Config, s: State, o: OrderAct)
    requires OrderEnabled(cfg, s, o)
    ensures var t := OrderApply(cfg, s, o); t.closed == s.closed && (s.evDone ==> t.evDone) && CloseLeft(t) < CloseLeft(s)
  {
    OrderFrame(cfg, s, o);
  }

  /** What none of the reader's steps touches. */
  lemma ReadRest(s: State, q: ReadAct)
    requires ReadEnabled(s, q)
    ensures Rest(ReadApply(s, q)) == Rest(s)
    ensures var t := ReadApply(s, q); (t.evDone, t.gen, |t.chGen|) == (s.evDone, s.gen, |s.chGen|)
  {
    match q
    case Pick => PickRest(s);
    case Return => ReturnRest(s);
  }

  lemma PickRest(s: State)
    requires ReadEnabled(s, Pick)
    ensures Rest(ReadApply(s, Pick)) == Rest(s)
    ensures var t := ReadApply(s, Pick); (t.evDone, t.gen, |t.chGen|) == (s.evDone, s.gen, |s.chGen|)
  {
  }

  lemma ReturnRest(s: State)
    requires ReadEnabled(s, Return)
    ensures Rest(ReadApply(s, Return)) == Rest(s)
    ensures var t := ReadApply(s, Return); (t.evDone, t.gen, |t.chGen|) == (s.evDone, s.gen, |s.chGen|)
  {
  }

  lemma ReadCloser(s: State, q: ReadAct)
    requires ReadEnabled(s, q)
    ensures var t := ReadApply(s, q); (t.closed, t.evDone, CloseLeft(t)) == (s.closed, s.evDone, CloseLeft(s))
  {
    ReadRest(s, q);
    SameFurther(s, ReadApply(s, q));
  }

  lemma CloseCloser(s: State, c: CloseAct)
    requires s.closed && s.evDone && CloseEnabled(s, c)
    ensures var t := CloseApply(s, c); t.closed && t.evDone && CloseLeft(t) < CloseLeft(s)
  {
  }

  lemma WorkCloser(cfg: Config, s: State, w: WorkAct)
    requires WorkEnabled(cfg, s, w)
    ensures var t := WorkApply(cfg, s, w); t.closed == s.closed && t.evDone == s.evDone && CloseLeft(t) < CloseLeft(s)
  {
    match w
    case TakeRec => assert |WorkApply(cfg, s, w).busy| == |s.busy| + 1;
    case SendRec(r) => RemoveOne(s.busy, r);
    case ExitWorker =>
    case CloseReady =>
  }

  /** How many of the first m steps of a run are not the reader's. */
  ghost function Others(acts: seq<Action>, m: nat): nat
    requires m <= |acts|
  {
    if m == 0 then 0 else Others(acts, m - 1) + if acts[m - 1].Read? then 0 else 1
  }

  ghost predicate Path(cfg: Config, steps: seq<State>, acts: seq<Action>) {
    && |steps| == |acts| + 1
    && forall i, j :: 0 <= i < |acts| && j == i + 1 ==> Goes(cfg, steps[i], acts[i], steps[j])
  }

  ghost predicate Goes(cfg: Config, s: State, a: Action, t: State) {
    Enabled(cfg, s, a) && t == Apply(cfg, s, a)
  }

  lemma {:induction false} OthersBounded(cfg: Config, steps: seq<State>, acts: seq<Action>, m: nat)
    requires Path(cfg, steps, acts) && steps[0].closed && steps[0].evDone && m <= |acts|
    ensures steps[m].closed && steps[m].evDone && Others(acts, m) + CloseLeft(steps[m]) <= CloseLeft(steps[0])
  {
    if m > 0 {
      OthersBounded(cfg, steps, acts, m - 1);
      assert Goes(cfg, steps[m - 1], acts[m - 1], steps[m]);
      CloseLeftDecreases(cfg, steps[m - 1], acts[m - 1]);
    }
  }

  /** Where nobody but the reader can go on, all have come to their end. */
  lemma ClosedStuck(cfg: Config, t: State)
    requires Reach(cfg, t) && t.closed && t.crash.NoCrash? && !t.reader.Locked?
    requires forall a: Action :: Enabled(cfg, t, a) ==> a.Read?
    ensures t.finished && t.placerDone && t.gen.Exited? && t.gone == cfg.n
  {
    assert !Enabled(cfg, t, Close(ReleaseOne));
    if !t.finished {
      var a := ClosedGoesOn(cfg, t);
      assert false;
    }
    ReachLoose(cfg, t);
  }

  /** CLOSING ENDS THE PIPELINE.  After the closer has set `evDone` there are at most 9n + 11 steps other
      than the reader's in any run, and when none is possible any more, the reader being outside, all
      goroutines have come to their end, or the placer or the reader panicked. */
  lemma ClosingEnds(cfg: Config, steps: seq<State>, acts: seq<Action>)
    requires Path(cfg, steps, acts) && Reach(cfg, steps[0]) && steps[0].closed && steps[0].crash.NoCrash?
    ensures Others(acts, |acts|) <= 9 * cfg.n + 11
    ensures var t := steps[|acts|];
      !t.reader.Locked? && (forall a: Action :: Enabled(cfg, t, a) ==> a.Read?) ==>
        !t.crash.NoCrash? || (t.finished && t.placerDone && t.gen.Exited? && t.gone == cfg.n)
  {
    ReachLoose(cfg, steps[0]);
    OthersBounded(cfg, steps, acts, |acts|);
    var t := steps[|acts|];
    if t.crash.NoCrash? && !t.reader.Locked? && (forall a: Action :: Enabled(cfg, t, a) ==> a.Read?) {
      PathReach(cfg, steps, acts, |acts|);
      ClosedStuck(cfg, t);
    }
  }

  lemma {:induction false} PathReach(cfg: Config, steps: seq<State>, acts: seq<Action>, m: nat)
    requires Path(cfg, steps, acts) && Reach(cfg, steps[0]) && m <= |acts|
    ensures Reach(cfg, steps[m])
  {
    if m > 0 {
      PathReach(cfg, steps, acts, m - 1);
      assert Goes(cfg, steps[m - 1], acts[m - 1], steps[m]);
      ReachStep(cfg, steps[m - 1], acts[m - 1]);
    }
  }
}
