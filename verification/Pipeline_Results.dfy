/** Order, window, completeness and progress of the pipeline, over every interleaving. */
module PipelineResults {
  import opened Options
  import opened PipelineModel
  import opened PipelineInvariant

  /** Holds in every reachable state, whether or not the closer was called. */
  ghost predicate Loose(cfg: Config, s: State) {
    && (s.crash.NoCrash? ==> Global(cfg, s) && (Clean(cfg, s) || Spoiled(cfg, s)))
    && (s.crash.SpotTaken? ==> Spoiled(cfg, s))
    && (s.crash.OverRelease? ==> s.reader.Waiting? && Delivered(cfg, s.reader, s.outs) && s.closed)
  }

  lemma SpoiledStep(cfg: Config, s: State, a: Action)
    requires Spoiled(cfg, s) && Enabled(cfg, s, a)
    ensures Spoiled(cfg, Apply(cfg, s, a)) && !Apply(cfg, s, a).crash.OverRelease?
  {
    if !a.Read? { ReaderFrame(cfg, s, a); }
  }

  /** Only the reader's own steps touch what it holds and what it got. */
  ghost predicate SameReader(s: State, t: State) {
    t.reader == s.reader && t.outs == s.outs
  }

  lemma ReaderFrame(cfg: Config, s: State, a: Action)
    requires Enabled(cfg, s, a) && !a.Read?
    ensures SameReader(s, Apply(cfg, s, a)) && !Apply(cfg, s, a).crash.OverRelease?
    ensures Apply(cfg, s, a).closed == (s.closed || a == Close(SetDone))
  {
    match a
    case Gen(g) => GenFrame(cfg, s, g);
    case Work(w) => WorkFrame(cfg, s, w);
    case Order(o) => OrderFrame(cfg, s, o);
    case Close(c) => CloseFrame(s, c);
  }

  lemma GenFrame(cfg: Config, s: State, g: GenAct)
    requires GenEnabled(cfg, s, g)
    ensures var t := GenApply(cfg, s, g); SameReader(s, t) && t.crash == s.crash && t.closed == s.closed
  {
  }

  lemma WorkFrame(cfg: Config, s: State, w: WorkAct)
    requires WorkEnabled(cfg, s, w)
    ensures var t := WorkApply(cfg, s, w); SameReader(s, t) && t.crash == s.crash && t.closed == s.closed
  {
  }

  lemma CloseFrame(s: State, c: CloseAct)
    requires CloseEnabled(s, c)
    ensures var t := CloseApply(s, c); SameReader(s, t) && t.crash == s.crash && t.closed == (s.closed || c.SetDone?)
  {
  }

  /** The placer and the final goroutine touch the slots, the events and their own progress only. */
  lemma OrderFrame(cfg: Config, s: State, o: OrderAct)
    requires OrderEnabled(cfg, s, o)
    ensures var t := OrderApply(cfg, s, o);
      && t.gen == s.gen && t.produced == s.produced && t.sem == s.sem && t.chGen == s.chGen
      && t.busy == s.busy && t.idle == s.idle && t.gone == s.gone && t.readyClosed == s.readyClosed
      && t.reader == s.reader && t.outs == s.outs && t.closed == s.closed && !(s.crash.NoCrash? && t.crash.OverRelease?)
      && |t.chReady| == |s.chReady| - (if o.Place? then 1 else 0)
      && t.placerDone == (s.placerDone || o.ExitPlacer?) && t.finished == (s.finished || o.Finish?)
  {
    match o
    case Place => PlaceFrame(s);
    case ExitPlacer =>
    case Finish =>
  }

  lemma PlaceFrame(s: State)
    requires s.chReady != [] && s.slots != []
    ensures var t := Placed(s);
      && t == s.(chReady := s.chReady[1..], slots := t.slots, evReady := t.evReady, crash := t.crash)
      && (t.crash == s.crash || t.crash.SpotTaken?)
  {
  }

  lemma LooseStep(cfg: Config, s: State, a: Action)
    requires Loose(cfg, s) && Enabled(cfg, s, a)
    ensures Loose(cfg, Apply(cfg, s, a))
  {
    GlobalStep(cfg, s, a);
    if Clean(cfg, s) {
      CleanStep(cfg, s, a);
      if a == Read(Pick) && s.sem <= 0 && !s.closed {
        PickHasToken(cfg, s);
      }
    } else {
      SpoiledStep(cfg, s, a);
    }
  }

  /** Without the closer a pick finds a token to release, and only an error makes it come early. */
  lemma PickHasToken(cfg: Config, s: State)
    requires Global(cfg, s) && Clean(cfg, s) && ReadEnabled(s, Pick) && !s.closed
    ensures Taken(s) < s.produced && s.sem > 0
    ensures !NextPlaced(cfg, s) ==> Taken(s) > 0 && s.gen.Exited? && s.evDone && cfg.src(s.produced - 1).Fail? && !s.finished
  {
    if s.evDone {
      assert !cfg.src(s.produced - 1).Elem?;
      assert Taken(s) == s.produced ==> s.outs[s.produced - 1] == Out(cfg, s.produced - 1);
      if s.finished {
        assert s.busy == multiset{} by { EmptyBusy(s.busy); }
        assert Flight(cfg, s, Taken(s) + 1) == 0;
      }
    }
  }

  lemma EmptyBusy(b: multiset<Rec>)
    ensures |b| == 0 ==> b == multiset{}
  {
  }

  /** A reachable state is initial or one step after a reachable one, along the same run. */
  lemma {:induction false} RunLoose(cfg: Config, steps: seq<State>)
    requires Run(cfg, steps)
    ensures Loose(cfg, steps[|steps| - 1])
    decreases |steps|
  {
    if |steps| == 1 {
      GlobalInit(cfg);
    } else {
      var s := LastStep(cfg, steps);
      RunLoose(cfg, steps[..|steps| - 1]);
      var a :| Enabled(cfg, s, a) && steps[|steps| - 1] == Apply(cfg, s, a);
      LooseStep(cfg, s, a);
    }
  }

  lemma LastStep(cfg: Config, steps: seq<State>) returns (s: State)
    requires Run(cfg, steps) && |steps| > 1
    ensures Run(cfg, steps[..|steps| - 1])
    ensures s == steps[|steps| - 2] == steps[..|steps| - 1][|steps| - 2]
    ensures Step(cfg, s, steps[|steps| - 1])
  {
    var front := steps[..|steps| - 1];
    s := steps[|steps| - 2];
    forall i | 0 <= i < |front| - 1 ensures Step(cfg, front[i], front[i + 1]) {
      assert Step(cfg, steps[i], steps[i + 1]);
    }
    assert Step(cfg, steps[|steps| - 2], steps[|steps| - 2 + 1]);
  }

  lemma ReachLoose(cfg: Config, s: State)
    requires Reach(cfg, s)
    ensures Loose(cfg, s)
  {
    var steps :| Run(cfg, steps) && steps[|steps| - 1] == s;
    RunLoose(cfg, steps);
  }

  /** ORDER.  Whatever the interleaving, the iterator, the mapper and the closer do: the results
      before the first nil or error are the mapped elements in order, and an error that is returned
      is the next result due. */
  lemma OrderedResults(cfg: Config, s: State)
    requires Reach(cfg, s)
    ensures forall j: nat :: j < |s.outs| && (j < |s.outs| - 1 || !s.outs[j].Nil?) ==>
      if s.outs[j].Elem? then cfg.src(j).Elem? && cfg.proc(cfg.src(j).e) == Some(s.outs[j].e)
      else j == |s.outs| - 1 && cfg.src(j).Fail? && s.outs[j] == cfg.src(j)
  {
    ReachLoose(cfg, s);
    forall j: nat | j < |s.outs| && (j < |s.outs| - 1 || !s.outs[j].Nil?)
      ensures s.outs[j] == Out(cfg, j) && (j < |s.outs| - 1 ==> s.outs[j].Elem?) {
    }
  }

  /** Without the closer, and if the iterator never fails, a nil that is received is the iterator's own or
      stands for an element the mapper makes nil of. */
  lemma NilResult(cfg: Config, s: State, j: nat)
    requires Reach(cfg, s) && !s.closed && j < |s.outs| && s.outs[j].Nil?
    requires NeverFails(cfg)
    ensures j == |s.outs| - 1 && (cfg.src(j).Nil? || (cfg.src(j).Elem? && cfg.proc(cfg.src(j).e).None?))
  {
    var steps :| Run(cfg, steps) && steps[|steps| - 1] == s;
    RunClean(cfg, steps);
    OrderedResults(cfg, s);
    assert s.outs[j] == Out(cfg, j);
  }

  ghost predicate PickedEnd(s: State) {
    s.reader.Stopped? || (s.reader.Locked? && !s.reader.r.Elem?)
  }

  /** WINDOW.  Until the reader has picked a nil or an error, every record in a channel or worker has
      an index in (taken, taken + n] and is in one place only, every other produced record of that
      window is in its slot, every other slot is empty, and no panic has happened unless the closer
      was called. */
  lemma WindowUntilEnd(cfg: Config, s: State)
    requires Reach(cfg, s) && !PickedEnd(s)
    ensures !s.crash.SpotTaken? && (s.crash.OverRelease? ==> s.closed)
    ensures s.crash.NoCrash? ==> s.produced <= Taken(s) + cfg.n && Flights(cfg, s, Taken(s)) && Slots(cfg, s, Taken(s))
  {
    ReachLoose(cfg, s);
  }

  /** Without the closer the generator never releases more than it holds. */
  lemma NeverOverReleases(cfg: Config, s: State)
    requires Reach(cfg, s) && !s.closed
    ensures !s.crash.OverRelease?
    ensures s.crash.NoCrash? && ReadEnabled(s, Pick) ==> s.sem > 0
  {
    ReachLoose(cfg, s);
    if s.crash.NoCrash? && ReadEnabled(s, Pick) {
      PickHasToken(cfg, s);
    }
  }

  /** The generator releases too much when the closer runs first: in every configuration some run
      ends that way. */
  lemma CloseFirstOverReleases(cfg: Config)
    requires cfg.n >= 1
    ensures exists s :: Reach(cfg, s) && s.crash.OverRelease?
  {
    ReachInit(cfg);
    var s0 := Init(cfg);
    ReachStep(cfg, s0, Close(SetDone));
    var s1 := Apply(cfg, s0, Close(SetDone));
    ReachStep(cfg, s1, Gen(CheckTop));
    var s2 := Apply(cfg, s1, Gen(CheckTop));
    WorkersLeave(cfg, s2, cfg.n);
    var s3 := s2.(idle := 0, gone := cfg.n);
    ReachStep(cfg, s3, Work(CloseReady));
    var s4 := Apply(cfg, s3, Work(CloseReady));
    ReachStep(cfg, s4, Order(ExitPlacer));
    var s5 := Apply(cfg, s4, Order(ExitPlacer));
    ReachStep(cfg, s5, Order(Finish));
    var s6 := Apply(cfg, s5, Order(Finish));
    ReachStep(cfg, s6, Read(Pick));
    var s7 := Apply(cfg, s6, Read(Pick));
    assert Reach(cfg, s7) && s7.crash.OverRelease?;
  }

  lemma {:induction false} WorkersLeave(cfg: Config, s: State, m: nat)
    requires Reach(cfg, s) && s.crash.NoCrash? && s.gen.Exited? && s.chGen == [] && m <= s.idle
    ensures Reach(cfg, s.(idle := s.idle - m, gone := s.gone + m))
    decreases m
  {
    if m == 0 {
      assert s == s.(idle := s.idle - m, gone := s.gone + m);
    } else {
      ReachStep(cfg, s, Work(ExitWorker));
      var t := Apply(cfg, s, Work(ExitWorker));
      WorkersLeave(cfg, t, m - 1);
      assert t.(idle := t.idle - (m - 1), gone := t.gone + (m - 1)) == s.(idle := s.idle - m, gone := s.gone + m);
    }
  }

  /** The iterator never returns an error, as far as it is called. */
  ghost predicate NeverFails(cfg: Config) {
    forall k: nat :: !FailsAt(cfg, k)
  }

  /** As long as the iterator does not fail and the closer is not called, nothing is picked early. */
  lemma {:induction false} RunClean(cfg: Config, steps: seq<State>)
    requires Run(cfg, steps) && NeverFails(cfg) && !steps[|steps| - 1].closed
    ensures var s := steps[|steps| - 1]; s.crash.NoCrash? && Global(cfg, s) && Clean(cfg, s)
    decreases |steps|
  {
    if |steps| == 1 {
      GlobalInit(cfg);
    } else {
      var s := LastStep(cfg, steps);
      var a :| Enabled(cfg, s, a) && steps[|steps| - 1] == Apply(cfg, s, a);
      RunLoose(cfg, steps[..|steps| - 1]);
      NoCloser(cfg, s, a);
      RunClean(cfg, steps[..|steps| - 1]);
      GlobalStep(cfg, s, a);
      CleanStep(cfg, s, a);
      if a == Read(Pick) {
        PickHasToken(cfg, s);
        assert !FailsAt(cfg, s.produced - 1);
      }
    }
  }

  lemma ClosedStays(cfg: Config, s: State, a: Action)
    requires Enabled(cfg, s, a) && !a.Close?
    ensures Apply(cfg, s, a).closed == s.closed
  {
    if !a.Read? { ReaderFrame(cfg, s, a); }
  }

  lemma NoCloser(cfg: Config, s: State, a: Action)
    requires Enabled(cfg, s, a) && Loose(cfg, s) && !Apply(cfg, s, a).closed
    ensures !s.closed && !a.Close?
  {
    if a.Close? { CloseFrame(s, a.c); } else { ClosedStays(cfg, s, a); }
  }

  /** What the mapper makes of each of the first k elements, in order, and then nil. */
  ghost predicate AllDelivered(cfg: Config, outs: seq<Val>, k: nat)
    requires EndsAt(cfg, k)
  {
    && |outs| == k + 1 && outs[k] == Nil
    && forall j: nat :: j < k ==> outs[j].Elem? && cfg.proc(cfg.src(j).e) == Some(outs[j].e)
  }

  /** COMPLETENESS.  If the iterator yields k elements and then nil, and the mapper never returns
      nil, then a reader that stopped has received the k mapped elements and then nil, and no run
      panics. */
  lemma CompleteResults(cfg: Config, s: State, k: nat)
    requires Reach(cfg, s) && !s.closed && EndsAt(cfg, k) && ProcNeverNil(cfg)
    ensures s.crash.NoCrash?
    ensures s.reader.Stopped? ==> AllDelivered(cfg, s.outs, k)
  {
    var steps :| Run(cfg, steps) && steps[|steps| - 1] == s;
    forall j: nat ensures !FailsAt(cfg, j) {
      assert j < k ==> cfg.src(j).Elem?;
    }
    RunClean(cfg, steps);
    if s.reader.Stopped? {
      var m := |s.outs| - 1;
      assert !Out(cfg, m).Elem?;
      assert m >= k;
      assert forall j: nat :: j < m ==> cfg.src(j).Elem?;
      assert forall j: nat :: j < k ==> Out(cfg, j) == s.outs[j];
    }
  }

  /** PROGRESS.  With a mapper that never returns nil and without the closer, some step of the
      pipeline or of the reader is possible until the reader has stopped or the placer panicked;
      in particular a reader waiting for `evReady` is never left alone. */
  lemma Progress(cfg: Config, s: State) returns (a: Action)
    requires Reach(cfg, s) && !s.closed && s.crash.NoCrash? && !s.reader.Stopped? && ProcNeverNil(cfg)
    ensures Enabled(cfg, s, a) && !a.Close?
    ensures s.reader.Waiting? && !s.evReady ==> !a.Read?
  {
    ReachLoose(cfg, s);
    if s.reader.Locked? {
      a := Read(Return);
    } else if s.evReady {
      a := Read(Pick);
    } else {
      a := Unblocked(cfg, s);
    }
  }

  lemma Unblocked(cfg: Config, s: State) returns (a: Action)
    requires Global(cfg, s) && Clean(cfg, s) && !s.closed && s.crash.NoCrash? && ProcNeverNil(cfg)
    requires s.reader.Waiting? && !s.evReady
    ensures Enabled(cfg, s, a) && !a.Close? && !a.Read?
  {
    if s.chReady != [] {
      a := Order(Place);
    } else if s.busy != multiset{} {
      var r :| r in s.busy;
      a := Work(SendRec(r));
    } else if s.chGen != [] {
      a := Work(TakeRec);
    } else if !s.gen.Exited? {
      a := match s.gen { case Top => Gen(CheckTop) case Acq => Gen(Acquire) case Got => Gen(CheckAgain)
                         case Call => Gen(Produce) case _ => Gen(MarkDone) };
      if s.gen.Acq? {
        TokenFree(cfg, s);
      }
    } else if s.idle > 0 {
      a := Work(ExitWorker);
    } else if !s.readyClosed {
      a := Work(CloseReady);
    } else if !s.placerDone {
      a := Order(ExitPlacer);
    } else {
      a := Order(Finish);
    }
  }

  /** With nothing in flight and nothing announced, `consume` is not blocked on the semaphore. */
  lemma TokenFree(cfg: Config, s: State)
    requires Global(cfg, s) && Clean(cfg, s) && !s.closed && ProcNeverNil(cfg)
    requires s.reader.Waiting? && !s.evReady && s.gen.Acq?
    requires s.chGen == [] && s.chReady == [] && s.busy == multiset{}
    ensures s.sem < cfg.n
  {
    assert s.slots[0].v == SlotVal(cfg, s, Taken(s) + 1 + 0);
    assert Flight(cfg, s, Taken(s) + 1) == 0;
    assert Taken(s) < s.produced ==> cfg.src(Taken(s)).Elem?;
  }

  /** The first non-element the iterator returns is its K-th result. */
  ghost predicate StopsAt(cfg: Config, K: nat) {
    !cfg.src(K).Elem? && forall j: nat :: j < K ==> cfg.src(j).Elem?
  }

  ghost function GenRank(g: GenPc): nat {
    match g
    case Top => 5 case Acq => 4 case Got => 3 case Call => 2 case Mark => 1 case Exited => 0
  }

  ghost function ReaderRank(s: State, K: nat): int {
    match s.reader
    case Waiting => 2 * (K + 1 - |s.outs|)
    case Locked(_) => 2 * (K + 1 - |s.outs|) - 1
    case Stopped => 0
  }

  /** How many steps are left, at most. */
  ghost function Left(s: State, K: nat): int {
    PipelineRank(s, K) + ReaderRank(s, K)
  }

  ghost function PipelineRank(s: State, K: nat): int {
    10 * (K + 1 - s.produced) + GenRank(s.gen) + 5 * |s.chGen| + 3 * |s.busy| + |s.chReady| + s.idle
    + (if s.readyClosed then 0 else 1) + (if s.placerDone then 0 else 1) + (if s.finished then 0 else 1)
  }

  lemma LeftBounded(cfg: Config, s: State, K: nat)
    requires StopsAt(cfg, K) && s.crash.NoCrash? && Loose(cfg, s)
    ensures Left(s, K) >= 0
    ensures s.produced <= K + 1
    ensures !s.reader.Stopped? ==> |s.outs| <= K
  {
    assert s.produced > K + 1 ==> cfg.src(K).Elem?;
    assert !s.reader.Stopped? && |s.outs| > K ==> s.outs[K] == Out(cfg, K);
  }

  /** PROGRESS, the measure: every step other than the closer's brings the end nearer. */
  lemma LeftDecreases(cfg: Config, s: State, a: Action, K: nat)
    requires StopsAt(cfg, K) && Loose(cfg, s) && Enabled(cfg, s, a) && !a.Close?
    ensures var t := Apply(cfg, s, a); t.crash.NoCrash? ==> 0 <= Left(t, K) < Left(s, K)
  {
    LooseStep(cfg, s, a);
    LeftBounded(cfg, s, K);
    if Apply(cfg, s, a).crash.NoCrash? {
      LeftBounded(cfg, Apply(cfg, s, a), K);
      LeftOne(cfg, s, a, K);
    }
  }

  lemma LeftOne(cfg: Config, s: State, a: Action, K: nat)
    requires Enabled(cfg, s, a) && !a.Close? && Apply(cfg, s, a).crash.NoCrash?
    requires !s.reader.Stopped? ==> |s.outs| <= K
    ensures Left(Apply(cfg, s, a), K) < Left(s, K)
  {
    match a
    case Gen(g) => LeftGen(cfg, s, g, K);
    case Work(w) => LeftWork(cfg, s, w, K);
    case Order(o) => LeftOrder(cfg, s, o, K);
    case Read(q) => LeftRead(s, q, K);
  }

  lemma LeftWork(cfg: Config, s: State, w: WorkAct, K: nat)
    requires WorkEnabled(cfg, s, w)
    ensures Left(WorkApply(cfg, s, w), K) < Left(s, K)
  {
    match w
    case TakeRec => assert |WorkApply(cfg, s, w).busy| == |s.busy| + 1;
    case SendRec(r) => RemoveOne(s.busy, r);
    case ExitWorker =>
    case CloseReady =>
  }

  lemma LeftOrder(cfg: Config, s: State, o: OrderAct, K: nat)
    requires OrderEnabled(cfg, s, o)
    ensures Left(OrderApply(cfg, s, o), K) < Left(s, K)
  {
    OrderFrame(cfg, s, o);
  }

  lemma LeftGen(cfg: Config, s: State, g: GenAct, K: nat)
    requires GenEnabled(cfg, s, g)
    ensures Left(GenApply(cfg, s, g), K) < Left(s, K)
  {
  }

  lemma LeftRead(s: State, q: ReadAct, K: nat)
    requires ReadEnabled(s, q) && |s.outs| <= K && s.crash.NoCrash? && ReadApply(s, q).crash.NoCrash?
    ensures Left(ReadApply(s, q), K) < Left(s, K)
  {
    var t := ReadApply(s, q);
    SameRank(s, t, K);
    if q.Pick? { LeftPick(s, K); } else { LeftReturn(s, K); }
  }

  lemma SameRank(s: State, t: State, K: nat)
    requires t == s.(sem := t.sem, reader := t.reader, slots := t.slots, evReady := t.evReady, outs := t.outs)
    ensures PipelineRank(t, K) == PipelineRank(s, K)
  {
  }

  lemma LeftPick(s: State, K: nat)
    requires ReadEnabled(s, Pick) && s.sem > 0
    ensures ReaderRank(ReadApply(s, Pick), K) < ReaderRank(s, K)
  {
  }

  lemma LeftReturn(s: State, K: nat)
    requires ReadEnabled(s, Return) && |s.outs| <= K
    ensures ReaderRank(ReadApply(s, Return), K) < ReaderRank(s, K)
  {
  }

  /** TERMINATION.  A run without the closer over an iterator that stops is no longer than what the
      initial state allows, ... */
  lemma {:induction false} RunLength(cfg: Config, steps: seq<State>, K: nat)
    requires Run(cfg, steps) && StopsAt(cfg, K) && steps[|steps| - 1].crash.NoCrash? && !steps[|steps| - 1].closed
    ensures |steps| - 1 + Left(steps[|steps| - 1], K) <= 12 * (K + 1) + cfg.n + 8
    decreases |steps|
  {
    if |steps| > 1 {
      var s := LastStep(cfg, steps);
      var a :| Enabled(cfg, s, a) && steps[|steps| - 1] == Apply(cfg, s, a);
      RunLoose(cfg, steps[..|steps| - 1]);
      NoCloser(cfg, s, a);
      RunLength(cfg, steps[..|steps| - 1], K);
      LeftDecreases(cfg, s, a, K);
    }
  }

  /** ... and when it cannot be continued, the reader has everything: all elements, then nil. */
  lemma EveryMaximalRunDelivers(cfg: Config, s: State, k: nat)
    requires Reach(cfg, s) && !s.closed && EndsAt(cfg, k) && ProcNeverNil(cfg)
    requires forall a: Action :: Enabled(cfg, s, a) ==> a.Close?
    ensures AllDelivered(cfg, s.outs, k)
  {
    CompleteResults(cfg, s, k);
    if !s.reader.Stopped? {
      var a := Progress(cfg, s);
      assert false;
    }
  }
}
