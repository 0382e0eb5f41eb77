/** What an error of the iterator, or the closer, does to the pipeline.  Once `evDone` is set the
    generator no longer clears `evReady` (utils/pipeliner.go:154), so a reader can be given a nil
    although results, and the error itself, are still on their way.  This file says exactly when an
    error can be hidden so, and exactly when the placer can run into an occupied slot. */
module PipelineErrors {
  import opened PipelineModel
  import opened PipelineInvariant
  import opened PipelineResults

  /** No error comes after at least n elements with n > 1. */
  ghost predicate Safe(cfg: Config) {
    forall k: nat :: FailsAt(cfg, k) ==> !(2 <= cfg.n <= k)
  }

  /** With n > 1, there are fewer than n elements before the iterator ends or fails. */
  ghost predicate Short(cfg: Config) {
    !(2 <= cfg.n && AllElems(cfg, cfg.n))
  }

  /** How many records there can be once `evDone` is set: a call of the iterator that is already due is
      still made. */
  ghost function Final(s: State): nat {
    s.produced + if s.gen.Call? then 1 else 0
  }

  /** The slots after an early pick, the c-th: one index too far, and the record that was picked too
      early may lie in the last one. */
  ghost predicate LateSlots(cfg: Config, s: State, c: nat)
    requires c > 0
  {
    && cfg.n >= 1 && |s.slots| == cfg.n
    && (cfg.n == 1 ==> c > s.produced || Flight(cfg, s, c) > 0 ==> s.slots[0].v.Nil?)
    && (cfg.n > 1 ==>
          && (forall j: nat :: j < cfg.n - 1 ==> s.slots[j].i == c + 1 + j && s.slots[j].v == SlotVal(cfg, s, c + 1 + j))
          && (|| (s.slots[cfg.n - 1].i == c + cfg.n && s.slots[cfg.n - 1].v.Nil?)
              || (s.slots[cfg.n - 1].i == c && c <= s.produced && Flight(cfg, s, c) == 0)))
  }

  /** After an early pick with records still to come. */
  ghost predicate Pending(cfg: Config, s: State) {
    && 2 <= Taken(s) <= s.produced + 1 && Final(s) < Taken(s) + cfg.n && (cfg.n >= 2 ==> Final(s) <= cfg.n)
    && s.evDone && (!s.closed ==> s.gen.Exited? && Taken(s) <= s.produced)
    && Flights(cfg, s, Taken(s) - 1)
    && LateSlots(cfg, s, Taken(s))
  }

  /** After an early pick. */
  ghost predicate Late(cfg: Config, s: State) {
    Spoiled(cfg, s) && ((s.finished && s.closed) || Pending(cfg, s))
  }

  /** With a safe configuration no more than n records matter. */
  lemma FewRecords(cfg: Config, s: State)
    requires Global(cfg, s) && cfg.n >= 2
    requires Short(cfg) || (Safe(cfg) && s.gen.Exited? && s.produced > 0 && cfg.src(s.produced - 1).Fail?)
    ensures Final(s) <= cfg.n
  {
    assert AllElems(cfg, Final(s) - 1);
    assert s.produced > 0 && cfg.src(s.produced - 1).Fail? ==> FailsAt(cfg, s.produced - 1);
    assert Final(s) > cfg.n ==> AllElems(cfg, cfg.n);
  }

  lemma LateStart(cfg: Config, s: State)
    requires Global(cfg, s) && Clean(cfg, s) && ReadEnabled(s, Pick) && !NextPlaced(cfg, s) && s.sem > 0
    requires Short(cfg) || (Safe(cfg) && !s.closed)
    ensures Late(cfg, ReadApply(s, Pick))
  {
    var t := ReadApply(s, Pick);
    EarlyTake(cfg, s);
    if !s.closed {
      PickHasToken(cfg, s);
    }
    if !(s.finished && s.closed) {
      if cfg.n >= 2 { FewRecords(cfg, s); }
      SlotsShift(cfg, s, t, Taken(s));
      LateSlotsStart(cfg, t, Taken(t));
      SameContents(cfg, s, t, Taken(s));
    }
  }

  lemma LateSlotsStart(cfg: Config, s: State, c: nat)
    requires c > 0 && cfg.n >= 1 && Slots(cfg, s, c) && s.produced < c + cfg.n
    ensures LateSlots(cfg, s, c)
  {
    assert s.slots[cfg.n - 1].v == SlotVal(cfg, s, c + 1 + (cfg.n - 1));
  }

  lemma SameContents(cfg: Config, s: State, t: State, lo: nat)
    requires Flights(cfg, s, lo)
    requires t.chGen == s.chGen && t.busy == s.busy && t.chReady == s.chReady && t.produced == s.produced
    ensures Flights(cfg, t, lo)
  {
    assert forall x: nat :: x > 0 ==> Flight(cfg, t, x) == Flight(cfg, s, x);
  }

  /** Steps that leave the slots alone and lose no record. */
  lemma LateFrame(cfg: Config, s: State, t: State)
    requires Pending(cfg, s) && Spoiled(cfg, t) && Taken(t) == Taken(s)
    requires t.produced == s.produced && t.slots == s.slots && t.evDone && Final(t) <= Final(s)
    requires !t.closed ==> !s.closed && t.gen == s.gen
    requires Flights(cfg, t, Taken(s) - 1)
    requires forall x: nat :: x > 0 ==> Flight(cfg, t, x) == Flight(cfg, s, x)
    ensures Late(cfg, t)
  {
    SameFlights(cfg, s, t);
  }

  /** Steps that touch no record at all. */
  lemma LateQuiet(cfg: Config, s: State, t: State)
    requires Pending(cfg, s) && Spoiled(cfg, s) && SameReader(s, t) && t.produced == s.produced && t.slots == s.slots
    requires t.evDone && Final(t) <= Final(s) && (!t.closed ==> !s.closed && t.gen == s.gen)
    requires t.chGen == s.chGen && t.busy == s.busy && t.chReady == s.chReady
    ensures Late(cfg, t)
  {
    assert forall x: nat :: x > 0 ==> Flight(cfg, t, x) == Flight(cfg, s, x);
    SameContents(cfg, s, t, Taken(s) - 1);
    LateFrame(cfg, s, t);
  }

  lemma LateMoved(cfg: Config, s: State, t: State)
    requires Pending(cfg, s) && Spoiled(cfg, s)
    requires t == s.(idle := t.idle, busy := t.busy, chGen := t.chGen, chReady := t.chReady)
    requires Flights(cfg, t, Taken(s) - 1)
    requires forall x: nat :: x > 0 ==> Flight(cfg, t, x) == Flight(cfg, s, x)
    ensures Late(cfg, t)
  {
    LateFrame(cfg, s, t);
  }

  lemma LateTakeRec(cfg: Config, s: State)
    requires Pending(cfg, s) && Spoiled(cfg, s) && WorkEnabled(cfg, s, TakeRec)
    ensures Late(cfg, WorkApply(cfg, s, TakeRec))
  {
    var t := WorkApply(cfg, s, TakeRec);
    FlightsTake(cfg, s, Taken(s) - 1);
    LateMoved(cfg, s, t);
  }

  lemma LateSendRec(cfg: Config, s: State, r: Rec)
    requires Pending(cfg, s) && Spoiled(cfg, s) && WorkEnabled(cfg, s, SendRec(r))
    ensures Late(cfg, WorkApply(cfg, s, SendRec(r)))
  {
    var t := WorkApply(cfg, s, SendRec(r));
    FlightsSend(cfg, s, r, Taken(s) - 1);
    LateMoved(cfg, s, t);
  }

  lemma LateWork(cfg: Config, s: State, w: WorkAct)
    requires Pending(cfg, s) && Spoiled(cfg, s) && WorkEnabled(cfg, s, w)
    ensures Late(cfg, WorkApply(cfg, s, w))
  {
    match w
    case TakeRec => LateTakeRec(cfg, s);
    case SendRec(r) => LateSendRec(cfg, s, r);
    case ExitWorker => LateQuiet(cfg, s, WorkApply(cfg, s, w));
    case CloseReady => LateQuiet(cfg, s, WorkApply(cfg, s, w));
  }

  lemma LateOrder(cfg: Config, s: State, o: OrderAct)
    requires Global(cfg, s) && Pending(cfg, s) && Spoiled(cfg, s) && OrderEnabled(cfg, s, o)
    ensures OrderApply(cfg, s, o).crash == s.crash && Late(cfg, OrderApply(cfg, s, o))
  {
    match o
    case Place => LatePlace(cfg, s);
    case ExitPlacer => LateQuiet(cfg, s, OrderApply(cfg, s, o));
    case Finish => LateQuiet(cfg, s, OrderApply(cfg, s, o));
  }

  lemma LateReturn(cfg: Config, s: State)
    requires Pending(cfg, s) && Spoiled(cfg, s) && ReadEnabled(s, Return)
    ensures Late(cfg, ReadApply(s, Return))
  {
    var t := ReadApply(s, Return);
    assert Spoiled(cfg, t);
    assert forall x: nat :: x > 0 ==> Flight(cfg, t, x) == Flight(cfg, s, x);
    LateFrame(cfg, s, t);
  }

  /** Where the placer puts a record after an early pick. */
  lemma LateSpot(cfg: Config, s: State) returns (spot: nat)
    requires Pending(cfg, s) && Global(cfg, s) && s.chReady != []
    ensures spot < cfg.n && Spot(s.slots, s.chReady[0].i) == spot && s.slots[spot].v.Nil?
    ensures Taken(s) <= s.chReady[0].i
    ensures spot == if s.chReady[0].i == Taken(s) then cfg.n - 1 else s.chReady[0].i - Taken(s) - 1
    ensures cfg.n > 1 && s.chReady[0].i != Taken(s) ==> spot < cfg.n - 1
  {
    var c := Taken(s);
    FlightsPop(cfg, s, s.(chReady := s.chReady[1..]), c - 1);
    var x := s.chReady[0].i;
    if x == c {
      spot := cfg.n - 1;
    } else {
      spot := x - c - 1;
      assert s.slots[spot].v == SlotVal(cfg, s, c + 1 + spot);
    }
    SpotIs(s.slots, x, spot);
  }

  lemma LatePlace(cfg: Config, s: State)
    requires Pending(cfg, s) && Spoiled(cfg, s) && Global(cfg, s) && OrderEnabled(cfg, s, Place)
    ensures Placed(s).crash == s.crash && Late(cfg, Placed(s))
  {
    var spot := LateSpot(cfg, s);
    PlacedInto(s, spot);
    LatePlaced(cfg, s, Placed(s), spot);
  }

  lemma LatePlaced(cfg: Config, s: State, t: State, spot: nat)
    requires Pending(cfg, s) && Spoiled(cfg, s) && Popped(s, t) && spot < cfg.n && t.slots == s.slots[spot := s.chReady[0]]
    requires SameReader(s, t) && t.gen == s.gen && t.evDone == s.evDone && t.closed == s.closed
    requires Taken(s) <= s.chReady[0].i
    requires spot == if s.chReady[0].i == Taken(s) then cfg.n - 1 else s.chReady[0].i - Taken(s) - 1
    requires cfg.n > 1 && s.chReady[0].i != Taken(s) ==> spot < cfg.n - 1
    ensures Late(cfg, t)
  {
    PoppedFlights(cfg, s, t, Taken(s) - 1);
    LateSlotsPlaced(cfg, s, t, spot, Taken(s));
    LateAgain(cfg, s, t);
  }

  lemma LateAgain(cfg: Config, s: State, t: State)
    requires Pending(cfg, s) && Spoiled(cfg, s) && SameReader(s, t)
    requires t.evDone && t.produced >= s.produced && Final(t) <= Final(s) && (!t.closed ==> !s.closed && t.gen == s.gen)
    requires Flights(cfg, t, Taken(s) - 1) && LateSlots(cfg, t, Taken(s))
    ensures Late(cfg, t)
  {
  }

  lemma PoppedFlights(cfg: Config, s: State, t: State, lo: nat)
    requires Flights(cfg, s, lo) && Popped(s, t)
    ensures Flights(cfg, t, lo)
  {
    FlightsPop(cfg, s, t, lo);
  }

  lemma LateSlotsPlaced(cfg: Config, s: State, t: State, spot: nat, c: nat)
    requires c > 0 && LateSlots(cfg, s, c) && Flights(cfg, s, c - 1) && Popped(s, t) && s.produced < c + cfg.n
    requires spot < cfg.n && t.slots == s.slots[spot := s.chReady[0]]
    requires c <= s.chReady[0].i
    requires spot == if s.chReady[0].i == c then cfg.n - 1 else s.chReady[0].i - c - 1
    requires cfg.n > 1 && s.chReady[0].i != c ==> spot < cfg.n - 1
    ensures LateSlots(cfg, t, c)
  {
    FlightsPop(cfg, s, t, c - 1);
    forall j: nat | j < cfg.n - 1
      ensures t.slots[j].i == c + 1 + j && t.slots[j].v == SlotVal(cfg, t, c + 1 + j)
    {
      assert s.slots[j].v == SlotVal(cfg, s, c + 1 + j);
    }
  }

  /** The call that was due is made. */
  lemma LateProduce(cfg: Config, s: State)
    requires Pending(cfg, s) && Spoiled(cfg, s) && GenEnabled(cfg, s, Produce)
    ensures Late(cfg, GenApply(cfg, s, Produce))
  {
    ProduceFrame(cfg, s);
    ProduceReader(cfg, s);
    FlightsProduce(cfg, s, Taken(s) - 1);
    LateSlotsProduce(cfg, s, Taken(s));
    LateAgain(cfg, s, GenApply(cfg, s, Produce));
  }

  lemma ProduceFrame(cfg: Config, s: State)
    requires GenEnabled(cfg, s, Produce)
    ensures (GenApply(cfg, s, Produce).evDone, GenApply(cfg, s, Produce).closed) == (s.evDone, s.closed)
    ensures (GenApply(cfg, s, Produce).produced, Final(GenApply(cfg, s, Produce))) == (s.produced + 1, Final(s))
  {
  }

  lemma ProduceReader(cfg: Config, s: State)
    requires GenEnabled(cfg, s, Produce)
    ensures SameReader(s, GenApply(cfg, s, Produce))
  {
  }

  lemma LateSlotsProduce(cfg: Config, s: State, c: nat)
    requires c > 0 && GenEnabled(cfg, s, Produce) && LateSlots(cfg, s, c) && Flights(cfg, s, c - 1) && c <= s.produced + 1
    ensures LateSlots(cfg, GenApply(cfg, s, Produce), c)
  {
    var t := GenApply(cfg, s, Produce);
    FlightsProduce(cfg, s, c - 1);
    forall j: nat | j < cfg.n - 1 && cfg.n > 1 ensures t.slots[j].v == SlotVal(cfg, t, c + 1 + j) {
      assert s.slots[j].v == SlotVal(cfg, s, c + 1 + j);
    }
  }

  lemma LateGen(cfg: Config, s: State, g: GenAct)
    requires Pending(cfg, s) && Spoiled(cfg, s) && GenEnabled(cfg, s, g)
    ensures Late(cfg, GenApply(cfg, s, g))
  {
    GenFrame(cfg, s, g);
    if g.Produce? { LateProduce(cfg, s); } else { LateQuiet(cfg, s, GenApply(cfg, s, g)); }
  }

  lemma PendingStep(cfg: Config, s: State, a: Action)
    requires Global(cfg, s) && Pending(cfg, s) && Spoiled(cfg, s) && Enabled(cfg, s, a)
    ensures Apply(cfg, s, a).crash.NoCrash? && Late(cfg, Apply(cfg, s, a))
  {
    match a
    case Gen(g) =>
      GenFrame(cfg, s, g);
      LateGen(cfg, s, g);
    case Work(w) =>
      WorkFrame(cfg, s, w);
      LateWork(cfg, s, w);
    case Order(o) => LateOrder(cfg, s, o);
    case Read(q) => LateReturn(cfg, s);
    case Close(c) =>
      CloseFrame(s, c);
      LateQuiet(cfg, s, CloseApply(s, c));
  }

  /** When all goroutines have come to their end, nothing is placed any more. */
  lemma FinishedStep(cfg: Config, s: State, a: Action)
    requires Global(cfg, s) && s.finished && s.closed && Spoiled(cfg, s) && Enabled(cfg, s, a)
    ensures Apply(cfg, s, a).crash.NoCrash? && Late(cfg, Apply(cfg, s, a))
  {
    SpoiledStep(cfg, s, a);
    if !a.Read? { ReaderFrame(cfg, s, a); }
  }

  lemma LateStep(cfg: Config, s: State, a: Action)
    requires Global(cfg, s) && Late(cfg, s) && Enabled(cfg, s, a)
    ensures Apply(cfg, s, a).crash.NoCrash? && Late(cfg, Apply(cfg, s, a))
  {
    if s.finished && s.closed { FinishedStep(cfg, s, a); } else { PendingStep(cfg, s, a); }
  }

  /** The placer never finds a slot taken: with a short iterator in any run, with a safe one in runs
      without the closer. */
  lemma {:induction false} RunSafe(cfg: Config, steps: seq<State>)
    requires Run(cfg, steps) && (Short(cfg) || (Safe(cfg) && !steps[|steps| - 1].closed))
    ensures var s := steps[|steps| - 1];
      !s.crash.SpotTaken? && (s.crash.NoCrash? ==> Global(cfg, s) && (Clean(cfg, s) || Late(cfg, s)))
    decreases |steps|
  {
    if |steps| == 1 {
      GlobalInit(cfg);
    } else {
      var s, a := LastSafe(cfg, steps);
      RunSafe(cfg, steps[..|steps| - 1]);
      SafeStep(cfg, s, a);
    }
  }

  lemma LastSafe(cfg: Config, steps: seq<State>) returns (s: State, a: Action)
    requires Run(cfg, steps) && |steps| > 1 && (Short(cfg) || (Safe(cfg) && !steps[|steps| - 1].closed))
    ensures Run(cfg, steps[..|steps| - 1]) && s == steps[|steps| - 2] == steps[..|steps| - 1][|steps| - 2]
    ensures Enabled(cfg, s, a) && steps[|steps| - 1] == Apply(cfg, s, a)
    ensures Short(cfg) || !s.closed
  {
    s := LastStep(cfg, steps);
    a :| Enabled(cfg, s, a) && steps[|steps| - 1] == Apply(cfg, s, a);
    RunLoose(cfg, steps[..|steps| - 1]);
    if !Short(cfg) { NoCloser(cfg, s, a); }
  }

  lemma SafeStep(cfg: Config, s: State, a: Action)
    requires Global(cfg, s) && (Clean(cfg, s) || Late(cfg, s)) && Enabled(cfg, s, a)
    requires Short(cfg) || (Safe(cfg) && !s.closed)
    ensures var t := Apply(cfg, s, a);
      !t.crash.SpotTaken? && (t.crash.NoCrash? ==> Global(cfg, t) && (Clean(cfg, t) || Late(cfg, t)))
  {
    GlobalStep(cfg, s, a);
    if Clean(cfg, s) {
      CleanStep(cfg, s, a);
      if a == Read(Pick) && s.sem > 0 && !NextPlaced(cfg, s) { LateStart(cfg, s); }
    } else {
      LateStep(cfg, s, a);
    }
  }

  // ----- Building runs -----------------------------------------------------------------------

  /** The array while slot j waits for index m + 1 + j; a single slot loses its label. */
  ghost function Labels(n: int, m: nat): seq<Rec>
    requires n >= 1
  {
    if n > 1 then seq(n, (j: nat) => Rec(m + 1 + j, Nil)) else [Rec(if m == 0 then 1 else 0, Nil)]
  }

  ghost function Outs(cfg: Config, m: nat): seq<Val> {
    seq(m, (j: nat) => Out(cfg, j))
  }

  /** m elements went all the way through, and nothing is under way. */
  ghost function Rest(cfg: Config, m: nat): State
    requires cfg.n >= 1
  {
    Init(cfg).(produced := m, slots := Labels(cfg.n, m), outs := Outs(cfg, m))
  }

  lemma SpotAtLabels(n: int, m: nat, x: nat, slots: seq<Rec>)
    requires n >= 1 && slots == Labels(n, m) && m < x <= m + n
    ensures Spot(slots, x) == x - m - 1
  {
    SpotIs(slots, x, x - m - 1);
  }

  lemma ShiftLabels(n: int, m: nat, r: Rec)
    requires n >= 1 && r.i == m + 1
    ensures Shifted(Labels(n, m)[0 := r]) == Labels(n, m + 1)
  {
    var a := Shifted(Labels(n, m)[0 := r]);
    var b := Labels(n, m + 1);
    assert |a| == |b|;
    forall j | 0 <= j < |a| ensures a[j] == b[j] {
    }
  }

  lemma GrantedNext(cfg: Config, s: State)
    requires Reach(cfg, s) && s.crash.NoCrash? && s.gen.Got? && !s.evDone
    ensures Reach(cfg, s.(gen := Call))
  {
    ReachStep(cfg, s, Gen(CheckAgain));
  }

  /** `consume` gets a token and is about to call the iterator. */
  lemma Granted(cfg: Config, s: State)
    requires Reach(cfg, s) && s.crash.NoCrash? && s.gen.Top? && !s.evDone && s.sem < cfg.n
    ensures Reach(cfg, s.(gen := Call, sem := s.sem + 1))
  {
    ReachStep(cfg, s, Gen(CheckTop));
    var s1 := s.(gen := Acq);
    ReachStep(cfg, s1, Gen(Acquire));
    assert Apply(cfg, s1, Gen(Acquire)) == s.(gen := Got, sem := s.sem + 1);
    GrantedNext(cfg, s.(gen := Got, sem := s.sem + 1));
  }

  /** One more element is called for and queued. */
  lemma CallElem(cfg: Config, s: State)
    requires Reach(cfg, s) && s.crash.NoCrash? && s.gen.Top? && !s.evDone && s.sem < cfg.n && |s.chGen| < cfg.n
    requires cfg.src(s.produced).Elem?
    ensures Reach(cfg, s.(produced := s.produced + 1, sem := s.sem + 1, chGen := s.chGen + [Raw(cfg, s.produced + 1)]))
  {
    Granted(cfg, s);
    var s1 := s.(gen := Call, sem := s.sem + 1);
    ReachStep(cfg, s1, Gen(Produce));
    assert Apply(cfg, s1, Gen(Produce)) == s.(produced := s.produced + 1, sem := s.sem + 1, chGen := s.chGen + [Raw(cfg, s.produced + 1)]);
  }

  /** The iterator fails: the error is queued and `evDone` is set. */
  lemma CallFail(cfg: Config, s: State)
    requires Reach(cfg, s) && s.crash.NoCrash? && s.gen.Top? && !s.evDone && s.sem < cfg.n && |s.chGen| < cfg.n
    requires cfg.src(s.produced).Fail?
    ensures Reach(cfg, s.(gen := Exited, evDone := true, produced := s.produced + 1, sem := s.sem + 1,
                          chGen := s.chGen + [Raw(cfg, s.produced + 1)]))
  {
    Granted(cfg, s);
    var s1 := s.(gen := Call, sem := s.sem + 1);
    ReachStep(cfg, s1, Gen(Produce));
    var s2 := s.(gen := Mark, produced := s.produced + 1, sem := s.sem + 1, chGen := s.chGen + [Raw(cfg, s.produced + 1)]);
    assert Apply(cfg, s1, Gen(Produce)) == s2;
    ReachStep(cfg, s2, Gen(MarkDone));
    assert Apply(cfg, s2, Gen(MarkDone)) == s2.(gen := Exited, evDone := true);
  }

  /** A worker takes the oldest record, maps it and passes it on. */
  lemma WorkOne(cfg: Config, s: State)
    requires Reach(cfg, s) && s.crash.NoCrash? && s.idle > 0 && s.chGen != [] && |s.chReady| < cfg.n
    ensures Reach(cfg, s.(chGen := s.chGen[1..], chReady := s.chReady + [Rec(s.chGen[0].i, Mapped(cfg, s.chGen[0].v))]))
  {
    var r := s.chGen[0];
    ReachStep(cfg, s, Work(TakeRec));
    var s1 := Apply(cfg, s, Work(TakeRec));
    ReachStep(cfg, s1, Work(SendRec(r)));
    assert s1.busy - multiset{r} == s.busy;
    assert Apply(cfg, s1, Work(SendRec(r))) == s.(chGen := s.chGen[1..], chReady := s.chReady + [Rec(r.i, Mapped(cfg, r.v))]);
  }

  /** Its record goes into the given free slot. */
  lemma PlaceOne(cfg: Config, s: State, spot: nat)
    requires Reach(cfg, s) && s.crash.NoCrash? && |s.chReady| == 1 && spot < |s.slots| && !s.reader.Locked?
    requires Spot(s.slots, s.chReady[0].i) == spot && !s.slots[spot].v.Elem?
    ensures Reach(cfg, s.(chReady := [], slots := s.slots[spot := s.chReady[0]], evReady := s.evReady || spot == 0))
  {
    ReachStep(cfg, s, Order(Place));
    PlacedInto(s, spot);
  }

  /** Element m + 1 is queued, mapped and placed in front of the reader, with `more` queued behind it. */
  ghost function Offer(cfg: Config, m: nat, more: seq<Rec>): State
    requires cfg.n >= 1
  {
    Rest(cfg, m).(produced := m + 1 + |more|, sem := 1 + |more|, chGen := more,
                  slots := Labels(cfg.n, m)[0 := Done(cfg, m + 1)], evReady := true)
  }

  lemma OfferNext(cfg: Config, m: nat, more: seq<Rec>)
    requires cfg.n >= 1
    requires Reach(cfg, Rest(cfg, m).(produced := m + 1 + |more|, sem := 1 + |more|, chGen := [Raw(cfg, m + 1)] + more))
    ensures Reach(cfg, Offer(cfg, m, more))
  {
    var s := Rest(cfg, m).(produced := m + 1 + |more|, sem := 1 + |more|, chGen := [Raw(cfg, m + 1)] + more);
    WorkOne(cfg, s);
    assert s.chGen[1..] == more;
    var s1 := s.(chGen := more, chReady := [Done(cfg, m + 1)]);
    assert s.chReady + [Done(cfg, m + 1)] == [Done(cfg, m + 1)];
    SpotAtLabels(cfg.n, m, m + 1, s1.slots);
    PlaceOne(cfg, s1, 0);
    assert s1.(chReady := [], slots := s1.slots[0 := s1.chReady[0]], evReady := true) == Offer(cfg, m, more);
  }

  /** The state after the reader picked what was offered. */
  ghost function Picked(cfg: Config, m: nat, more: seq<Rec>): State
    requires cfg.n >= 1
  {
    Rest(cfg, m).(produced := m + 1 + |more|, sem := |more|, chGen := more,
                  slots := Labels(cfg.n, m + 1), evReady := true, reader := Locked(Out(cfg, m)))
  }

  lemma PickOffer(cfg: Config, m: nat, more: seq<Rec>)
    requires cfg.n >= 1 && Reach(cfg, Offer(cfg, m, more))
    ensures Reach(cfg, Picked(cfg, m, more))
  {
    var s := Offer(cfg, m, more);
    ReachStep(cfg, s, Read(Pick));
    ShiftLabels(cfg.n, m, Done(cfg, m + 1));
    assert Apply(cfg, s, Read(Pick)) == Picked(cfg, m, more);
  }

  lemma OutsMore(cfg: Config, m: nat)
    ensures Outs(cfg, m) + [Out(cfg, m)] == Outs(cfg, m + 1)
  {
  }

  /** Elements can go through one after the other. */
  lemma {:induction false} ReachRest(cfg: Config, m: nat)
    requires cfg.n >= 1 && ProcNeverNil(cfg) && AllElems(cfg, m)
    ensures Reach(cfg, Rest(cfg, m))
  {
    if m == 0 {
      ReachInit(cfg);
      assert Init(cfg).slots == Labels(cfg.n, 0);
      assert Init(cfg).outs == Outs(cfg, 0);
      assert Rest(cfg, 0) == Init(cfg);
    } else {
      ReachRest(cfg, m - 1);
      CallElem(cfg, Rest(cfg, m - 1));
      assert [] + [Raw(cfg, m)] == [Raw(cfg, m)] + [];
      OfferNext(cfg, m - 1, []);
      PickOffer(cfg, m - 1, []);
      ReturnRest(cfg, m - 1);
    }
  }

  lemma ReturnRest(cfg: Config, m: nat)
    requires cfg.n >= 1 && ProcNeverNil(cfg) && cfg.src(m).Elem? && Reach(cfg, Picked(cfg, m, []))
    ensures Reach(cfg, Rest(cfg, m + 1))
  {
    var s := Picked(cfg, m, []);
    ReachStep(cfg, s, Read(Return));
    OutsMore(cfg, m);
    assert Labels(cfg.n, m + 1)[0].v.Nil?;
    assert Apply(cfg, s, Read(Return)) == Rest(cfg, m + 1);
  }

  /** After the error or the closer, with `more` still queued: the reader has just been told that there is nothing. */
  ghost function Fooled(cfg: Config, m: nat, more: seq<Rec>, gen: GenPc, closed: bool): State
    requires cfg.n >= 1
  {
    Rest(cfg, m).(gen := gen, evDone := true, closed := closed, produced := m + 1 + |more|, sem := |more| - 1, chGen := more,
                  slots := Labels(cfg.n, m + 2), evReady := true, reader := Stopped, outs := Outs(cfg, m + 1) + [Nil])
  }

  /** The reader returns with element m + 1, comes back at once, and is given nil. */
  lemma FoolReader(cfg: Config, m: nat, queued: seq<Rec>)
    requires cfg.n >= 1 && ProcNeverNil(cfg) && |queued| < cfg.n
    requires Reach(cfg, Picked(cfg, m, queued))
    requires cfg.src(m).Elem? && cfg.src(m + 1 + |queued|).Fail?
    ensures Reach(cfg, Fooled(cfg, m, queued + [Raw(cfg, m + |queued| + 2)], Exited, false))
  {
    var more := queued + [Raw(cfg, m + |queued| + 2)];
    var s := Picked(cfg, m, queued);
    CallFail(cfg, s);
    ComeBack(cfg, m, more, Exited, false);
  }

  /** The reader returns with element m + 1 when nothing clears `evReady` any more, and picks a nil. */
  lemma ComeBack(cfg: Config, m: nat, more: seq<Rec>, gen: GenPc, closed: bool)
    requires cfg.n >= 1 && ProcNeverNil(cfg) && more != [] && cfg.src(m).Elem?
    requires Reach(cfg, Picked(cfg, m, []).(gen := gen, evDone := true, closed := closed, produced := m + 1 + |more|, sem := |more|, chGen := more))
    ensures Reach(cfg, Fooled(cfg, m, more, gen, closed))
  {
    var s1 := Picked(cfg, m, []).(gen := gen, evDone := true, closed := closed, produced := m + 1 + |more|, sem := |more|, chGen := more);
    ReachStep(cfg, s1, Read(Return));
    OutsMore(cfg, m);
    var s2 := s1.(reader := Waiting, outs := Outs(cfg, m + 1));
    assert Apply(cfg, s1, Read(Return)) == s2;
    PickNothing(cfg, s2, m);
    var s3 := s2.(sem := |more| - 1, reader := Locked(Nil), slots := Labels(cfg.n, m + 2));
    ReachStep(cfg, s3, Read(Return));
    assert Apply(cfg, s3, Read(Return)) == Fooled(cfg, m, more, gen, closed);
  }

  /** The closer sets `evDone` after `consume` has checked it for the last time, and one more record is
      produced, whatever it is. */
  lemma CloseDuringCall(cfg: Config, s: State) returns (gen: GenPc)
    requires Reach(cfg, s) && s.crash.NoCrash? && s.gen.Top? && !s.evDone && !s.closed && s.sem < cfg.n && |s.chGen| < cfg.n
    ensures Reach(cfg, s.(gen := gen, evDone := true, closed := true, produced := s.produced + 1, sem := s.sem + 1,
                          chGen := s.chGen + [Raw(cfg, s.produced + 1)]))
  {
    Granted(cfg, s);
    var s1 := s.(gen := Call, sem := s.sem + 1);
    ReachStep(cfg, s1, Close(SetDone));
    var s2 := s1.(closed := true, evDone := true);
    ReachStep(cfg, s2, Gen(Produce));
    var v := cfg.src(s.produced);
    gen := if v.Fail? then Mark else if v.Nil? then Exited else Top;
    assert Apply(cfg, s2, Gen(Produce)) == s.(gen := gen, evDone := true, closed := true, produced := s.produced + 1,
                                              sem := s.sem + 1, chGen := s.chGen + [Raw(cfg, s.produced + 1)]);
  }

  lemma PickNothing(cfg: Config, s: State, m: nat)
    requires cfg.n >= 1 && Reach(cfg, s) && s.crash.NoCrash? && s.reader.Waiting? && s.evReady && s.sem > 0
    requires s.slots == Labels(cfg.n, m + 1)
    ensures Reach(cfg, s.(sem := s.sem - 1, reader := Locked(Nil), slots := Labels(cfg.n, m + 2)))
  {
    ReachStep(cfg, s, Read(Pick));
    ShiftedAgain(cfg.n, m + 1);
  }

  lemma ShiftedAgain(n: int, m: nat)
    requires n >= 1 && m > 0
    ensures Shifted(Labels(n, m)) == Labels(n, m + 1)
  {
    if n > 1 {
      ShiftLabels(n, m, Labels(n, m)[0]);
      assert Labels(n, m)[0 := Labels(n, m)[0]] == Labels(n, m);
    }
  }

  /** MASKED ERROR.  If the iterator fails at its k-th call, some run hands the reader a nil instead
      of what is due exactly when k is positive: only an error of the very first call is safe. */
  lemma ErrorMaskedIff(cfg: Config, k: nat)
    requires cfg.n >= 1 && FailsAt(cfg, k) && ProcNeverNil(cfg)
    ensures (exists s :: Reach(cfg, s) && !s.closed && Nil in s.outs) <==> k >= 1
  {
    if k >= 1 {
      MaskedRun(cfg, k);
    } else {
      forall s | Reach(cfg, s) && !s.closed ensures Nil !in s.outs {
        FirstErrorSeen(cfg, s);
      }
    }
  }

  lemma MaskedRun(cfg: Config, k: nat)
    requires cfg.n >= 1 && FailsAt(cfg, k) && ProcNeverNil(cfg) && k >= 1
    ensures exists s :: Reach(cfg, s) && !s.closed && Nil in s.outs
  {
    ReachRest(cfg, k - 1);
    CallElem(cfg, Rest(cfg, k - 1));
    assert [] + [Raw(cfg, k)] == [Raw(cfg, k)] + [];
    OfferNext(cfg, k - 1, []);
    PickOffer(cfg, k - 1, []);
    FoolReader(cfg, k - 1, []);
    var s := Fooled(cfg, k - 1, [] + [Raw(cfg, k + 1)], Exited, false);
    assert s.outs[k] == Nil;
  }

  lemma FirstErrorSeen(cfg: Config, s: State)
    requires Reach(cfg, s) && !s.closed && FailsAt(cfg, 0) && ProcNeverNil(cfg)
    ensures Nil !in s.outs
  {
    var steps :| Run(cfg, steps) && steps[|steps| - 1] == s;
    forall k: nat | FailsAt(cfg, k) ensures k == 0 {
    }
    RunSafe(cfg, steps);
    ReachLoose(cfg, s);
    assert !cfg.src(0).Elem?;
    assert s.produced <= 1;
    assert !Late(cfg, s);
    forall j: nat | j < |s.outs| ensures !s.outs[j].Nil? {
      assert s.outs[j] == Out(cfg, j);
    }
  }

  /** Every queued record is taken by a worker. */
  lemma {:induction false} TakeAll(cfg: Config, s: State)
    requires Reach(cfg, s) && s.crash.NoCrash? && s.idle >= |s.chGen|
    ensures Reach(cfg, s.(chGen := [], busy := s.busy + multiset(s.chGen), idle := s.idle - |s.chGen|))
    decreases |s.chGen|
  {
    if s.chGen == [] {
      assert s == s.(chGen := [], busy := s.busy + multiset(s.chGen), idle := s.idle - |s.chGen|);
    } else {
      ReachStep(cfg, s, Work(TakeRec));
      var t := s.(idle := s.idle - 1, busy := s.busy + multiset{s.chGen[0]}, chGen := s.chGen[1..]);
      TakeAll(cfg, t);
      TakeHead(s.busy, s.chGen);
    }
  }

  lemma TakeHead(b: multiset<Rec>, q: seq<Rec>)
    requires q != []
    ensures b + multiset{q[0]} + multiset(q[1..]) == b + multiset(q)
  {
    assert q == [q[0]] + q[1..];
  }

  ghost function Queue(cfg: Config, m: nat, q: nat): seq<Rec> {
    seq(q, (j: nat) => Raw(cfg, m + 1 + j))
  }

  /** The pipeline fills up while the reader stays away. */
  lemma {:induction false} Fill(cfg: Config, m: nat, q: nat)
    requires cfg.n >= 1 && Reach(cfg, Rest(cfg, m)) && q <= cfg.n && AllElems(cfg, m + q)
    ensures Reach(cfg, Rest(cfg, m).(produced := m + q, sem := q, chGen := Queue(cfg, m, q)))
  {
    if q == 0 {
      assert Rest(cfg, m).(produced := m + 0, sem := 0, chGen := Queue(cfg, m, 0)) == Rest(cfg, m);
    } else {
      Fill(cfg, m, q - 1);
      CallElem(cfg, Rest(cfg, m).(produced := m + q - 1, sem := q - 1, chGen := Queue(cfg, m, q - 1)));
      assert Queue(cfg, m, q - 1) + [Raw(cfg, m + q)] == Queue(cfg, m, q);
    }
  }

  /** A full pipeline whose reader has picked its first result. */
  lemma FillAndPick(cfg: Config, m: nat)
    requires cfg.n >= 2 && AllElems(cfg, m + cfg.n) && ProcNeverNil(cfg)
    ensures Reach(cfg, Picked(cfg, m, Queue(cfg, m + 1, cfg.n - 1)))
    ensures Queue(cfg, m + 1, cfg.n - 1) + [Raw(cfg, m + cfg.n + 1)] == Queue(cfg, m + 1, cfg.n)
  {
    ReachRest(cfg, m);
    Fill(cfg, m, cfg.n);
    var queued := Queue(cfg, m + 1, cfg.n - 1);
    assert Queue(cfg, m, cfg.n) == [Raw(cfg, m + 1)] + queued;
    OfferNext(cfg, m, queued);
    PickOffer(cfg, m, queued);
  }

  /** Then the error, and a reader that is given nil too early. */
  lemma FooledByError(cfg: Config, m: nat)
    requires cfg.n >= 2 && FailsAt(cfg, m + cfg.n) && ProcNeverNil(cfg)
    ensures Reach(cfg, Fooled(cfg, m, Queue(cfg, m + 1, cfg.n), Exited, false))
  {
    FillAndPick(cfg, m);
    FoolReader(cfg, m, Queue(cfg, m + 1, cfg.n - 1));
  }

  /** Or the closer instead. */
  lemma FooledByCloser(cfg: Config) returns (gen: GenPc)
    requires cfg.n >= 2 && AllElems(cfg, cfg.n) && ProcNeverNil(cfg)
    ensures Reach(cfg, Fooled(cfg, 0, Queue(cfg, 1, cfg.n), gen, true))
  {
    FillAndPick(cfg, 0);
    gen := CloseDuringCall(cfg, Picked(cfg, 0, Queue(cfg, 1, cfg.n - 1)));
    ComeBack(cfg, 0, Queue(cfg, 1, cfg.n), gen, true);
  }

  /** The record that was picked too early arrives and lands in the last slot ... */
  lemma Misplace(cfg: Config, m: nat, gen: GenPc, closed: bool)
    requires cfg.n >= 2 && AllElems(cfg, m + cfg.n) && ProcNeverNil(cfg)
    requires Reach(cfg, Fooled(cfg, m, Queue(cfg, m + 1, cfg.n), gen, closed))
    ensures Reach(cfg, Fooled(cfg, m, Queue(cfg, m + 1, cfg.n), gen, closed).(
                         chGen := Queue(cfg, m + 2, cfg.n - 1),
                         slots := Labels(cfg.n, m + 2)[cfg.n - 1 := Done(cfg, m + 2)]))
  {
    var s := Fooled(cfg, m, Queue(cfg, m + 1, cfg.n), gen, closed);
    WorkOne(cfg, s);
    assert s.chGen[1..] == Queue(cfg, m + 2, cfg.n - 1);
    assert s.chReady + [Done(cfg, m + 2)] == [Done(cfg, m + 2)];
    var s1 := s.(chGen := Queue(cfg, m + 2, cfg.n - 1), chReady := [Done(cfg, m + 2)]);
    assert s.chGen[0] == Raw(cfg, m + 2);
    assert s1 == s.(chGen := s.chGen[1..], chReady := s.chReady + [Done(cfg, m + 2)]);
    SpotIs(s1.slots, m + 2, cfg.n - 1);
    PlaceOne(cfg, s1, cfg.n - 1);
  }

  /** ... and the last record, whose slot that is or stands before, makes the placer panic. */
  lemma Collide(cfg: Config, m: nat, gen: GenPc, closed: bool)
    requires cfg.n >= 2 && AllElems(cfg, m + cfg.n) && ProcNeverNil(cfg)
    requires Reach(cfg, Fooled(cfg, m, Queue(cfg, m + 1, cfg.n), gen, closed))
    ensures exists s :: Reach(cfg, s) && s.closed == closed && s.crash.SpotTaken?
  {
    Misplace(cfg, m, gen, closed);
    var q := Queue(cfg, m + 2, cfg.n - 1);
    var last := Raw(cfg, m + cfg.n + 1);
    var s := Fooled(cfg, m, Queue(cfg, m + 1, cfg.n), gen, closed).(
      chGen := q, slots := Labels(cfg.n, m + 2)[cfg.n - 1 := Done(cfg, m + 2)]);
    TakeAll(cfg, s);
    assert q[cfg.n - 2] == last;
    assert last in multiset(q);
    var s1 := s.(chGen := [], busy := s.busy + multiset(q), idle := s.idle - |q|);
    ReachStep(cfg, s1, Work(SendRec(last)));
    var s2 := Apply(cfg, s1, Work(SendRec(last)));
    assert s2.chReady[0] == Done(cfg, m + cfg.n + 1);
    assert s2.slots == s.slots && s2.slots[cfg.n - 1] == Done(cfg, m + 2);
    SpotIs(s2.slots, m + cfg.n + 1, cfg.n - 1);
    ReachStep(cfg, s2, Order(Place));
    assert Out(cfg, m + 1).Elem?;
    assert Apply(cfg, s2, Order(Place)).crash.SpotTaken?;
  }

  /** OCCUPIED SLOT.  With a mapper that never returns nil, the placer can find a slot taken exactly when
      there is more than one slot and the iterator yields at least as many elements as there are slots:
      closing at the wrong moment is enough. */
  lemma PlacerPanicsIff(cfg: Config)
    requires cfg.n >= 1 && ProcNeverNil(cfg)
    ensures (exists s :: Reach(cfg, s) && s.crash.SpotTaken?) <==> 2 <= cfg.n && AllElems(cfg, cfg.n)
  {
    if Short(cfg) {
      forall s | Reach(cfg, s) ensures !s.crash.SpotTaken? {
        NeverPanics(cfg, s);
      }
    } else {
      var gen := FooledByCloser(cfg);
      Collide(cfg, 0, gen, true);
    }
  }

  /** Without the closer it can exactly when the iterator moreover fails after k elements with
      2 <= n <= k. */
  lemma PlacerPanicsUnclosedIff(cfg: Config)
    requires cfg.n >= 1 && ProcNeverNil(cfg)
    ensures (exists s :: Reach(cfg, s) && !s.closed && s.crash.SpotTaken?)
       <==> (exists k: nat :: FailsAt(cfg, k) && 2 <= cfg.n <= k)
  {
    if Safe(cfg) {
      forall s | Reach(cfg, s) && !s.closed ensures !s.crash.SpotTaken? {
        NeverPanics(cfg, s);
      }
    } else {
      var k: nat :| FailsAt(cfg, k) && 2 <= cfg.n <= k;
      FooledByError(cfg, k - cfg.n);
      Collide(cfg, k - cfg.n, Exited, false);
    }
  }

  /** The safe halves need no condition on the mapper. */
  lemma NeverPanics(cfg: Config, s: State)
    requires Reach(cfg, s) && (Short(cfg) || (Safe(cfg) && !s.closed))
    ensures !s.crash.SpotTaken? && (!s.closed ==> s.crash.NoCrash?)
  {
    var steps :| Run(cfg, steps) && steps[|steps| - 1] == s;
    RunSafe(cfg, steps);
    ReachLoose(cfg, s);
  }
}
