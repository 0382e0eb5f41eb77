/** What every step of the pipeline keeps, until the reader picks a result that was not there yet. */
module PipelineInvariant {
  import opened PipelineModel

  ghost function Held(s: State): int {
    if s.gen.Got? || s.gen.Call? then 1 else 0
  }

  /** Channel capacities, the worker count, and the order in which the pipeline shuts down. */
  ghost predicate Shape(cfg: Config, s: State) {
    && cfg.n >= 1 && |s.slots| == cfg.n
    && |s.chGen| <= cfg.n && |s.chReady| <= cfg.n
    && (s.gone > 0 ==> s.gen.Exited? && s.chGen == [])
    && (s.readyClosed ==> s.gone == cfg.n)
    && (s.placerDone ==> s.readyClosed && s.chReady == [])
    && (s.finished ==> s.placerDone && s.gen.Exited? && s.evReady && s.evDone)
    && (s.released ==> s.closed) && (s.closed ==> s.evDone)
  }

  ghost predicate Workforce(cfg: Config, s: State) {
    s.idle + |s.busy| + s.gone == cfg.n
  }

  /** The semaphore counts the records that were called for and not yet consumed. */
  ghost predicate Tokens(cfg: Config, s: State) {
    && s.sem <= cfg.n
    && s.sem >= s.produced + Held(s) - Taken(s) - (if s.released then 1 else 0)
    && (!s.gen.Exited? && !s.released ==> s.sem == s.produced + Held(s) - Taken(s))
    && s.produced <= Taken(s) + cfg.n
    && (s.gen.Call? ==> s.produced < Taken(s) + cfg.n)
  }

  ghost predicate AllElems(cfg: Config, m: int) {
    forall j: nat :: j < m ==> cfg.src(j).Elem?
  }

  /** What `consume` knows about the results it got from the iterator. */
  ghost predicate Source(cfg: Config, s: State) {
    && AllElems(cfg, s.produced - 1)
    && (!s.gen.Mark? && !s.gen.Exited? ==> AllElems(cfg, s.produced))
    && (s.gen.Mark? ==> s.produced > 0 && cfg.src(s.produced - 1).Fail?)
    && (!s.closed && s.gen.Exited? ==> s.produced > 0 && !cfg.src(s.produced - 1).Elem?)
    && (!s.closed && s.evDone ==> s.gen.Exited?)
    && (!s.closed && s.evDone && !s.finished ==> cfg.src(s.produced - 1).Fail?)
  }

  ghost predicate Global(cfg: Config, s: State) {
    Shape(cfg, s) && Workforce(cfg, s) && Tokens(cfg, s) && Source(cfg, s)
  }

  /** In how many channels and workers the record with index x is. */
  ghost function Carriers(cfg: Config, chGen: seq<Rec>, busy: multiset<Rec>, chReady: seq<Rec>, x: nat): nat
    requires x > 0
  {
    multiset(chGen)[Raw(cfg, x)] + busy[Raw(cfg, x)] + multiset(chReady)[Done(cfg, x)]
  }

  ghost function Flight(cfg: Config, s: State, x: nat): nat
    requires x > 0
  {
    Carriers(cfg, s.chGen, s.busy, s.chReady, x)
  }

  ghost predicate RawIn(cfg: Config, lo: nat, hi: nat, r: Rec) {
    lo < r.i <= hi && r == Raw(cfg, r.i)
  }

  ghost predicate DoneIn(cfg: Config, lo: nat, hi: nat, r: Rec) {
    lo < r.i <= hi && r == Done(cfg, r.i)
  }

  /** Records in channels and workers have indices in (lo, produced], carry what their index says,
      and are in one place only. */
  ghost predicate Flights(cfg: Config, s: State, lo: nat) {
    && (forall r :: r in s.chGen ==> RawIn(cfg, lo, s.produced, r))
    && (forall r :: r in s.busy ==> RawIn(cfg, lo, s.produced, r))
    && (forall r :: r in s.chReady ==> DoneIn(cfg, lo, s.produced, r))
    && (forall x: nat :: x > 0 ==> Flight(cfg, s, x) <= 1)
  }

  /** What slot contents the index x calls for: its result, once the record has arrived. */
  ghost function SlotVal(cfg: Config, s: State, x: nat): Val
    requires x > 0
  {
    if x <= s.produced && Flight(cfg, s, x) == 0 then Out(cfg, x - 1) else Nil
  }

  /** Slot j belongs to index c + 1 + j; a single slot carries no reliable label. */
  ghost predicate Slots(cfg: Config, s: State, c: nat) {
    && |s.slots| == cfg.n
    && (forall j: nat :: j < cfg.n ==> s.slots[j].v == SlotVal(cfg, s, c + 1 + j))
    && (cfg.n > 1 ==> forall j: nat :: j < cfg.n ==> s.slots[j].i == c + 1 + j)
  }

  /** The first m results are the mapped elements, in order. */
  ghost predicate InOrder(cfg: Config, outs: seq<Val>, m: nat) {
    m <= |outs| && forall j: nat :: j < m ==> outs[j] == Out(cfg, j) && outs[j].Elem?
  }

  ghost predicate Delivered(cfg: Config, reader: Reader, outs: seq<Val>) {
    match reader
    case Waiting => InOrder(cfg, outs, |outs|)
    case Locked(r) => InOrder(cfg, outs, |outs|) && r == Out(cfg, |outs|)
    case Stopped =>
      && |outs| > 0 && InOrder(cfg, outs, |outs| - 1)
      && outs[|outs| - 1] == Out(cfg, |outs| - 1) && !outs[|outs| - 1].Elem?
  }

  /** The record the reader needs next has been placed. */
  ghost predicate NextPlaced(cfg: Config, s: State) {
    Taken(s) < s.produced && Flight(cfg, s, Taken(s) + 1) == 0
  }

  /** The meaning of `evReady`. */
  ghost predicate Signals(cfg: Config, s: State) {
    && (s.reader.Locked? ==> s.evReady)
    && (s.reader.Waiting? && s.evReady && !s.evDone ==> NextPlaced(cfg, s))
    && (s.reader.Waiting? && s.evReady && !s.finished && Taken(s) == 0 ==> NextPlaced(cfg, s))
    && (|s.slots| > 0 && !s.reader.Locked? && !s.slots[0].v.Nil? ==> s.evReady)
  }

  /** Nothing was picked before it was there. */
  ghost predicate Clean(cfg: Config, s: State) {
    && Taken(s) <= s.produced
    && Flights(cfg, s, Taken(s))
    && Slots(cfg, s, Taken(s))
    && Delivered(cfg, s.reader, s.outs)
    && Signals(cfg, s)
  }

  /** The reader has picked a nil that was not its next result, and is about to stop or has. */
  ghost predicate Spoiled(cfg: Config, s: State) {
    match s.reader
    case Waiting => false
    case Locked(r) => r.Nil? && InOrder(cfg, s.outs, |s.outs|)
    case Stopped => |s.outs| > 0 && InOrder(cfg, s.outs, |s.outs| - 1) && s.outs[|s.outs| - 1].Nil?
  }

  lemma GlobalInit(cfg: Config)
    requires cfg.n >= 1
    ensures Global(cfg, Init(cfg)) && Clean(cfg, Init(cfg))
  {
  }

  lemma GlobalGen(cfg: Config, s: State, g: GenAct)
    requires Global(cfg, s) && GenEnabled(cfg, s, g)
    ensures Global(cfg, GenApply(cfg, s, g))
  {
  }

  lemma RemoveOne(b: multiset<Rec>, r: Rec)
    requires r in b
    ensures |b - multiset{r}| == |b| - 1
  {
  }

  lemma GlobalWork(cfg: Config, s: State, w: WorkAct)
    requires Global(cfg, s) && WorkEnabled(cfg, s, w)
    ensures Global(cfg, WorkApply(cfg, s, w))
  {
    match w
    case TakeRec => assert |WorkApply(cfg, s, w).busy| == |s.busy| + 1;
    case SendRec(r) => RemoveOne(s.busy, r);
    case ExitWorker =>
    case CloseReady =>
  }

  lemma GlobalPlace(cfg: Config, s: State)
    requires Global(cfg, s) && OrderEnabled(cfg, s, Place)
    ensures Global(cfg, Placed(s))
  {
    assert Source(cfg, Placed(s));
    assert Workforce(cfg, Placed(s));
    assert Tokens(cfg, Placed(s));
  }

  lemma GlobalOrder(cfg: Config, s: State, o: OrderAct)
    requires Global(cfg, s) && OrderEnabled(cfg, s, o)
    ensures Global(cfg, OrderApply(cfg, s, o))
  {
    match o
    case Place => GlobalPlace(cfg, s);
    case ExitPlacer =>
    case Finish =>
  }

  lemma GlobalPick(cfg: Config, s: State)
    requires Global(cfg, s) && ReadEnabled(s, Pick) && s.sem > 0
    ensures Global(cfg, ReadApply(s, Pick))
  {
    var t := ReadApply(s, Pick);
    assert Taken(t) == Taken(s) + 1;
    assert Source(cfg, t);
    assert Workforce(cfg, t);
    assert Tokens(cfg, t);
  }

  lemma GlobalReturn(cfg: Config, s: State)
    requires Global(cfg, s) && ReadEnabled(s, Return)
    ensures Global(cfg, ReadApply(s, Return))
  {
    var t := ReadApply(s, Return);
    assert Taken(t) == Taken(s);
    assert Source(cfg, t);
    assert Workforce(cfg, t);
    assert Tokens(cfg, t);
  }

  lemma GlobalClose(cfg: Config, s: State, c: CloseAct)
    requires Global(cfg, s) && CloseEnabled(s, c)
    ensures Global(cfg, CloseApply(s, c))
  {
  }

  /** Every step keeps the bookkeeping that does not depend on what the reader picked. */
  lemma GlobalStep(cfg: Config, s: State, a: Action)
    requires Global(cfg, s) && Enabled(cfg, s, a)
    ensures Apply(cfg, s, a).crash.NoCrash? ==> Global(cfg, Apply(cfg, s, a))
  {
    match a
    case Gen(g) => GlobalGen(cfg, s, g);
    case Work(w) => GlobalWork(cfg, s, w);
    case Order(o) => GlobalOrder(cfg, s, o);
    case Read(q) =>
      if q.Return? { GlobalReturn(cfg, s); } else if s.sem > 0 { GlobalPick(cfg, s); }
    case Close(c) => GlobalClose(cfg, s, c);
  }

  /** Moving a record between a channel and a worker changes no count. */
  lemma CountTake(cfg: Config, chGen: seq<Rec>, busy: multiset<Rec>, chReady: seq<Rec>, x: nat)
    requires x > 0 && chGen != []
    ensures Carriers(cfg, chGen[1..], busy + multiset{chGen[0]}, chReady, x) == Carriers(cfg, chGen, busy, chReady, x)
  {
    assert chGen == [chGen[0]] + chGen[1..];
  }

  lemma CountSend(cfg: Config, chGen: seq<Rec>, busy: multiset<Rec>, chReady: seq<Rec>, y: nat, x: nat)
    requires x > 0 && y > 0 && Raw(cfg, y) in busy
    ensures Carriers(cfg, chGen, busy - multiset{Raw(cfg, y)}, chReady + [Done(cfg, y)], x) == Carriers(cfg, chGen, busy, chReady, x)
  {
  }

  lemma CountProduce(cfg: Config, chGen: seq<Rec>, busy: multiset<Rec>, chReady: seq<Rec>, y: nat, x: nat)
    requires x > 0 && y > 0
    ensures Carriers(cfg, chGen + [Raw(cfg, y)], busy, chReady, x)
         == Carriers(cfg, chGen, busy, chReady, x) + if x == y then 1 else 0
  {
  }

  lemma CountPlace(cfg: Config, chGen: seq<Rec>, busy: multiset<Rec>, chReady: seq<Rec>, y: nat, x: nat)
    requires x > 0 && y > 0 && chReady != [] && chReady[0] == Done(cfg, y)
    ensures Carriers(cfg, chGen, busy, chReady[1..], x) == Carriers(cfg, chGen, busy, chReady, x) - if x == y then 1 else 0
  {
    assert chReady == [chReady[0]] + chReady[1..];
  }

  lemma FlightOutside(cfg: Config, s: State, x: nat, lo: nat)
    requires Flights(cfg, s, lo) && x > 0
    requires x <= lo || x > s.produced
    ensures Flight(cfg, s, x) == 0
  {
    assert !RawIn(cfg, lo, s.produced, Raw(cfg, x)) && !DoneIn(cfg, lo, s.produced, Done(cfg, x));
    assert Raw(cfg, x) !in s.chGen && Done(cfg, x) !in s.chReady;
  }

  lemma FlightsTake(cfg: Config, s: State, lo: nat)
    requires Flights(cfg, s, lo) && WorkEnabled(cfg, s, TakeRec)
    ensures var t := WorkApply(cfg, s, TakeRec);
      Flights(cfg, t, lo) && forall x: nat :: x > 0 ==> Flight(cfg, t, x) == Flight(cfg, s, x)
  {
    var t := WorkApply(cfg, s, TakeRec);
    forall x: nat | x > 0 ensures Flight(cfg, t, x) == Flight(cfg, s, x) {
      CountTake(cfg, s.chGen, s.busy, s.chReady, x);
    }
    assert s.chGen[0] in s.chGen;
    assert forall r :: r in t.chGen ==> r in s.chGen;
  }

  lemma FlightsSend(cfg: Config, s: State, r: Rec, lo: nat)
    requires Flights(cfg, s, lo) && WorkEnabled(cfg, s, SendRec(r))
    ensures var t := WorkApply(cfg, s, SendRec(r));
      Flights(cfg, t, lo) && forall x: nat :: x > 0 ==> Flight(cfg, t, x) == Flight(cfg, s, x)
  {
    var t := WorkApply(cfg, s, SendRec(r));
    assert RawIn(cfg, lo, s.produced, r);
    assert t.chReady == s.chReady + [Done(cfg, r.i)];
    forall x: nat | x > 0 ensures Flight(cfg, t, x) == Flight(cfg, s, x) {
      CountSend(cfg, s.chGen, s.busy, s.chReady, r.i, x);
    }
    assert forall q :: q in t.busy ==> q in s.busy;
  }

  lemma FlightsProduce(cfg: Config, s: State, lo: nat)
    requires Flights(cfg, s, lo) && GenEnabled(cfg, s, Produce) && lo <= s.produced
    ensures var t := GenApply(cfg, s, Produce);
      && Flights(cfg, t, lo)
      && forall x: nat :: x > 0 ==> Flight(cfg, t, x) == Flight(cfg, s, x) + if x == t.produced then 1 else 0
  {
    var t := GenApply(cfg, s, Produce);
    forall x: nat | x > 0
      ensures Flight(cfg, t, x) == Flight(cfg, s, x) + if x == t.produced then 1 else 0
    {
      CountProduce(cfg, s.chGen, s.busy, s.chReady, t.produced, x);
    }
    FlightOutside(cfg, s, t.produced, lo);
    assert forall r :: RawIn(cfg, lo, s.produced, r) ==> RawIn(cfg, lo, t.produced, r);
    assert forall r :: DoneIn(cfg, lo, s.produced, r) ==> DoneIn(cfg, lo, t.produced, r);
    assert RawIn(cfg, lo, t.produced, Raw(cfg, t.produced));
  }

  /** The state after the placer took its next record out of the channel and put it anywhere. */
  ghost predicate Popped(s: State, t: State) {
    s.chReady != [] && t.chReady == s.chReady[1..] && t.chGen == s.chGen && t.busy == s.busy && t.produced == s.produced
  }

  lemma FlightsPop(cfg: Config, s: State, t: State, lo: nat)
    requires Flights(cfg, s, lo) && Popped(s, t)
    ensures var x0 := s.chReady[0].i;
      && DoneIn(cfg, lo, s.produced, s.chReady[0]) && Flights(cfg, t, lo)
      && Flight(cfg, s, x0) == 1
      && forall x: nat :: x > 0 ==> Flight(cfg, t, x) == Flight(cfg, s, x) - if x == x0 then 1 else 0
  {
    var rec := s.chReady[0];
    assert rec in s.chReady;
    assert DoneIn(cfg, lo, s.produced, rec);
    forall x: nat | x > 0
      ensures Flight(cfg, t, x) == Flight(cfg, s, x) - if x == rec.i then 1 else 0
    {
      CountPlace(cfg, s.chGen, s.busy, s.chReady, rec.i, x);
    }
    assert multiset(s.chReady)[rec] > 0;
    assert Flight(cfg, s, rec.i) == 1;
    assert forall r :: r in t.chReady ==> r in s.chReady;
  }

  /** Slots are due the same as long as the same indices are in flight. */
  lemma SameFlights(cfg: Config, s: State, t: State)
    requires t.produced == s.produced && Taken(t) == Taken(s)
    requires forall x: nat :: x > 0 ==> Flight(cfg, t, x) == Flight(cfg, s, x)
    ensures forall x: nat :: x > 0 ==> SlotVal(cfg, t, x) == SlotVal(cfg, s, x)
    ensures NextPlaced(cfg, s) <==> NextPlaced(cfg, t)
  {
  }

  /** Records moved, but every index that had arrived still has, and no slot is due anything else. */
  lemma CleanMoved(cfg: Config, s: State, t: State)
    requires Clean(cfg, s) && Flights(cfg, t, Taken(s))
    requires forall x: nat :: x > 0 ==> SlotVal(cfg, t, x) == SlotVal(cfg, s, x)
    requires NextPlaced(cfg, s) ==> NextPlaced(cfg, t)
    requires t.produced >= s.produced && t.slots == s.slots && t.reader == s.reader && t.outs == s.outs
    requires t.evReady == s.evReady && t.evDone == s.evDone && t.finished == s.finished
    ensures Clean(cfg, t)
  {
  }

  lemma CleanWorkerTake(cfg: Config, s: State)
    requires Clean(cfg, s) && WorkEnabled(cfg, s, TakeRec)
    ensures Clean(cfg, WorkApply(cfg, s, TakeRec))
  {
    var t := WorkApply(cfg, s, TakeRec);
    FlightsTake(cfg, s, Taken(s));
    SameFlights(cfg, s, t);
    CleanMoved(cfg, s, t);
  }

  lemma CleanWorkerSend(cfg: Config, s: State, r: Rec)
    requires Clean(cfg, s) && WorkEnabled(cfg, s, SendRec(r))
    ensures Clean(cfg, WorkApply(cfg, s, SendRec(r)))
  {
    var t := WorkApply(cfg, s, SendRec(r));
    FlightsSend(cfg, s, r, Taken(s));
    SameFlights(cfg, s, t);
    CleanMoved(cfg, s, t);
  }

  lemma CleanProduce(cfg: Config, s: State)
    requires Clean(cfg, s) && GenEnabled(cfg, s, Produce)
    ensures Clean(cfg, GenApply(cfg, s, Produce))
  {
    FlightsProduce(cfg, s, Taken(s));
    CleanMoved(cfg, s, GenApply(cfg, s, Produce));
  }

  /** The placer finds the slot of its record, and it is free. */
  lemma PlacerFindsSlot(cfg: Config, s: State, c: nat)
    requires Flights(cfg, s, c) && Slots(cfg, s, c) && s.chReady != [] && cfg.n >= 1 && s.produced <= c + cfg.n
    ensures var x := s.chReady[0].i;
      && c < x <= c + cfg.n
      && Spot(s.slots, x) == x - c - 1
      && s.slots[x - c - 1].v.Nil?
  {
    FlightsPop(cfg, s, s.(chReady := s.chReady[1..]), c);
    var rec := s.chReady[0];
    var j := rec.i - c - 1;
    assert s.slots[j].v == SlotVal(cfg, s, c + 1 + j);
    SpotIs(s.slots, rec.i, j);
  }

  lemma SlotsPlace(cfg: Config, s: State, t: State, c: nat)
    requires Flights(cfg, s, c) && Slots(cfg, s, c) && Popped(s, t)
    requires c < s.chReady[0].i <= c + cfg.n && t.slots == s.slots[s.chReady[0].i - c - 1 := s.chReady[0]]
    ensures Slots(cfg, t, c)
  {
    FlightsPop(cfg, s, t, c);
    forall j: nat | j < cfg.n ensures t.slots[j].v == SlotVal(cfg, t, c + 1 + j) {
      assert s.slots[j].v == SlotVal(cfg, s, c + 1 + j);
    }
  }

  lemma CleanPlace(cfg: Config, s: State)
    requires Clean(cfg, s) && OrderEnabled(cfg, s, Place) && cfg.n >= 1 && s.produced <= Taken(s) + cfg.n
    ensures Placed(s).crash == s.crash && Clean(cfg, Placed(s))
  {
    PlacerFindsSlot(cfg, s, Taken(s));
    PlacedInto(s, s.chReady[0].i - Taken(s) - 1);
    CleanPlaced(cfg, s, Placed(s), Taken(s));
  }

  lemma PlacedInto(s: State, spot: nat)
    requires s.chReady != [] && spot < |s.slots| && Spot(s.slots, s.chReady[0].i) == spot && !s.slots[spot].v.Elem?
    ensures Placed(s) == s.(chReady := s.chReady[1..], slots := s.slots[spot := s.chReady[0]],
                            evReady := s.evReady || spot == 0)
  {
  }

  lemma CleanPlaced(cfg: Config, s: State, t: State, c: nat)
    requires Clean(cfg, s) && Popped(s, t) && c == Taken(s) && c < s.chReady[0].i <= c + cfg.n
    requires t.slots == s.slots[s.chReady[0].i - c - 1 := s.chReady[0]]
    requires t.reader == s.reader && t.outs == s.outs && t.evDone == s.evDone && t.finished == s.finished
    requires t.evReady == (s.evReady || s.chReady[0].i == c + 1)
    ensures Clean(cfg, t)
  {
    FlightsPop(cfg, s, t, c);
    SlotsPlace(cfg, s, t, c);
    assert NextPlaced(cfg, t) <==> NextPlaced(cfg, s) || s.chReady[0].i == c + 1;
    assert s.chReady[0].i != c + 1 ==> t.slots[0] == s.slots[0];
  }

  /** After a pick the remaining slots belong to the next indices. */
  lemma SlotsShift(cfg: Config, s: State, t: State, c: nat)
    requires Slots(cfg, s, c) && cfg.n >= 1 && s.produced <= c + cfg.n
    requires t == s.(slots := Shifted(s.slots), sem := t.sem, reader := t.reader)
    ensures Slots(cfg, t, c + 1)
  {
    assert forall x: nat :: x > 0 ==> SlotVal(cfg, t, x) == SlotVal(cfg, s, x);
    forall j: nat | j < cfg.n
      ensures t.slots[j].v == SlotVal(cfg, t, c + 2 + j)
      ensures cfg.n > 1 ==> t.slots[j].i == c + 2 + j
    {
      if j < cfg.n - 1 {
        assert t.slots[j] == s.slots[j + 1];
        assert s.slots[j + 1].v == SlotVal(cfg, s, c + 1 + (j + 1));
      } else {
        assert SlotVal(cfg, s, c + 2 + j).Nil?;
      }
    }
  }

  lemma CleanTake(cfg: Config, s: State)
    requires Clean(cfg, s) && ReadEnabled(s, Pick) && s.sem > 0 && s.produced <= Taken(s) + cfg.n
    requires NextPlaced(cfg, s)
    ensures Clean(cfg, ReadApply(s, Pick))
  {
    var t := ReadApply(s, Pick);
    var c := Taken(s);
    SlotsShift(cfg, s, t, c);
    assert s.slots[0].v == SlotVal(cfg, s, c + 1 + 0);
    assert forall x: nat :: x > 0 ==> Flight(cfg, t, x) == Flight(cfg, s, x);
    FlightsAbove(cfg, s, c);
  }

  /** When nothing with index c + 1 is in flight, everything in flight is above it. */
  lemma FlightsAbove(cfg: Config, s: State, c: nat)
    requires Flights(cfg, s, c) && Flight(cfg, s, c + 1) == 0
    ensures Flights(cfg, s, c + 1)
  {
    forall r | r in s.chGen ensures RawIn(cfg, c + 1, s.produced, r) {
      assert RawIn(cfg, c, s.produced, r);
      assert multiset(s.chGen)[r] > 0;
    }
    forall r | r in s.busy ensures RawIn(cfg, c + 1, s.produced, r) {
      assert RawIn(cfg, c, s.produced, r);
    }
    forall r | r in s.chReady ensures DoneIn(cfg, c + 1, s.produced, r) {
      assert DoneIn(cfg, c, s.produced, r);
      assert multiset(s.chReady)[r] > 0;
    }
  }

  lemma EarlyTake(cfg: Config, s: State)
    requires Clean(cfg, s) && ReadEnabled(s, Pick) && s.sem > 0
    requires !NextPlaced(cfg, s)
    ensures Spoiled(cfg, ReadApply(s, Pick))
  {
    assert s.slots[0].v == SlotVal(cfg, s, Taken(s) + 1 + 0);
  }

  lemma DeliveredReturn(cfg: Config, r: Val, outs: seq<Val>)
    requires Delivered(cfg, Locked(r), outs)
    ensures Delivered(cfg, if r.Elem? then Waiting else Stopped, outs + [r])
  {
  }

  lemma FlightsReturn(cfg: Config, s: State)
    requires Clean(cfg, s) && ReadEnabled(s, Return)
    ensures var t := ReadApply(s, Return);
      && Taken(t) == Taken(s) && t.produced == s.produced && t.slots == s.slots && Flights(cfg, t, Taken(s))
      && (forall x: nat :: x > 0 ==> SlotVal(cfg, t, x) == SlotVal(cfg, s, x))
      && (NextPlaced(cfg, s) <==> NextPlaced(cfg, t))
  {
    var t := ReadApply(s, Return);
    assert forall x: nat :: x > 0 ==> Flight(cfg, t, x) == Flight(cfg, s, x);
    SameFlights(cfg, s, t);
  }

  lemma CleanReturn(cfg: Config, s: State)
    requires Clean(cfg, s) && ReadEnabled(s, Return)
    ensures Clean(cfg, ReadApply(s, Return))
  {
    FlightsReturn(cfg, s);
    DeliveredReturn(cfg, s.reader.r, s.outs);
    assert s.slots[0].v == SlotVal(cfg, s, Taken(s) + 1 + 0);
  }

  lemma CleanGen(cfg: Config, s: State, g: GenAct)
    requires Clean(cfg, s) && GenEnabled(cfg, s, g)
    ensures Clean(cfg, GenApply(cfg, s, g))
  {
    if g.Produce? { CleanProduce(cfg, s); } else { CleanFrame(cfg, s, GenApply(cfg, s, g)); }
  }

  lemma CleanWork(cfg: Config, s: State, w: WorkAct)
    requires Clean(cfg, s) && WorkEnabled(cfg, s, w)
    ensures Clean(cfg, WorkApply(cfg, s, w))
  {
    match w
    case TakeRec => CleanWorkerTake(cfg, s);
    case SendRec(r) => CleanWorkerSend(cfg, s, r);
    case ExitWorker => CleanFrame(cfg, s, WorkApply(cfg, s, w));
    case CloseReady => CleanFrame(cfg, s, WorkApply(cfg, s, w));
  }

  lemma CleanOrder(cfg: Config, s: State, o: OrderAct)
    requires Global(cfg, s) && Clean(cfg, s) && OrderEnabled(cfg, s, o)
    ensures OrderApply(cfg, s, o).crash == s.crash && Clean(cfg, OrderApply(cfg, s, o))
  {
    match o
    case Place => CleanPlace(cfg, s);
    case ExitPlacer => CleanFrame(cfg, s, OrderApply(cfg, s, o));
    case Finish => CleanFrame(cfg, s, OrderApply(cfg, s, o));
  }

  lemma CleanFrame(cfg: Config, s: State, t: State)
    requires Clean(cfg, s)
    requires t.produced == s.produced && t.chGen == s.chGen && t.busy == s.busy && t.chReady == s.chReady
    requires t.slots == s.slots && t.reader == s.reader && t.outs == s.outs
    requires s.evReady ==> t.evReady
    requires s.evDone ==> t.evDone
    requires !t.finished ==> !s.finished && t.evReady == s.evReady
    requires !t.evDone ==> t.evReady == s.evReady
    ensures Clean(cfg, t)
  {
    assert forall x: nat :: x > 0 ==> Flight(cfg, t, x) == Flight(cfg, s, x);
    SameFlights(cfg, s, t);
  }

  lemma CleanRead(cfg: Config, s: State, q: ReadAct)
    requires Global(cfg, s) && Clean(cfg, s) && ReadEnabled(s, q) && s.crash.NoCrash?
    ensures var t := ReadApply(s, q);
      || (t.crash.NoCrash? && Clean(cfg, t))
      || (q.Pick? && s.sem > 0 && !NextPlaced(cfg, s) && t.crash.NoCrash? && Spoiled(cfg, t))
      || (q.Pick? && s.sem <= 0 && t.crash.OverRelease?)
  {
    if q.Return? {
      CleanReturn(cfg, s);
    } else if s.sem > 0 {
      if NextPlaced(cfg, s) { CleanTake(cfg, s); } else { EarlyTake(cfg, s); }
    }
  }

  /** From a clean state a step leads to a clean state, unless it is a pick that comes too early. */
  lemma CleanStep(cfg: Config, s: State, a: Action)
    requires Global(cfg, s) && Clean(cfg, s) && Enabled(cfg, s, a)
    ensures var t := Apply(cfg, s, a);
      || (t.crash.NoCrash? && Clean(cfg, t))
      || (a == Read(Pick) && s.sem > 0 && !NextPlaced(cfg, s) && t.crash.NoCrash? && Spoiled(cfg, t))
      || (a == Read(Pick) && s.sem <= 0 && t.crash.OverRelease?)
  {
    match a
    case Gen(g) => CleanGen(cfg, s, g);
    case Work(w) => CleanWork(cfg, s, w);
    case Order(o) => CleanOrder(cfg, s, o);
    case Read(q) => CleanRead(cfg, s, q);
    case Close(c) => CleanFrame(cfg, s, CloseApply(s, c));
  }
}
