/** The ordered parallel pipeline of utils/pipeliner.go as a step system.

    Every goroutine is cut at its synchronisation points: channel operations, the semaphore, the
    `mArr` critical sections and the two manual-reset events.  An `Action` is one such step; a run
    may take any enabled action at any time, so the runs are all interleavings. */
module PipelineModel {
  import opened Options

  /** What a record carries: nothing (a nil element without an error), an element, or an error.
      Integers stand for opaque elements and errors. */
  datatype Val = Nil | Elem(e: int) | Fail(err: int)

  /** A pipelinerRecord: its index (counted from 1) and what it carries. */
  datatype Rec = Rec(i: nat, v: Val)

  /** What the caller passes in.  `src(j)` is what the j-th call of the iterator returns, `proc` the
      mapper, which may itself return nil. */
  datatype Config = Config(n: int, src: nat -> Val, proc: int -> Option<int>)

  /** Where the goroutine running `consume` stands. */
  datatype GenPc = Top | Acq | Got | Call | Mark | Exited

  /** The single user of the returned generator: outside it, inside with `mArr` held and the result
      already picked, or done because it received nil or an error. */
  datatype Reader = Waiting | Locked(r: Val) | Stopped

  datatype Crash = NoCrash | SpotTaken | OverRelease

  /** The shared state.  The workers are interchangeable, so they are counted: `busy` holds the
      records being processed, `idle` and `gone` count the others.  A closed `chGen` is `gen.Exited?`. */
  datatype State = State(
    gen: GenPc, produced: nat, sem: int,
    chGen: seq<Rec>, busy: multiset<Rec>, idle: nat, gone: nat,
    chReady: seq<Rec>, readyClosed: bool, placerDone: bool,
    slots: seq<Rec>, evReady: bool, evDone: bool, finished: bool,
    reader: Reader, outs: seq<Val>,
    closed: bool, released: bool, crash: Crash)

  datatype GenAct = CheckTop | Acquire | CheckAgain | Produce | MarkDone
  datatype WorkAct = TakeRec | SendRec(r: Rec) | ExitWorker | CloseReady
  datatype OrderAct = Place | ExitPlacer | Finish
  datatype ReadAct = Pick | Return
  datatype CloseAct = SetDone | ReleaseOne

  /** One step of `consume`, of a worker, of the placer or the final goroutine, of the reader, or of
      the closer. */
  datatype Action = Gen(g: GenAct) | Work(w: WorkAct) | Order(o: OrderAct) | Read(q: ReadAct) | Close(c: CloseAct)

  /** What the mapper makes of a value: only elements are mapped. */
  ghost function Mapped(cfg: Config, v: Val): Val {
    match v
    case Elem(e) => (match cfg.proc(e) case Some(x) => Elem(x) case None => Nil)
    case _ => v
  }

  /** What the reader is due as its (j+1)-th result. */
  ghost function Out(cfg: Config, j: nat): Val {
    Mapped(cfg, cfg.src(j))
  }

  ghost function Raw(cfg: Config, x: nat): Rec
    requires x > 0
  {
    Rec(x, cfg.src(x - 1))
  }

  ghost function Done(cfg: Config, x: nat): Rec
    requires x > 0
  {
    Rec(x, Out(cfg, x - 1))
  }

  /** How many results the reader has picked so far. */
  ghost function Taken(s: State): nat {
    |s.outs| + if s.reader.Locked? then 1 else 0
  }

  /** The reorder array after its first slot was consumed (utils/pipeliner.go:138-149). */
  function Shifted(slots: seq<Rec>): seq<Rec>
    requires |slots| > 0
  {
    if |slots| > 1 then slots[1..] + [Rec(slots[|slots| - 1].i + 1, Nil)]
    else [Rec(0, Nil)]
  }

  /** The slot the placer picks for index x: the first one whose right neighbour is labelled x + 1,
      the last one if there is none (utils/pipeliner.go:222-254). */
  function SpotFrom(slots: seq<Rec>, x: nat, i: nat): (spot: nat)
    requires i < |slots|
    ensures i <= spot < |slots|
    ensures spot < |slots| - 1 ==> slots[spot + 1].i == x + 1
    ensures forall j :: i < j <= spot ==> slots[j].i != x + 1
    decreases |slots| - i
  {
    if i == |slots| - 1 || slots[i + 1].i == x + 1 then i else SpotFrom(slots, x, i + 1)
  }

  function Spot(slots: seq<Rec>, x: nat): (spot: nat)
    requires |slots| > 0
    ensures spot < |slots|
    ensures spot < |slots| - 1 ==> slots[spot + 1].i == x + 1
    ensures forall j :: 0 < j <= spot ==> slots[j].i != x + 1
  {
    SpotFrom(slots, x, 0)
  }

  ghost function Init(cfg: Config): State
    requires cfg.n >= 1
  {
    State(Top, 0, 0, [], multiset{}, cfg.n, 0, [], false, false,
          seq(cfg.n, (j: nat) => Rec(j + 1, Nil)), false, false, false, Waiting, [], false, false, NoCrash)
  }

  ghost predicate GenEnabled(cfg: Config, s: State, g: GenAct) {
    match g
    case CheckTop => s.gen.Top?
    case Acquire => s.gen.Acq? && s.sem < cfg.n
    case CheckAgain => s.gen.Got?
    case Produce => s.gen.Call? && |s.chGen| < cfg.n
    case MarkDone => s.gen.Mark?
  }

  /** utils/pipeliner.go:179-203. */
  ghost function GenApply(cfg: Config, s: State, g: GenAct): State
    requires GenEnabled(cfg, s, g)
  {
    match g
    case CheckTop => s.(gen := if s.evDone then Exited else Acq)
    case Acquire => s.(gen := Got, sem := s.sem + 1)
    case CheckAgain => s.(gen := if s.evDone then Exited else Call)
    case Produce =>
      var v := cfg.src(s.produced);
      s.(gen := if v.Fail? then Mark else if v.Nil? then Exited else Top,
         produced := s.produced + 1,
         chGen := s.chGen + [Rec(s.produced + 1, v)])
    case MarkDone => s.(gen := Exited, evDone := true)
  }

  ghost predicate WorkEnabled(cfg: Config, s: State, w: WorkAct) {
    match w
    case TakeRec => s.idle > 0 && s.chGen != []
    case SendRec(r) => r in s.busy && |s.chReady| < cfg.n
    case ExitWorker => s.idle > 0 && s.chGen == [] && s.gen.Exited?
    case CloseReady => s.gone == cfg.n && !s.readyClosed
  }

  /** utils/pipeliner.go:88-93, 206-214. */
  ghost function WorkApply(cfg: Config, s: State, w: WorkAct): State
    requires WorkEnabled(cfg, s, w)
  {
    match w
    case TakeRec => s.(idle := s.idle - 1, busy := s.busy + multiset{s.chGen[0]}, chGen := s.chGen[1..])
    case SendRec(r) =>
      s.(idle := s.idle + 1, busy := s.busy - multiset{r}, chReady := s.chReady + [Rec(r.i, Mapped(cfg, r.v))])
    case ExitWorker => s.(idle := s.idle - 1, gone := s.gone + 1)
    case CloseReady => s.(readyClosed := true)
  }

  ghost predicate OrderEnabled(cfg: Config, s: State, o: OrderAct) {
    match o
    case Place => s.chReady != [] && s.slots != [] && !s.reader.Locked?
    case ExitPlacer => s.chReady == [] && s.readyClosed && !s.placerDone
    case Finish => s.gen.Exited? && s.gone == cfg.n && s.placerDone && !s.finished && !s.reader.Locked?
  }

  /** utils/pipeliner.go:110-120, 217-257. */
  ghost function OrderApply(cfg: Config, s: State, o: OrderAct): State
    requires OrderEnabled(cfg, s, o)
  {
    match o
    case Place => Placed(s)
    case ExitPlacer => s.(placerDone := true)
    case Finish => s.(finished := true, evReady := true, evDone := true)
  }

  ghost predicate ReadEnabled(s: State, q: ReadAct) {
    match q
    case Pick => s.reader.Waiting? && s.evReady && s.slots != []
    case Return => s.reader.Locked? && s.slots != []
  }

  /** utils/pipeliner.go:124-158: up to the shift, and from the shift on. */
  ghost function ReadApply(s: State, q: ReadAct): State
    requires ReadEnabled(s, q)
  {
    match q
    case Pick =>
      if s.sem - 1 < 0 then s.(sem := s.sem - 1, crash := OverRelease)
      else s.(sem := s.sem - 1, reader := Locked(s.slots[0].v), slots := Shifted(s.slots))
    case Return =>
      s.(evReady := s.evReady && (s.evDone || !s.slots[0].v.Nil?),
         reader := if s.reader.r.Elem? then Waiting else Stopped,
         outs := s.outs + [s.reader.r])
  }

  ghost predicate CloseEnabled(s: State, c: CloseAct) {
    match c
    case SetDone => !s.closed
    case ReleaseOne => s.closed && !s.released
  }

  /** utils/pipeliner.go:159-169; a panic of this release is recovered. */
  ghost function CloseApply(s: State, c: CloseAct): State
    requires CloseEnabled(s, c)
  {
    match c
    case SetDone => s.(closed := true, evDone := true)
    case ReleaseOne => s.(released := true, sem := s.sem - 1)
  }

  ghost predicate Enabled(cfg: Config, s: State, a: Action) {
    s.crash.NoCrash? &&
    match a
    case Gen(g) => GenEnabled(cfg, s, g)
    case Work(w) => WorkEnabled(cfg, s, w)
    case Order(o) => OrderEnabled(cfg, s, o)
    case Read(q) => ReadEnabled(s, q)
    case Close(c) => CloseEnabled(s, c)
  }

  ghost function Apply(cfg: Config, s: State, a: Action): State
    requires Enabled(cfg, s, a)
  {
    match a
    case Gen(g) => GenApply(cfg, s, g)
    case Work(w) => WorkApply(cfg, s, w)
    case Order(o) => OrderApply(cfg, s, o)
    case Read(q) => ReadApply(s, q)
    case Close(c) => CloseApply(s, c)
  }

  /** One round of the placer. */
  ghost function Placed(s: State): State
    requires s.chReady != [] && s.slots != []
  {
    var rec := s.chReady[0];
    var spot := Spot(s.slots, rec.i);
    if s.slots[spot].v.Elem? then s.(chReady := s.chReady[1..], crash := SpotTaken)
    else s.(chReady := s.chReady[1..], slots := s.slots[spot := rec], evReady := s.evReady || spot == 0)
  }

  /** `steps` is a run: it starts in the initial state and every step is an enabled action. */
  ghost predicate Run(cfg: Config, steps: seq<State>) {
    && cfg.n >= 1
    && steps != [] && steps[0] == Init(cfg)
    && forall i :: 0 <= i < |steps| - 1 ==> Step(cfg, steps[i], steps[i + 1])
  }

  ghost predicate Step(cfg: Config, s: State, t: State) {
    exists a :: Enabled(cfg, s, a) && t == Apply(cfg, s, a)
  }

  /** Some interleaving leads to s. */
  ghost predicate Reach(cfg: Config, s: State) {
    exists steps :: Run(cfg, steps) && steps[|steps| - 1] == s
  }

  ghost predicate ProcNeverNil(cfg: Config) {
    forall e :: cfg.proc(e).Some?
  }

  /** The iterator yields k elements and then nil. */
  ghost predicate EndsAt(cfg: Config, k: nat) {
    cfg.src(k).Nil? && forall j: nat :: j < k ==> cfg.src(j).Elem?
  }

  /** The iterator yields k elements and then an error. */
  ghost predicate FailsAt(cfg: Config, k: nat) {
    cfg.src(k).Fail? && forall j: nat :: j < k ==> cfg.src(j).Elem?
  }

  /** The generator's in-place shift. */
  method ShiftInPlace(arr: array<Rec>)
    requires arr.Length > 0
    modifies arr
    ensures arr[..] == Shifted(old(arr[..]))
  {
    var n := arr.Length;
    if n > 1 {
      for i := 1 to n
        invariant forall j :: 0 <= j < i - 1 ==> arr[j] == old(arr[j + 1])
        invariant forall j :: i - 1 <= j < n ==> arr[j] == old(arr[j])
      {
        arr[i - 1] := arr[i];
      }
      arr[n - 1] := Rec(arr[n - 2].i + 1, Nil);
    } else {
      arr[0] := Rec(0, Nil);
    }
  }

  /** The placer's search and store; `taken` is the panic, `wake` the call of `evReady.Set`. */
  method PlaceInPlace(arr: array<Rec>, rec: Rec) returns (wake: bool, taken: bool)
    requires arr.Length > 0
    modifies arr
    ensures var spot := Spot(old(arr[..]), rec.i);
      && taken == old(arr[spot]).v.Elem?
      && (!taken ==> wake == (spot == 0))
      && arr[..] == if taken then old(arr[..]) else old(arr[..])[spot := rec]
  {
    wake := false;
    var n := arr.Length;
    if n > 1 {
      for i := 0 to n - 1
        invariant !wake && arr[..] == old(arr[..])
        invariant forall j :: 0 < j <= i ==> arr[j].i != rec.i + 1
      {
        if arr[i + 1].i == rec.i + 1 {
          SpotIs(arr[..], rec.i, i);
          if arr[i].v.Elem? {
            return false, true;
          }
          arr[i] := rec;
          return i == 0, false;
        }
      }
    } else {
      wake := true;
    }
    SpotIs(arr[..], rec.i, n - 1);
    if arr[n - 1].v.Elem? {
      return wake, true;
    }
    arr[n - 1] := rec;
    return wake, false;
  }

  /** The first fitting slot is the spot. */
  lemma SpotIs(slots: seq<Rec>, x: nat, i: nat)
    requires i < |slots|
    requires i == |slots| - 1 || slots[i + 1].i == x + 1
    requires forall j :: 0 < j <= i ==> slots[j].i != x + 1
    ensures Spot(slots, x) == i
  {
  }

  /** Runs can be extended by any enabled action. */
  lemma ReachStep(cfg: Config, s: State, a: Action)
    requires Reach(cfg, s) && Enabled(cfg, s, a)
    ensures Reach(cfg, Apply(cfg, s, a))
  {
    var steps :| Run(cfg, steps) && steps[|steps| - 1] == s;
    var t := Apply(cfg, s, a);
    var more := steps + [t];
    assert Step(cfg, s, t);
    forall i | 0 <= i < |more| - 1 ensures Step(cfg, more[i], more[i + 1]) {
      if i < |steps| - 1 {
        assert more[i] == steps[i] && more[i + 1] == steps[i + 1];
      }
    }
    assert Run(cfg, more) && more[|more| - 1] == t;
  }

  lemma ReachInit(cfg: Config)
    requires cfg.n >= 1
    ensures Reach(cfg, Init(cfg))
  {
    var steps := [Init(cfg)];
    assert Run(cfg, steps) && steps[|steps| - 1] == Init(cfg);
  }
}
