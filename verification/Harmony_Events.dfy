/** The events source of the Harmony adapter: a worker that walks a cursor through time, one query
    window per poll (harmony/client.go). */
module HarmonyEvents {
  import opened Times

  const END_LAG := MINUTE

  // ----- What the gateway answers --------------------------------------------------------------

  /** A record happened at `ts`; its time may or may not be readable, the shipper may refuse it. */
  datatype Rec = Rec(id: nat, ts: int, readable: bool, shipOk: bool)

  /** extractRecordTime; zero stands for Go's zero time throughout. */
  function RecordTime(rec: Rec): int {
    if rec.readable then rec.ts else 0
  }

  /** `stop` tells whether doStop is found set before the page is asked for. */
  datatype Page = Page(stop: bool, ok: bool, records: seq<Rec>, nextToken: string)

  predicate Last(page: Page) {
    page.nextToken == "" || page.nextToken == "NULL"
  }

  /** How a query goes: submitting it, waiting for the task, and the pages behind the first token.  A
      page beyond the end of `pages` is a failed request. */
  datatype Query = SubmitFailed | TaskFailed | TaskCanceled | StoppedWaiting | NoTokens | Pages(pages: seq<Page>)

  datatype Err = NoError | Canceled | Failed

  /** What runOneEventsQuery returns. */
  datatype Answer = Answer(cursor: int, err: Err)

  // ----- One query -----------------------------------------------------------------------------

  datatype Fetch = Fetch(shipped: seq<Rec>, latest: int, refused: bool)

  /** A record counts for the latest time before it is shipped. */
  function FetchRecord(f: Fetch, rec: Rec): Fetch {
    var latest := if RecordTime(rec) > f.latest then RecordTime(rec) else f.latest;
    if rec.shipOk then Fetch(f.shipped + [rec], latest, false) else Fetch(f.shipped, latest, true)
  }

  /** The first m records, up to one the shipper refuses. */
  function FetchRecords(f: Fetch, records: seq<Rec>, m: nat): Fetch
    requires m <= |records|
  {
    if m == 0 then f
    else
      var g := FetchRecords(f, records, m - 1);
      if g.refused then g else FetchRecord(g, records[m - 1])
  }

  datatype Ending = AllPages | SawStop | PageFailed | ShipFailed

  datatype Fetched = Fetched(f: Fetch, ending: Ending)

  /** The pages from i on. */
  function FetchPages(pages: seq<Page>, i: nat, f: Fetch): Fetched
    decreases |pages| - i
  {
    if i >= |pages| then Fetched(f, PageFailed)
    else if pages[i].stop then Fetched(f, SawStop)
    else if !pages[i].ok then Fetched(f, PageFailed)
    else
      var g := FetchRecords(f, pages[i].records, |pages[i].records|);
      if g.refused then Fetched(g, ShipFailed)
      else if Last(pages[i]) then Fetched(g, AllPages)
      else FetchPages(pages, i + 1, g)
  }

  const NOTHING := Fetch([], 0, false)

  function Fetching(query: Query): Fetched {
    if query.Pages? then FetchPages(query.pages, 0, NOTHING) else Fetched(NOTHING, AllPages)
  }

  function QueryAnswer(query: Query, endTime: int): Answer {
    match query
    case SubmitFailed => Answer(0, Failed)
    case TaskFailed => Answer(0, Failed)
    case TaskCanceled => Answer(0, Canceled)
    case StoppedWaiting => Answer(endTime, NoError)
    case NoTokens => Answer(endTime, NoError)
    case Pages(_) =>
      var done := Fetching(query);
      match done.ending
      case AllPages => Answer(if done.f.latest == 0 then endTime else done.f.latest, NoError)
      case SawStop => Answer(done.f.latest, NoError)
      case PageFailed => Answer(done.f.latest, Failed)
      case ShipFailed => Answer(done.f.latest, Failed)
  }

  /** Whether doStop is set by the end of the query, by this worker or by others. */
  predicate Stops(query: Query) {
    query.StoppedWaiting? || Fetching(query).ending == SawStop || Fetching(query).ending == ShipFailed
  }

  // ----- All polls -----------------------------------------------------------------------------

  /** One turn of the polling loop: the clock when it begins, the query if one is made, and whether
      doStop is found set at its end. */
  datatype Poll = Poll(now: int, query: Query, stopAfter: bool)

  datatype Window = Window(start: int, end: int)

  /** `fromRecord` tells whether the cursor was last advanced to a record's time. */
  datatype Worker = Worker(cursor: int, fromRecord: bool, shipped: seq<Rec>, skipped: seq<Window>, stopped: bool)

  function EndTime(poll: Poll): int {
    poll.now - END_LAG
  }

  function Queried(w: Worker, poll: Poll): Window {
    Window(FloorSec(w.cursor), FloorSec(EndTime(poll)))
  }

  function OnePoll(w: Worker, poll: Poll): Worker {
    if w.stopped then w
    else if EndTime(poll) <= w.cursor then w.(stopped := poll.stopAfter)
    else
      var answer := QueryAnswer(poll.query, EndTime(poll));
      var fetched := Fetching(poll.query).f;
      var w' := w.(shipped := w.shipped + fetched.shipped, stopped := Stops(poll.query) || poll.stopAfter);
      match answer.err
      case Canceled => w'.(cursor := EndTime(poll), fromRecord := false, skipped := w.skipped + [Queried(w, poll)])
      case Failed => w'
      case NoError => if answer.cursor == 0 then w' else w'.(cursor := answer.cursor, fromRecord := fetched.latest != 0)
  }

  function Run(init: int, polls: seq<Poll>): Worker {
    if polls == [] then Worker(init, false, [], [], false)
    else OnePoll(Run(init, polls[..|polls| - 1]), polls[|polls| - 1])
  }

  lemma RunNext(init: int, polls: seq<Poll>, i: nat)
    requires i < |polls|
    ensures Run(init, polls[..i + 1]) == OnePoll(Run(init, polls[..i]), polls[i])
  {
    assert polls[..i + 1][..i] == polls[..i];
  }

  lemma {:induction false} StoppedStays(init: int, polls: seq<Poll>, m: nat)
    requires m <= |polls| && Run(init, polls[..m]).stopped
    ensures Run(init, polls) == Run(init, polls[..m])
    decreases |polls|
  {
    if m == |polls| {
      assert polls[..m] == polls;
    } else {
      assert polls[..|polls| - 1][..m] == polls[..m];
      StoppedStays(init, polls[..|polls| - 1], m);
    }
  }

  class EventsWorker {
    var doStop: bool
    var shipped: seq<Rec>

    constructor ()
      ensures !doStop && shipped == []
    {
      doStop, shipped := false, [];
    }

    method RunOneEventsQuery(query: Query, endTime: int) returns (cursor: int, err: Err)
      requires !doStop
      modifies this
      ensures Answer(cursor, err) == QueryAnswer(query, endTime)
      ensures shipped == old(shipped) + Fetching(query).f.shipped && doStop == Stops(query)
    {
      match query {
        case SubmitFailed => return 0, Failed;
        case TaskFailed => return 0, Failed;
        case TaskCanceled => return 0, Canceled;
        case StoppedWaiting => doStop := true; return endTime, NoError;
        case NoTokens => return endTime, NoError;
        case Pages(pages) =>
          cursor, err := RetrievePages(pages);
          if err == NoError && !doStop && cursor == 0 {
            cursor := endTime;
          }
      }
    }

    method RetrievePages(pages: seq<Page>) returns (latest: int, err: Err)
      requires !doStop
      modifies this
      ensures var done := FetchPages(pages, 0, NOTHING);
        && latest == done.f.latest && shipped == old(shipped) + done.f.shipped
        && doStop == (done.ending == SawStop || done.ending == ShipFailed)
        && err == if done.ending == AllPages || done.ending == SawStop then NoError else Failed
    {
      latest := 0;
      ghost var f := NOTHING;
      for i := 0 to |pages|
        invariant !doStop && !f.refused && latest == f.latest && shipped == old(shipped) + f.shipped
        invariant FetchPages(pages, i, f) == FetchPages(pages, 0, NOTHING)
      {
        if pages[i].stop {
          doStop := true;
          return latest, NoError;
        }
        if !pages[i].ok {
          return latest, Failed;
        }
        var refused;
        latest, refused := ShipRecords(pages[i].records, latest, f, old(shipped));
        f := FetchRecords(f, pages[i].records, |pages[i].records|);
        if refused {
          return latest, Failed;
        }
        if Last(pages[i]) {
          return latest, NoError;
        }
      }
      return latest, Failed;
    }

    method ShipRecords(records: seq<Rec>, latest: int, ghost f: Fetch, ghost base: seq<Rec>) returns (latest': int, refused: bool)
      requires !doStop && !f.refused && latest == f.latest && shipped == base + f.shipped
      modifies this
      ensures var g := FetchRecords(f, records, |records|);
        latest' == g.latest && doStop == refused == g.refused && shipped == base + g.shipped
    {
      latest', refused := latest, false;
      for m := 0 to |records|
        invariant !doStop && !refused
        invariant FetchRecords(f, records, m) == Fetch(FetchRecords(f, records, m).shipped, latest', false)
        invariant shipped == base + FetchRecords(f, records, m).shipped
      {
        var ts := RecordTime(records[m]);
        if ts > latest' {
          latest' := ts;
        }
        if !records[m].shipOk {
          doStop, refused := true, true;
          RefusedStays(f, records, m + 1);
          return;
        }
        shipped := shipped + [records[m]];
      }
    }

    /** One turn of the polling loop. */
    method PollOnce(nextStart: int, poll: Poll, ghost w: Worker, ghost base: seq<Rec>) returns (next: int)
      requires !doStop && !w.stopped && nextStart == w.cursor && shipped == base + w.shipped
      modifies this
      ensures var w' := OnePoll(w, poll);
        next == w'.cursor && shipped == base + w'.shipped && doStop == w'.stopped
    {
      next := nextStart;
      var endTime := EndTime(poll);
      if endTime > nextStart {
        var newCursor, err := RunOneEventsQuery(poll.query, endTime);
        if err == Canceled {
          next := endTime;
        } else if err == NoError && newCursor != 0 {
          next := newCursor;
        }
      }
      if poll.stopAfter {
        doStop := true;
      }
    }

    /** The polling loop, for as long as there are polls or until doStop. */
    method FetchEventsForService(init: int, polls: seq<Poll>) returns (nextStart: int)
      requires !doStop
      modifies this
      ensures var w := Run(init, polls);
        nextStart == w.cursor && shipped == old(shipped) + w.shipped && doStop == w.stopped
    {
      nextStart := init;
      ghost var w := Run(init, polls[..0]);
      for i := 0 to |polls|
        invariant w == Run(init, polls[..i]) && !w.stopped && !doStop
        invariant nextStart == w.cursor && shipped == old(shipped) + w.shipped
      {
        RunNext(init, polls, i);
        nextStart := PollOnce(nextStart, polls[i], w, old(shipped));
        w := OnePoll(w, polls[i]);
        if doStop {
          StoppedStays(init, polls, i + 1);
          return;
        }
      }
      assert polls[..|polls|] == polls;
    }
  }

  lemma {:induction false} RefusedStays(f: Fetch, records: seq<Rec>, m: nat)
    requires m <= |records| && FetchRecords(f, records, m).refused
    ensures FetchRecords(f, records, |records|) == FetchRecords(f, records, m)
    decreases |records| - m
  {
    if m < |records| { RefusedStays(f, records, m + 1); }
  }

  // ----- A gateway that keeps its word -----------------------------------------------------------

  /** The records on the pages from i to the last one. */
  ghost function Returned(pages: seq<Page>, i: nat): set<Rec>
    decreases |pages| - i
  {
    if i >= |pages| then {}
    else (set rec | rec in pages[i].records) + if Last(pages[i]) then {} else Returned(pages, i + 1)
  }

  ghost function Answered(query: Query): set<Rec> {
    if query.Pages? then Returned(query.pages, 0) else {}
  }

  /** The query returns only records of the window and, if it can be followed to its end, all of them.
      Whether records at the very end of the window belong to it is left open. */
  ghost predicate HonestQuery(db: set<Rec>, window: Window, query: Query) {
    && (forall rec :: rec in Answered(query) ==> rec in db && window.start <= rec.ts <= window.end)
    && (query.NoTokens? || (query.Pages? && Fetching(query).ending == AllPages) ==>
          forall rec :: rec in db && window.start <= rec.ts < window.end ==> rec in Answered(query))
  }

  ghost predicate Honest(db: set<Rec>, init: int, polls: seq<Poll>) {
    polls == [] ||
    var w, poll := Run(init, polls[..|polls| - 1]), polls[|polls| - 1];
    && Honest(db, init, polls[..|polls| - 1])
    && (!w.stopped && EndTime(poll) > w.cursor ==> HonestQuery(db, Queried(w, poll), poll.query))
  }

  /** Every record timed in [from, to) was shipped or lies in a skipped window. */
  ghost predicate Covered(db: set<Rec>, w: Worker, from: int, to: int) {
    forall rec :: rec in db && from <= rec.ts < to ==> rec in w.shipped || Skipped(w.skipped, rec.ts)
  }

  ghost predicate Skipped(skipped: seq<Window>, ts: int) {
    exists i :: 0 <= i < |skipped| && skipped[i].start <= ts < skipped[i].end
  }

  /** What a fetch has done with the records in `had`: all are shipped unless one was refused, and the
      latest time is one of theirs. */
  ghost predicate Follows(f: Fetch, had: set<Rec>) {
    && (forall rec :: rec in f.shipped ==> rec in had)
    && (!f.refused ==> forall rec :: rec in had ==> rec in f.shipped)
    && (f.latest == 0 || exists rec :: rec in had && rec.ts == f.latest)
  }

  lemma {:induction false} FetchRecordsFollows(f: Fetch, had: set<Rec>, records: seq<Rec>, m: nat)
    requires Follows(f, had) && m <= |records|
    ensures Follows(FetchRecords(f, records, m), had + set rec | rec in records[..m])
  {
    if m == 0 {
      assert had + (set rec | rec in records[..0]) == had;
    } else {
      FetchRecordsFollows(f, had, records, m - 1);
      assert records[..m] == records[..m - 1] + [records[m - 1]];
    }
  }

  lemma {:induction false} FetchPagesFollows(pages: seq<Page>, i: nat, f: Fetch, had: set<Rec>)
    requires Follows(f, had) && !f.refused
    ensures var done := FetchPages(pages, i, f);
      && (forall rec :: rec in done.f.shipped ==> rec in had + Returned(pages, i))
      && (done.ending == AllPages ==> forall rec :: rec in had + Returned(pages, i) ==> rec in done.f.shipped)
      && (done.f.latest == 0 || exists rec :: rec in had + Returned(pages, i) && rec.ts == done.f.latest)
    decreases |pages| - i
  {
    if i < |pages| && !pages[i].stop && pages[i].ok {
      var records := pages[i].records;
      FetchRecordsFollows(f, had, records, |records|);
      assert records[..|records|] == records;
      var had' := had + set rec | rec in records;
      var g := FetchRecords(f, records, |records|);
      if !g.refused && !Last(pages[i]) {
        FetchPagesFollows(pages, i + 1, g, had');
        assert had' + Returned(pages, i + 1) == had + Returned(pages, i);
      }
    }
  }

  // ----- Coverage --------------------------------------------------------------------------------

  /** One honest query: what was shipped, and where the cursor may go. */
  lemma QueryCovers(db: set<Rec>, w: Worker, poll: Poll)
    requires !w.stopped && EndTime(poll) > w.cursor && HonestQuery(db, Queried(w, poll), poll.query)
    ensures var w' := OnePoll(w, poll); var win := Queried(w, poll);
      && win.start <= FloorSec(w'.cursor) <= win.end
      && (forall rec :: rec in w'.shipped ==> rec in w.shipped || rec in db)
      && (!w'.stopped && (w'.cursor != w.cursor || w'.fromRecord != w.fromRecord) ==>
            Covered(db, w', win.start, if w'.fromRecord then w'.cursor else win.end))
  {
    var w', win := OnePoll(w, poll), Queried(w, poll);
    var done := Fetching(poll.query);
    if poll.query.Pages? {
      FetchPagesFollows(poll.query.pages, 0, NOTHING, {});
      assert {} + Returned(poll.query.pages, 0) == Answered(poll.query);
    }
    FloorWithin(w.cursor, EndTime(poll));
    if done.f.latest != 0 {
      var rec :| rec in Answered(poll.query) && rec.ts == done.f.latest;
      FloorBetween(win.start, win.end, w.cursor, EndTime(poll), rec.ts);
    }
    if poll.query.TaskCanceled? {
      assert w'.skipped[|w.skipped|] == win;
    }
  }

  lemma FloorWithin(s: int, e: int)
    requires s <= e
    ensures FloorSec(s) <= FloorSec(e) && FloorSec(FloorSec(s)) == FloorSec(s) && FloorSec(FloorSec(e)) == FloorSec(e)
  {
  }

  lemma FloorBetween(start: int, end: int, s: int, e: int, t: int)
    requires start == FloorSec(s) && end == FloorSec(e) && start <= t <= end
    ensures start <= FloorSec(t) <= end
  {
  }

  lemma CoveredGrows(db: set<Rec>, w: Worker, poll: Poll, from: int, to: int)
    requires Covered(db, w, from, to)
    ensures Covered(db, OnePoll(w, poll), from, to)
  {
    var w' := OnePoll(w, poll);
    assert forall rec :: rec in w.shipped ==> rec in w'.shipped;
    assert forall i :: 0 <= i < |w.skipped| ==> w'.skipped[i] == w.skipped[i];
  }

  /** How far the records are accounted for: up to the cursor if it is a record's time, up to the second
      in which it lies otherwise. */
  function Edge(w: Worker): int {
    if w.fromRecord then w.cursor else FloorSec(w.cursor)
  }

  /** COVERAGE.  While the worker runs, every record from the second of the initial cursor on and before
      the second of the cursor, and before the cursor itself where that is a record's time, was shipped
      or lies in a window skipped as canceled. */
  lemma {:induction false} Coverage(db: set<Rec>, init: int, polls: seq<Poll>)
    requires Honest(db, init, polls) && !Run(init, polls).stopped
    ensures Covered(db, Run(init, polls), FloorSec(init), Edge(Run(init, polls)))
  {
    if polls != [] {
      var front, poll := polls[..|polls| - 1], polls[|polls| - 1];
      var w, w' := Run(init, front), Run(init, polls);
      Coverage(db, init, front);
      CoveredGrows(db, w, poll, FloorSec(init), Edge(w));
      if EndTime(poll) > w.cursor {
        QueryCovers(db, w, poll);
        assert FloorSec(w.cursor) <= Edge(w);
      }
    }
  }

  /** Nothing is made up: what is shipped comes from the gateway. */
  lemma {:induction false} ShippedFromGateway(db: set<Rec>, init: int, polls: seq<Poll>)
    requires Honest(db, init, polls)
    ensures forall rec :: rec in Run(init, polls).shipped ==> rec in db
  {
    if polls != [] {
      var front, poll := polls[..|polls| - 1], polls[|polls| - 1];
      ShippedFromGateway(db, init, front);
      var w := Run(init, front);
      if !w.stopped && EndTime(poll) > w.cursor {
        QueryCovers(db, w, poll);
      }
    }
  }

  /** NEVER BACK.  Over any run the second of the cursor does not decrease, so no second before it is
      queried again. */
  lemma {:induction false} CursorNeverBack(db: set<Rec>, init: int, polls: seq<Poll>, m: nat)
    requires Honest(db, init, polls) && m <= |polls|
    ensures FloorSec(Run(init, polls[..m]).cursor) <= FloorSec(Run(init, polls).cursor)
    decreases |polls|
  {
    if m == |polls| {
      assert polls[..m] == polls;
    } else {
      var front, poll := polls[..|polls| - 1], polls[|polls| - 1];
      assert front[..m] == polls[..m];
      CursorNeverBack(db, init, front, m);
      var w := Run(init, front);
      if !w.stopped && EndTime(poll) > w.cursor {
        QueryCovers(db, w, poll);
      }
    }
  }

  /** Within its second the cursor can go back: to a record of that second older than itself. */
  lemma CursorBackWithinSecond()
    ensures exists db, init, polls :: GoesBack(db, init, polls)
  {
    var init := 5 * SEC + 7;
    var rec := Rec(0, 5 * SEC + 2, true, true);
    var page := Page(false, true, [rec], "NULL");
    var poll := Poll(init + END_LAG + SEC, Pages([page]), false);
    var polls := [poll];
    assert polls[..0] == [] && Run(init, []) == Worker(init, false, [], [], false);
    assert FetchRecords(NOTHING, [rec], 0) == NOTHING;
    assert FetchRecords(NOTHING, [rec], 1) == Fetch([] + [rec], rec.ts, false);
    assert Fetching(poll.query) == Fetched(Fetch([] + [rec], rec.ts, false), AllPages);
    assert Answered(poll.query) == {rec};
    assert Honest({rec}, init, []);
    assert HonestQuery({rec}, Queried(Run(init, []), poll), poll.query);
    assert Honest({rec}, init, polls);
    assert Run(init, polls) == OnePoll(Run(init, []), poll);
    assert GoesBack({rec}, init, polls);
  }

  ghost predicate GoesBack(db: set<Rec>, init: int, polls: seq<Poll>) {
    Honest(db, init, polls) && !Run(init, polls).stopped && Run(init, polls).cursor < init
  }

  /** FAILED WINDOWS.  A query that failed for any reason but cancelation leaves the cursor, so the next
      poll asks from the same second again; if the clock has not gone back, its window holds this one. */
  lemma FailedIsAskedAgain(w: Worker, poll: Poll, next: Poll)
    requires !w.stopped && EndTime(poll) > w.cursor && QueryAnswer(poll.query, EndTime(poll)).err == Failed
    requires poll.now <= next.now && !OnePoll(w, poll).stopped
    ensures var win, again := Queried(w, poll), Queried(OnePoll(w, poll), next);
      EndTime(next) > OnePoll(w, poll).cursor && again.start == win.start && win.end <= again.end
  {
    FloorWithin(EndTime(poll), EndTime(next));
  }

  // ----- Coverage up to the cursor itself --------------------------------------------------------

  ghost predicate ClocksRise(polls: seq<Poll>) {
    forall i, j :: 0 <= i < j < |polls| ==> polls[i].now <= polls[j].now
  }

  /** Whether everything before the cursor itself is accounted for, whatever the gateway holds. */
  ghost predicate CoversToCursor(init: int, polls: seq<Poll>) {
    forall db :: Honest(db, init, polls) ==> Covered(db, Run(init, polls), init, Run(init, polls).cursor)
  }

  /** Where the last query that did not fail ended. */
  function LastAsked(init: int, polls: seq<Poll>): int {
    if polls == [] then init
    else
      var front, poll := polls[..|polls| - 1], polls[|polls| - 1];
      if Succeeds(Run(init, front), poll) then EndTime(poll) else LastAsked(init, front)
  }

  lemma {:induction false} LastAskedRises(db: set<Rec>, init: int, polls: seq<Poll>)
    requires Honest(db, init, polls) && ClocksRise(polls)
    ensures LastAsked(init, polls) == init || exists i :: 0 <= i < |polls| && LastAsked(init, polls) == EndTime(polls[i])
    ensures polls != [] ==>
      FloorSec(LastAsked(init, polls[..|polls| - 1])) <= FloorSec(LastAsked(init, polls))
  {
    if polls != [] {
      var front, poll := polls[..|polls| - 1], polls[|polls| - 1];
      LastAskedRises(db, init, front);
      CursorNeverBack(db, init, front, 0);
      assert front[..0] == [];
      assert forall i :: 0 <= i < |front| ==> front[i] == polls[i];
      if LastAsked(init, polls) == EndTime(poll) > Run(init, front).cursor {
        FloorWithin(Run(init, front).cursor, EndTime(poll));
        if LastAsked(init, front) != init {
          FloorWithin(LastAsked(init, front), EndTime(poll));
        }
      }
    }
  }

  predicate Succeeds(w: Worker, poll: Poll) {
    !w.stopped && EndTime(poll) > w.cursor && QueryAnswer(poll.query, EndTime(poll)).err != Failed
  }

  lemma UnaskedStep(db: set<Rec>, w: Worker, poll: Poll, rec: Rec)
    requires EndTime(poll) > w.cursor ==> HonestQuery(db, Queried(w, poll), poll.query)
    requires Succeeds(w, poll) ==> FloorSec(EndTime(poll)) <= rec.ts
    requires !w.stopped && !Skipped(w.skipped, rec.ts)
    ensures EndTime(poll) > w.cursor ==> HonestQuery(db + {rec}, Queried(w, poll), poll.query)
    ensures !Skipped(OnePoll(w, poll).skipped, rec.ts)
  {
  }

  /** A gateway may hold a record timed after the second in which the last query that did not fail
      ended; no skipped window holds it. */
  lemma {:induction false} UnaskedRecord(db: set<Rec>, init: int, polls: seq<Poll>, rec: Rec)
    requires Honest(db, init, polls) && ClocksRise(polls) && FloorSec(LastAsked(init, polls)) <= rec.ts
    ensures Honest(db + {rec}, init, polls) && !Skipped(Run(init, polls).skipped, rec.ts)
  {
    if polls != [] {
      var front := polls[..|polls| - 1];
      LastAskedRises(db, init, polls);
      UnaskedRecord(db, init, front, rec);
      if !Run(init, front).stopped {
        UnaskedStep(db, Run(init, front), polls[|polls| - 1], rec);
      }
    }
  }

  lemma ClockStep(w: Worker, poll: Poll)
    requires w.cursor >= 0 && !OnePoll(w, poll).stopped && !OnePoll(w, poll).fromRecord
    ensures OnePoll(w, poll).cursor == if Succeeds(w, poll) then EndTime(poll) else w.cursor
    ensures Succeeds(w, poll) || !w.fromRecord
  {
  }

  /** A cursor that is not a record's time is where the last query that did not fail ended. */
  lemma {:induction false} CursorFromClock(db: set<Rec>, init: int, polls: seq<Poll>)
    requires Honest(db, init, polls) && init > 0 && !Run(init, polls).stopped && !Run(init, polls).fromRecord
    ensures Run(init, polls).cursor == LastAsked(init, polls)
  {
    if polls != [] {
      var front, poll := polls[..|polls| - 1], polls[|polls| - 1];
      CursorNeverBack(db, init, front, 0);
      assert front[..0] == [];
      ClockStep(Run(init, front), poll);
      if !Succeeds(Run(init, front), poll) {
        CursorFromClock(db, init, front);
      }
    }
  }

  lemma {:induction false} NewId(records: seq<Rec>) returns (id: nat)
    ensures forall rec :: rec in records ==> rec.id < id
  {
    id := 0;
    for i := 0 to |records|
      invariant forall k :: 0 <= k < i ==> records[k].id < id
    {
      if records[i].id >= id { id := records[i].id + 1; }
    }
  }

  /** UP TO THE CURSOR, EXACTLY WHEN.  While the worker runs, everything from its start to the cursor is
      accounted for if and only if the cursor is a record's time, or a whole second, or not past the start. */
  lemma CoversToCursorIff(db: set<Rec>, init: int, polls: seq<Poll>)
    requires Honest(db, init, polls) && ClocksRise(polls) && init > 0 && !Run(init, polls).stopped
    ensures var w := Run(init, polls);
      CoversToCursor(init, polls) <==> w.fromRecord || w.cursor % SEC == 0 || w.cursor <= init
  {
    var w := Run(init, polls);
    if w.fromRecord || w.cursor % SEC == 0 || w.cursor <= init {
      forall db | Honest(db, init, polls) ensures Covered(db, w, init, w.cursor) {
        Coverage(db, init, polls);
      }
    } else {
      var id := NewId(w.shipped);
      var rec := Rec(id, w.cursor - 1, true, true);
      CursorFromClock(db, init, polls);
      assert FloorSec(w.cursor) <= rec.ts;
      UnaskedRecord(db, init, polls, rec);
      assert rec in db + {rec} && rec !in w.shipped;
    }
  }
}
