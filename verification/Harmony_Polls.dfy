/** What one poll of the Harmony events worker does, read off its replies (harmony/client.go:444-535). */
module HarmonyPolls {
  import opened Times
  import opened HarmonyEvents

  /** The records of the first m pages, one page after another. */
  ghost function RecordsOf(pages: seq<Page>, m: nat): seq<Rec>
    requires m <= |pages|
  {
    if m == 0 then [] else RecordsOf(pages, m - 1) + pages[m - 1].records
  }

  /** A page that is asked for, answered and shipped as a whole, and names another one to go on with. */
  ghost predicate GoesOn(page: Page) {
    && !page.stop && page.ok && page.nextToken != "" && page.nextToken != "NULL"
    && forall rec :: rec in page.records ==> rec.shipOk
  }

  /** The latest of the times that can be read of these records, or zero. */
  ghost predicate LatestOf(latest: int, records: seq<Rec>) {
    && latest >= 0 && (forall rec :: rec in records && rec.readable ==> rec.ts <= latest)
    && (latest == 0 || exists rec :: rec in records && rec.readable && rec.ts == latest)
  }

  lemma LatestNext(latest: int, records: seq<Rec>, rec: Rec)
    requires LatestOf(latest, records)
    ensures LatestOf(if RecordTime(rec) > latest then RecordTime(rec) else latest, records + [rec])
  {
    assert rec in records + [rec];
    assert forall r :: r in records ==> r in records + [rec];
  }

  /** Of the first m records of a page the first `at` are shipped, after those before it, and the next one
      is refused if there is one; for the latest time the refused one counts as well. */
  ghost predicate Fetches(f: Fetch, before: seq<Rec>, records: seq<Rec>, m: nat, at: nat)
    requires at <= m <= |records|
  {
    && f.refused == (at < m)
    && (forall k :: 0 <= k < at ==> records[k].shipOk) && (at < m ==> !records[at].shipOk)
    && f.shipped == before + records[..at]
    && LatestOf(f.latest, before + records[..if at < m then at + 1 else at])
  }

  lemma {:induction false} FetchRecordsAre(f: Fetch, records: seq<Rec>, m: nat) returns (at: nat)
    requires m <= |records| && !f.refused && LatestOf(f.latest, f.shipped)
    ensures at <= m && Fetches(FetchRecords(f, records, m), f.shipped, records, m, at)
  {
    if m == 0 {
      at := 0;
      assert f.shipped + records[..0] == f.shipped;
    } else {
      at := FetchRecordsAre(f, records, m - 1);
      if at == m - 1 {
        at := NextRecord(FetchRecords(f, records, m - 1), f.shipped, records, m);
      }
    }
  }

  lemma NextRecord(g: Fetch, before: seq<Rec>, records: seq<Rec>, m: nat) returns (at: nat)
    requires 0 < m <= |records| && Fetches(g, before, records, m - 1, m - 1)
    ensures at <= m && Fetches(FetchRecord(g, records[m - 1]), before, records, m, at)
  {
    var rec := records[m - 1];
    LatestNext(g.latest, before + records[..m - 1], rec);
    assert before + records[..m] == before + records[..m - 1] + [rec];
    at := if rec.shipOk then m else m - 1;
  }

  /** How far a fetch gets: through m pages, and `at` records of the next one. */
  ghost predicate FetchedTo(pages: seq<Page>, done: Fetched, m: nat, at: nat) {
    && m <= |pages| && (forall i :: 0 <= i < m ==> GoesOn(pages[i]))
    && if m == |pages| then done.ending == PageFailed && done.f.shipped == RecordsOf(pages, m)
       else if pages[m].stop then done.ending == SawStop && done.f.shipped == RecordsOf(pages, m)
       else if !pages[m].ok then done.ending == PageFailed && done.f.shipped == RecordsOf(pages, m)
       else
         && at <= |pages[m].records| && Fetches(done.f, RecordsOf(pages, m), pages[m].records, |pages[m].records|, at)
         && if at < |pages[m].records| then done.ending == ShipFailed
            else done.ending == AllPages && (pages[m].nextToken == "" || pages[m].nextToken == "NULL")
  }

  lemma {:induction false} FetchPagesAre(pages: seq<Page>, i: nat, f: Fetch) returns (m: nat, at: nat)
    requires i <= |pages| && !f.refused && f.shipped == RecordsOf(pages, i) && LatestOf(f.latest, f.shipped)
    requires forall k :: 0 <= k < i ==> GoesOn(pages[k])
    ensures FetchedTo(pages, FetchPages(pages, i, f), m, at)
    decreases |pages| - i
  {
    m, at := i, 0;
    if i < |pages| && !pages[i].stop && pages[i].ok {
      var records := pages[i].records;
      at := FetchRecordsAre(f, records, |records|);
      var g := FetchRecords(f, records, |records|);
      if !g.refused && !Last(pages[i]) {
        assert records[..at] == records;
        m, at := FetchPagesAre(pages, i + 1, g);
      }
    }
  }

  /** WHAT A QUERY'S PAGES COME TO.  Pages are followed as long as they are answered, shipped as a whole and
      name another one; every record up to there is shipped in order; and the fetch ends in one of four ways,
      each for its own reason. */
  lemma PagesFetched(pages: seq<Page>) returns (m: nat, at: nat)
    ensures FetchedTo(pages, Fetching(Pages(pages)), m, at)
  {
    m, at := FetchPagesAre(pages, 0, NOTHING);
  }

  /** ONE POLL, by what the gateway answers.  A query that could not be made leaves the worker as it was; a
      canceled one and one without results move the cursor to a minute before now; and one read to its end
      moves it to the latest time among its records, or there if none can be read.  Any other one leaves the
      cursor, or ends the worker. */
  lemma PollMoves(w: Worker, poll: Poll)
    requires !w.stopped && w.cursor >= 0
    ensures var w', end := OnePoll(w, poll), poll.now - MINUTE;
      if end <= w.cursor then w' == w.(stopped := poll.stopAfter)
      else
        match poll.query
        case SubmitFailed => w' == w.(stopped := poll.stopAfter)
        case TaskFailed => w' == w.(stopped := poll.stopAfter)
        case TaskCanceled =>
          && w'.cursor == end && w'.shipped == w.shipped && w'.stopped == poll.stopAfter
          && w'.skipped == w.skipped + [Window(w.cursor - w.cursor % SEC, end - end % SEC)]
        case StoppedWaiting => w'.stopped && w'.shipped == w.shipped && w'.skipped == w.skipped
        case NoTokens =>
          w'.cursor == end && w'.shipped == w.shipped && w'.skipped == w.skipped && w'.stopped == poll.stopAfter
        case Pages(pages) => exists m, at :: PagesMove(w, pages, end, poll.stopAfter, w', m, at)
  {
    if poll.query.Pages? && poll.now - MINUTE > w.cursor {
      var pages := poll.query.pages;
      var m, at := PagesFetched(pages);
      var latest := Fetching(poll.query).f.latest;
      if m < |pages| && at == |pages[m].records| && !pages[m].stop && pages[m].ok {
        assert pages[m].records[..at] == pages[m].records;
        assert LatestOf(latest, RecordsOf(pages, m) + pages[m].records);
      }
      assert PagesMove(w, pages, poll.now - MINUTE, poll.stopAfter, OnePoll(w, poll), m, at);
    }
  }

  /** The same for pages: m pages went on, and of the next one `at` records were shipped. */
  ghost predicate PagesMove(w: Worker, pages: seq<Page>, end: int, stopAfter: bool, w': Worker, m: nat, at: nat) {
    && m <= |pages| && (forall i :: 0 <= i < m ==> GoesOn(pages[i])) && w'.skipped == w.skipped
    && if m == |pages| then
         w'.shipped == w.shipped + RecordsOf(pages, m) && w'.cursor == w.cursor && w'.stopped == stopAfter
       else if pages[m].stop then w'.shipped == w.shipped + RecordsOf(pages, m) && w'.stopped
       else if !pages[m].ok then
         w'.shipped == w.shipped + RecordsOf(pages, m) && w'.cursor == w.cursor && w'.stopped == stopAfter
       else
         var records := pages[m].records;
         && at <= |records| && (forall k :: 0 <= k < at ==> records[k].shipOk)
         && w'.shipped == w.shipped + (RecordsOf(pages, m) + records[..at])
         && if at < |records| then !records[at].shipOk && w'.cursor == w.cursor && w'.stopped
            else
              && (pages[m].nextToken == "" || pages[m].nextToken == "NULL") && w'.stopped == stopAfter
              && exists latest ::
                   LatestOf(latest, RecordsOf(pages, m) + records) && w'.cursor == if latest == 0 then end else latest
  }
}
