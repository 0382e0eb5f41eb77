/** The emails source of the Harmony adapter: one scroll per poll over everything that changed within
    the lookback, deduplicated by a rotating deduper (harmony/client.go). */
module HarmonyEmails {
  import opened Options
  import opened Sequences
  import opened Times
  import opened Deduping

  const MAX_PAGES := 1000

  // ----- One poll ------------------------------------------------------------------------------

  /** What emailDedupKey reads of a record, an absent field being empty, and whether the shipper
      accepts the record if it is asked to. */
  datatype Rec = Rec(entityId: string, entityUpdated: string, entityCreated: string, shipOk: bool)

  datatype Reply = Failed | Page(records: seq<Rec>, scroll: string)

  /** How a poll ended. */
  datatype Outcome = Complete | Stopped | RequestFailed | ShipFailed | TooManyPages | UnsupportedSaas

  function State(rec: Rec): string {
    if rec.entityUpdated == "" then rec.entityCreated else rec.entityUpdated
  }

  /** harmony/client.go:769-780. */
  function EmailKey(rec: Rec): string {
    if rec.entityId == "" then "" else KeyText(rec.entityId, State(rec))
  }

  function KeyText(id: string, state: string): string {
    "email:" + id + "|" + state
  }

  /** Of one entity, records have the same key exactly if they were updated at the same time, or, where no
      such time is given, created at the same time; so no change of its state is taken for a known one. */
  lemma SameEntityKeys(a: Rec, b: Rec)
    requires a.entityId == b.entityId != ""
    ensures EmailKey(a) != "" && EmailKey(b) != ""
    ensures a.entityUpdated != "" && b.entityUpdated != "" ==> (EmailKey(a) == EmailKey(b) <==> a.entityUpdated == b.entityUpdated)
    ensures a.entityUpdated == "" && b.entityUpdated == "" ==> (EmailKey(a) == EmailKey(b) <==> a.entityCreated == b.entityCreated)
    ensures a.entityUpdated != "" && b.entityUpdated == "" ==> (EmailKey(a) == EmailKey(b) <==> a.entityUpdated == b.entityCreated)
  {
    var n := |"email:" + a.entityId + "|"|;
    assert EmailKey(a)[n..] == State(a) && EmailKey(b)[n..] == State(b);
  }

  /** The key tells entity and state apart, provided no entity id contains the separator. */
  lemma EmailKeyInjective(a: Rec, b: Rec)
    requires '|' !in a.entityId && '|' !in b.entityId
    requires EmailKey(a) == EmailKey(b)
    ensures a.entityId == b.entityId && (a.entityId != "" ==> State(a) == State(b))
  {
    if a.entityId != "" && b.entityId != "" {
      var n := |"email:"|;
      var m := |a.entityId|;
      var k := EmailKey(a);
      assert k[n..] == a.entityId + "|" + State(a) == b.entityId + "|" + State(b);
      SameCut(a.entityId, State(a), b.entityId, State(b));
    }
  }

  lemma SameCut(a: string, x: string, b: string, y: string)
    requires '|' !in a && '|' !in b && a + "|" + x == b + "|" + y
    ensures a == b && x == y
  {
    var s := a + "|" + x;
    assert s[|a|] == '|' && s[|b|] == '|';
    assert forall i :: 0 <= i < |a| ==> s[i] == a[i] && a[i] != '|';
    assert forall i :: 0 <= i < |b| ==> s[i] == b[i] && b[i] != '|';
    assert a == s[..|a|] && b == s[..|b|];
    assert x == s[|a| + 1..] && y == s[|b| + 1..];
  }

  /** The separator matters: with it in an id, two states of different entities share a key. */
  lemma SeparatorInId()
    ensures EmailKey(Rec("a|b", "c", "", true)) == EmailKey(Rec("a", "b|c", "", true))
  {
    assert "email:" + "a|b" + "|" + "c" == "email:" + "a" + "|" + "b|c";
  }

  /** EXACTLY WHEN.  Two different ids, neither empty, have states that share a key if and only if one of
      them, with the separator put after it, begins the other; records without an id have no key. */
  lemma KeysCollideIff(a: string, b: string)
    requires a != b && a != "" && b != ""
    ensures (exists r, q :: SameKey(a, r, b, q)) <==> a + "|" <= b || b + "|" <= a
  {
    TextsCollideIff(a, b);
    forall r, q | SameKey(a, r, b, q) ensures KeyText(a, State(r)) == KeyText(b, State(q)) {
    }
    forall x, y | KeyText(a, x) == KeyText(b, y) ensures exists r, q :: SameKey(a, r, b, q) {
      assert SameKey(a, Rec(a, x, x, true), b, Rec(b, y, y, true));
    }
  }

  /** Records of these ids with the same key. */
  ghost predicate SameKey(a: string, r: Rec, b: string, q: Rec) {
    r.entityId == a && q.entityId == b && EmailKey(r) == EmailKey(q)
  }

  lemma TextsCollideIff(a: string, b: string)
    requires a != b
    ensures (exists x, y :: KeyText(a, x) == KeyText(b, y)) <==> a + "|" <= b || b + "|" <= a
  {
    forall x, y | KeyText(a, x) == KeyText(b, y) ensures a + "|" <= b || b + "|" <= a {
      var key := KeyText(a, x);
      assert key[|"email:"|..] == a + "|" + x && key[|"email:"|..] == b + "|" + y;
      if |a| < |b| { Begins(a, x, b, y); } else { Begins(b, y, a, x); }
    }
    if a + "|" <= b { Collision(a, b); }
    if b + "|" <= a { Collision(b, a); }
  }

  lemma Begins(a: string, x: string, b: string, y: string)
    requires a + "|" + x == b + "|" + y && |a| <= |b| && a != b
    ensures a + "|" <= b
  {
    var s := a + "|" + x;
    assert s[..|a|] == a && s[..|b|] == b;
    if |a| < |b| {
      assert (a + "|") == s[..|a| + 1] == b[..|a| + 1];
    }
  }

  lemma Collision(a: string, b: string)
    requires a + "|" <= b
    ensures KeyText(a, b[|a| + 1..] + "|") == KeyText(b, "")
  {
    var c := b[|a| + 1..];
    assert b == a + "|" + c;
    assert "email:" + a + "|" + (c + "|") == "email:" + b + "|" + "";
  }

  function RecordsOf(reply: Reply): seq<Rec> {
    if reply.Page? then reply.records else []
  }

  /** Every reply before the m-th is a page with records and a handle to go on with. */
  ghost predicate Scrolled(replies: seq<Reply>, m: nat)
    requires m <= |replies|
  {
    m == 0 || (Scrolled(replies, m - 1) && GoesOn(replies[m - 1]))
  }

  predicate GoesOn(reply: Reply) {
    reply.Page? && |reply.records| > 0 && |reply.scroll| > 0
  }

  ghost predicate NotStopped(stops: seq<bool>, wasStopped: bool, m: nat)
    requires m <= |stops|
  {
    forall q :: 0 <= q < m ==> !wasStopped && !stops[q]
  }

  /** The first `pages` pages have been worked through, and o is what came of it. */
  ghost predicate Scrolling(before: Dedup, replies: seq<Reply>, stops: seq<bool>, wasStopped: bool, pages: nat, o: Offered)
    requires pages <= |replies| == |stops|
  {
    && Scrolled(replies, pages) && NotStopped(stops, wasStopped, pages)
    && o == OfferPages(before, replies, pages) && PagesAccepted(before, replies, pages)
  }

  lemma ScrollingNext(before: Dedup, replies: seq<Reply>, stops: seq<bool>, wasStopped: bool, pages: nat, o: Offered)
    requires pages < |replies| == |stops| && Scrolling(before, replies, stops, wasStopped, pages, o)
    requires !wasStopped && !stops[pages] && GoesOn(replies[pages])
    requires var records := RecordsOf(replies[pages]); Accepted(o, records, |records|)
    ensures var records := RecordsOf(replies[pages]);
      Scrolling(before, replies, stops, wasStopped, pages + 1, OfferRecords(o, records, |records|))
  {
  }

  /** A supported poll that ended this way, having found the deduper `before` and the keys `base` shipped. */
  ghost predicate PollDone(before: Dedup, base: seq<string>, replies: seq<Reply>, stops: seq<bool>, wasStopped: bool,
                           outcome: Outcome, pages: nat, at: nat, after: Dedup, shipped: seq<string>, doStop: bool)
    requires |replies| == |stops| == MAX_PAGES
  {
    && pages < MAX_PAGES && EndsWith(replies, stops, true, wasStopped, outcome, pages, at)
    && shipped == base + OfferAll(before, replies, pages, at).news
    && doStop == (wasStopped || outcome == ShipFailed)
    && after == AfterPoll(before, replies, pages, at, outcome) && AllAccepted(before, replies, pages, at)
    && (outcome == ShipFailed ==> Rejected(OfferAll(before, replies, pages, at).d, RecordsOf(replies[pages])[at]))
    && (outcome == Complete ==>
          && replies[pages].Page? && at == |replies[pages].records|
          && (replies[pages].records == [] || replies[pages].scroll == ""))
  }

  /** What the page that ends the scroll adds. */
  lemma ScrollEnds(before: Dedup, replies: seq<Reply>, stops: seq<bool>, wasStopped: bool, outcome: Outcome, pages: nat, at: nat, o: Offered)
    requires pages < |replies| == |stops| == MAX_PAGES && Scrolling(before, replies, stops, wasStopped, pages, o)
    requires var reply := replies[pages];
      && at <= |RecordsOf(reply)| && PageOutcome(reply, wasStopped || stops[pages], at) == Some(outcome)
      && (outcome == Stopped || outcome == RequestFailed ==> at == 0) && Accepted(o, RecordsOf(reply), at)
    ensures EndsWith(replies, stops, true, wasStopped, outcome, pages, at)
    ensures OfferAll(before, replies, pages, at) == OfferRecords(o, RecordsOf(replies[pages]), at)
    ensures AllAccepted(before, replies, pages, at)
    ensures outcome == Complete ==>
      && replies[pages].Page? && at == |replies[pages].records|
      && (replies[pages].records == [] || replies[pages].scroll == "")
  {
  }

  /** A deduper after some records were offered to it in turn, and the keys it let through. */
  datatype Offered = Offered(d: Dedup, news: seq<string>)

  /** A record without a key is passed over, and so is one with a known key. */
  ghost function OfferRecord(o: Offered, rec: Rec): Offered {
    var key := EmailKey(rec);
    if key == "" || Known(o.d, key) then o else Offered(Admit(o.d, key), o.news + [key])
  }

  ghost function OfferRecords(o: Offered, records: seq<Rec>, m: nat): Offered
    requires m <= |records|
  {
    if m == 0 then o else OfferRecord(OfferRecords(o, records, m - 1), records[m - 1])
  }

  /** The first m pages. */
  ghost function OfferPages(d: Dedup, replies: seq<Reply>, m: nat): Offered
    requires m <= |replies|
  {
    if m == 0 then Offered(d, [])
    else OfferRecords(OfferPages(d, replies, m - 1), RecordsOf(replies[m - 1]), |RecordsOf(replies[m - 1])|)
  }

  /** The first m pages, and the first `at` records of the next one. */
  ghost function OfferAll(d: Dedup, replies: seq<Reply>, m: nat, at: nat): Offered
    requires m <= |replies| && (at > 0 ==> Reaches(replies, m, at))
  {
    if m == |replies| then OfferPages(d, replies, m) else OfferRecords(OfferPages(d, replies, m), RecordsOf(replies[m]), at)
  }

  ghost predicate Reaches(replies: seq<Reply>, pages: nat, at: nat) {
    pages < |replies| && at <= |RecordsOf(replies[pages])|
  }

  /** doStop is what this worker sets itself; others setting it shows in the `stop` of a page. */
  class EmailsWorker {
    const deduper: LocalDeduper
    var doStop: bool
    var shipped: seq<string>

    constructor (d: LocalDeduper)
      ensures deduper == d && !doStop && shipped == []
    {
      deduper, doStop, shipped := d, false, [];
    }

    /** One page: known keys are skipped, unknown ones admitted and shipped.  A failing shipper sets
        doStop and ends the poll at record `at`. */
    method ShipPage(records: seq<Rec>, ghost o: Offered, ghost base: seq<string>) returns (failed: bool, at: nat)
      requires deduper.Valid() && deduper.State() == o.d && shipped == base + o.news
      modifies this, deduper, deduper.windows
      ensures deduper.Valid() && at <= |records| && failed == (at < |records|)
      ensures shipped == base + OfferRecords(o, records, at).news
      ensures doStop == (old(doStop) || failed)
      ensures deduper.State() ==
        (var now := OfferRecords(o, records, at).d; if failed then Admit(now, EmailKey(records[at])) else now)
      ensures failed ==> Rejected(OfferRecords(o, records, at).d, records[at])
      ensures Accepted(o, records, at)
    {
      at := 0;
      while at < |records|
        invariant deduper.Valid() && at <= |records| && doStop == old(doStop)
        invariant deduper.State() == OfferRecords(o, records, at).d && Accepted(o, records, at)
        invariant shipped == base + OfferRecords(o, records, at).news
      {
        var key := EmailKey(records[at]);
        if key != "" {
          var alreadyExists := deduper.CheckAndAdd(key);
          if !alreadyExists {
            if !records[at].shipOk {
              doStop := true;
              return true, at;
            }
            shipped := shipped + [key];
          }
        }
        at := at + 1;
      }
      return false, at;
    }

    /** One turn of the page loop; `at` counts the records worked through. */
    method NextPage(reply: Reply, stop: bool, ghost o: Offered, ghost base: seq<string>) returns (outcome: Option<Outcome>, at: nat)
      requires deduper.Valid() && deduper.State() == o.d && shipped == base + o.news
      modifies this, deduper, deduper.windows
      ensures deduper.Valid() && outcome == PageOutcome(reply, old(doStop) || stop, at)
      ensures outcome.None? ==> GoesOn(reply)
      ensures outcome == Some(Stopped) || outcome == Some(RequestFailed) ==> at == 0
      ensures at <= |RecordsOf(reply)| && shipped == base + OfferRecords(o, RecordsOf(reply), at).news
      ensures doStop == (old(doStop) || outcome == Some(ShipFailed))
      ensures deduper.State() ==
        (var now := OfferRecords(o, RecordsOf(reply), at).d;
         if outcome == Some(ShipFailed) then Admit(now, EmailKey(RecordsOf(reply)[at])) else now)
      ensures outcome == Some(ShipFailed) ==> Rejected(OfferRecords(o, RecordsOf(reply), at).d, RecordsOf(reply)[at])
      ensures Accepted(o, RecordsOf(reply), at)
    {
      at := 0;
      if doStop || stop {
        return Some(Stopped), 0;
      }
      if reply.Failed? {
        return Some(RequestFailed), 0;
      }
      if |reply.records| == 0 {
        return Some(Complete), 0;
      }
      var failed;
      failed, at := ShipPage(reply.records, o, base);
      outcome := if failed then Some(ShipFailed) else if reply.scroll == "" then Some(Complete) else None;
    }

    /** One turn of the page loop: it ends the poll, or goes on to the next page. */
    method Turn(replies: seq<Reply>, stops: seq<bool>, pages: nat, ghost before: Dedup, ghost base: seq<string>, ghost wasStopped: bool,
                ghost o: Offered) returns (ended: Option<Outcome>, at: nat, ghost o': Offered)
      requires deduper.Valid() && pages < |replies| == |stops| == MAX_PAGES && doStop == wasStopped
      requires Scrolling(before, replies, stops, wasStopped, pages, o) && deduper.State() == o.d && shipped == base + o.news
      modifies this, deduper, deduper.windows
      ensures deduper.Valid()
      ensures ended.None? ==>
        && doStop == wasStopped && Scrolling(before, replies, stops, wasStopped, pages + 1, o')
        && deduper.State() == o'.d && shipped == base + o'.news
      ensures ended.Some? ==> PollDone(before, base, replies, stops, wasStopped, ended.value, pages, at, deduper.State(), shipped, doStop)
    {
      ended, at := NextPage(replies[pages], stops[pages], o, base);
      o' := OfferRecords(o, RecordsOf(replies[pages]), at);
      if ended.Some? {
        ScrollEnds(before, replies, stops, wasStopped, ended.value, pages, at, o);
      } else {
        ScrollingNext(before, replies, stops, wasStopped, pages, o);
      }
    }

    /** One poll: the scroll is followed page by page with the handle of the last reply.  It works
        through the first `pages` pages, and through `at` records of the next one. */
    method RunOneEmailsQuery(supported: bool, replies: seq<Reply>, stops: seq<bool>)
      returns (outcome: Outcome, pages: nat, at: nat)
      requires deduper.Valid() && |replies| == |stops| == MAX_PAGES
      modifies this, deduper, deduper.windows
      ensures deduper.Valid() && EndsWith(replies, stops, supported, old(doStop), outcome, pages, at)
      ensures shipped == old(shipped) + OfferAll(old(deduper.State()), replies, pages, at).news
      ensures doStop == (old(doStop) || outcome == ShipFailed)
      ensures deduper.State() == AfterPoll(old(deduper.State()), replies, pages, at, outcome)
      ensures outcome == ShipFailed ==>
        Rejected(OfferAll(old(deduper.State()), replies, pages, at).d, RecordsOf(replies[pages])[at])
      ensures AllAccepted(old(deduper.State()), replies, pages, at)
      ensures outcome == Complete ==>
        && pages < 1000 && replies[pages].Page? && at == |replies[pages].records|
        && (replies[pages].records == [] || replies[pages].scroll == "")
    {
      ghost var before, base, o, wasStopped := deduper.State(), shipped, Offered(deduper.State(), []), doStop;
      pages, at := 0, 0;
      if !supported {
        return UnsupportedSaas, 0, 0;
      }
      while pages < MAX_PAGES
        invariant pages <= MAX_PAGES && at == 0
        invariant deduper.Valid() && doStop == wasStopped && Scrolling(before, replies, stops, wasStopped, pages, o)
        invariant deduper.State() == o.d && shipped == base + o.news
      {
        var ended;
        ended, at, o := Turn(replies, stops, pages, before, base, wasStopped, o);
        if ended.Some? {
          return ended.value, pages, at;
        }
        pages, at := pages + 1, 0;
      }
      return TooManyPages, pages, 0;
    }

    /** What happens to the deduper between two polls. */
    method Wait(evs: seq<Happening>)
      requires deduper.Valid()
      modifies deduper, deduper.windows
      ensures deduper.Valid() && deduper.State() == Meantime(old(deduper.State()), evs)
    {
      for i := 0 to |evs|
        invariant deduper.Valid() && deduper.State() == Meantime(old(deduper.State()), evs[..i])
      {
        assert evs[..i + 1][..i] == evs[..i];
        match evs[i]
        case Rotation(_) => deduper.Rotate();
        case Offer(_, key, _) => var alreadyExists := deduper.CheckAndAdd(key);
      }
      assert evs[..|evs|] == evs;
    }

    /** The polling loop of one worker, for as long as there are rounds or until doStop. */
    method FetchEmailsForSaas(supported: bool, rounds: seq<Round>) returns (results: seq<Result>)
      requires deduper.Valid() && !doStop
      requires forall i :: 0 <= i < |rounds| ==> |rounds[i].replies| == |rounds[i].stops| == MAX_PAGES
      modifies this, deduper, deduper.windows
      ensures deduper.Valid() && |results| <= |rounds|
      ensures WorkerPolls(old(deduper.State()), supported, rounds, results, old(shipped), shipped, doStop)
      ensures |results| < |rounds| && !doStop ==> rounds[|results|].stopBefore || (|results| > 0 && rounds[|results| - 1].stopAfter)
      ensures forall i :: 0 <= i < |results| ==> !rounds[i].stopBefore && (i < |results| - 1 ==> !rounds[i].stopAfter)
    {
      results := [];
      ghost var before, base := deduper.State(), shipped;
      while |results| < |rounds| && !doStop
        invariant deduper.Valid() && |results| <= |rounds|
        invariant WorkerPolls(before, supported, rounds, results, base, shipped, doStop)
        invariant !doStop ==> deduper.State() == RunState(before, rounds, results, |results|)
        invariant forall i :: 0 <= i < |results| ==> !rounds[i].stopBefore && !rounds[i].stopAfter
      {
        var round := rounds[|results|];
        if round.stopBefore {
          return;
        }
        var result := OneRound(supported, rounds, results, before, base);
        results := results + [result];
        if round.stopAfter {
          return;
        }
      }
    }

    /** One poll, and the wait after it unless that is the end. */
    method OneRound(supported: bool, rounds: seq<Round>, results: seq<Result>, ghost before: Dedup, ghost base: seq<string>)
      returns (result: Result)
      requires deduper.Valid() && !doStop && |results| < |rounds|
      requires var round := rounds[|results|]; |round.replies| == |round.stops| == MAX_PAGES
      requires WorkerPolls(before, supported, rounds, results, base, shipped, false)
      requires deduper.State() == RunState(before, rounds, results, |results|)
      modifies this, deduper, deduper.windows
      ensures deduper.Valid() && WorkerPolls(before, supported, rounds, results + [result], base, shipped, doStop)
      ensures !doStop && !rounds[|results|].stopAfter ==>
        deduper.State() == RunState(before, rounds, results + [result], |results| + 1)
    {
      var round := rounds[|results|];
      ghost var d := deduper.State();
      var outcome, pages, at := RunOneEmailsQuery(supported, round.replies, round.stops);
      result := Result(outcome, pages, at);
      OneMorePoll(before, supported, rounds, results, result, base, base + RunNews(before, rounds, results, |results|), shipped);
      if !doStop && !round.stopAfter {
        Wait(round.meanwhile);
      }
    }
  }

  /** One turn of a worker's loop: doStop found set before or after the poll, the poll's replies, and what
      rotations and other workers do to the deduper until the next one. */
  datatype Round = Round(stopBefore: bool, replies: seq<Reply>, stops: seq<bool>, stopAfter: bool, meanwhile: seq<Happening>)

  datatype Result = Result(outcome: Outcome, pages: nat, at: nat)

  ghost function Meantime(d: Dedup, evs: seq<Happening>): Dedup {
    if evs == [] then d
    else
      var e := Meantime(d, evs[..|evs| - 1]);
      match evs[|evs| - 1]
      case Rotation(_) => Rotated(e)
      case Offer(_, key, _) => Admit(e, key)
  }

  /** The result is one that the replies allow. */
  ghost predicate Possible(round: Round, result: Result) {
    && result.pages <= |round.replies| && (result.at > 0 ==> Reaches(round.replies, result.pages, result.at))
    && (result.outcome == ShipFailed ==>
          result.pages < |round.replies| && result.at < |RecordsOf(round.replies[result.pages])|)
  }

  /** The deduper when the m-th poll begins. */
  ghost function RunState(d: Dedup, rounds: seq<Round>, results: seq<Result>, m: nat): Dedup
    requires m <= |results| <= |rounds|
  {
    if m == 0 then d
    else
      var round, result, e := rounds[m - 1], results[m - 1], RunState(d, rounds, results, m - 1);
      if Possible(round, result)
      then Meantime(AfterPoll(e, round.replies, result.pages, result.at, result.outcome), round.meanwhile) else e
  }

  /** What the first m polls ship. */
  ghost function RunNews(d: Dedup, rounds: seq<Round>, results: seq<Result>, m: nat): seq<string>
    requires m <= |results| <= |rounds|
  {
    if m == 0 then []
    else
      var round, result, e := rounds[m - 1], results[m - 1], RunState(d, rounds, results, m - 1);
      RunNews(d, rounds, results, m - 1)
      + if Possible(round, result) then OfferAll(e, round.replies, result.pages, result.at).news else []
  }

  /** A poll that finds the deduper d ends as its replies say. */
  ghost predicate Ended(d: Dedup, supported: bool, round: Round, result: Result) {
    && |round.replies| == |round.stops| == MAX_PAGES && Possible(round, result)
    && EndsWith(round.replies, round.stops, supported, false, result.outcome, result.pages, result.at)
    && AllAccepted(d, round.replies, result.pages, result.at)
    && (result.outcome == ShipFailed ==>
          Rejected(OfferAll(d, round.replies, result.pages, result.at).d, RecordsOf(round.replies[result.pages])[result.at]))
  }

  ghost predicate PollIs(d: Dedup, supported: bool, rounds: seq<Round>, results: seq<Result>, i: nat)
    requires i < |results| <= |rounds|
  {
    Ended(RunState(d, rounds, results, i), supported, rounds[i], results[i])
  }

  /** One more result changes nothing about the polls before. */
  lemma {:induction false} RunStateStays(d: Dedup, rounds: seq<Round>, results: seq<Result>, result: Result, m: nat)
    requires m <= |results| < |rounds|
    ensures RunState(d, rounds, results + [result], m) == RunState(d, rounds, results, m)
    ensures RunNews(d, rounds, results + [result], m) == RunNews(d, rounds, results, m)
  {
    if m > 0 { RunStateStays(d, rounds, results, result, m - 1); }
  }

  /** Every poll ended as its replies say, what they shipped has been added to `base`, and only the last
      one may have ended with a refused record, doStop being set then: of all keys a worker ever admits
      at most that one is not shipped. */
  ghost predicate WorkerPolls(d: Dedup, supported: bool, rounds: seq<Round>, results: seq<Result>, base: seq<string>, shipped: seq<string>,
                        doStop: bool)
    requires |results| <= |rounds|
  {
    && shipped == base + RunNews(d, rounds, results, |results|)
    && (forall i :: 0 <= i < |results| ==> PollIs(d, supported, rounds, results, i))
    && (forall i :: 0 <= i < |results| && results[i].outcome == ShipFailed ==> i == |results| - 1)
    && doStop == (|results| > 0 && results[|results| - 1].outcome == ShipFailed)
  }

  lemma OneMorePoll(d: Dedup, supported: bool, rounds: seq<Round>, results: seq<Result>, result: Result, base: seq<string>,
                    was: seq<string>, shipped: seq<string>)
    requires |results| < |rounds| && WorkerPolls(d, supported, rounds, results, base, was, false)
    requires Ended(RunState(d, rounds, results, |results|), supported, rounds[|results|], result)
    requires shipped == was + OfferAll(RunState(d, rounds, results, |results|), rounds[|results|].replies, result.pages, result.at).news
    ensures WorkerPolls(d, supported, rounds, results + [result], base, shipped, result.outcome == ShipFailed)
    ensures RunState(d, rounds, results + [result], |results|) == RunState(d, rounds, results, |results|)
  {
    var more := results + [result];
    RunStateStays(d, rounds, results, result, |results|);
    PollsStay(d, supported, rounds, results, result);
    NewsNext(d, rounds, results, result, base);
  }

  lemma NewsNext(d: Dedup, rounds: seq<Round>, results: seq<Result>, result: Result, base: seq<string>)
    requires |results| < |rounds| && Possible(rounds[|results|], result)
    ensures base + RunNews(d, rounds, results + [result], |results| + 1)
      == base + RunNews(d, rounds, results, |results|)
         + OfferAll(RunState(d, rounds, results, |results|), rounds[|results|].replies, result.pages, result.at).news
  {
    RunStateStays(d, rounds, results, result, |results|);
  }

  lemma PollsStay(d: Dedup, supported: bool, rounds: seq<Round>, results: seq<Result>, result: Result)
    requires |results| < |rounds| && forall i :: 0 <= i < |results| ==> PollIs(d, supported, rounds, results, i)
    requires Ended(RunState(d, rounds, results, |results|), supported, rounds[|results|], result)
    ensures forall i :: 0 <= i <= |results| ==> PollIs(d, supported, rounds, results + [result], i)
  {
    forall i | 0 <= i <= |results| ensures PollIs(d, supported, rounds, results + [result], i) {
      RunStateStays(d, rounds, results, result, i);
      assert i < |results| ==> PollIs(d, supported, rounds, results, i);
    }
  }

  /** How one turn of the page loop goes, having worked through `at` records. */
  ghost function PageOutcome(reply: Reply, stopped: bool, at: nat): Option<Outcome> {
    if stopped then Some(Stopped)
    else if reply.Failed? then Some(RequestFailed)
    else if |reply.records| == 0 then Some(Complete)
    else if at < |reply.records| then Some(ShipFailed)
    else if |reply.scroll| == 0 then Some(Complete)
    else None
  }

  /** A new record that the shipper refuses. */
  ghost predicate Rejected(d: Dedup, rec: Rec) {
    EmailKey(rec) != "" && !Known(d, EmailKey(rec)) && !rec.shipOk
  }

  /** The shipper refuses none of the first m records: had it refused one, the page would have ended there. */
  ghost predicate Accepted(o: Offered, records: seq<Rec>, m: nat)
    requires m <= |records|
  {
    m == 0 || (Accepted(o, records, m - 1) && !Rejected(OfferRecords(o, records, m - 1).d, records[m - 1]))
  }

  /** Nor any on the first m pages and of the first `at` records of the next one. */
  ghost predicate AllAccepted(d: Dedup, replies: seq<Reply>, m: nat, at: nat)
    requires m <= |replies| && (at > 0 ==> Reaches(replies, m, at))
  {
    PagesAccepted(d, replies, m) && (at > 0 ==> Accepted(OfferPages(d, replies, m), RecordsOf(replies[m]), at))
  }

  ghost predicate PagesAccepted(d: Dedup, replies: seq<Reply>, m: nat)
    requires m <= |replies|
  {
    m == 0
    || (PagesAccepted(d, replies, m - 1)
        && Accepted(OfferPages(d, replies, m - 1), RecordsOf(replies[m - 1]), |RecordsOf(replies[m - 1])|))
  }

  /** Record by record. */
  lemma {:induction false} AcceptedEach(o: Offered, records: seq<Rec>, m: nat, j: nat)
    requires j < m <= |records| && Accepted(o, records, m)
    ensures !Rejected(OfferRecords(o, records, j).d, records[j])
  {
    if j < m - 1 { AcceptedEach(o, records, m - 1, j); }
  }

  /** A rejected record's key has been admitted all the same. */
  ghost function AfterPoll(d: Dedup, replies: seq<Reply>, m: nat, at: nat, outcome: Outcome): Dedup
    requires m <= |replies| && (at > 0 ==> Reaches(replies, m, at))
    requires outcome == ShipFailed ==> m < |replies| && at < |RecordsOf(replies[m])|
  {
    var now := OfferAll(d, replies, m, at).d;
    if outcome == ShipFailed then Admit(now, EmailKey(RecordsOf(replies[m])[at])) else now
  }

  /** How a poll may end: by the outcome of the first page that has one, or by the page limit. */
  ghost predicate EndsWith(replies: seq<Reply>, stops: seq<bool>, supported: bool, wasStopped: bool,
                           outcome: Outcome, pages: nat, at: nat)
    requires |replies| == |stops| == MAX_PAGES
  {
    && pages <= MAX_PAGES && Scrolled(replies, pages) && NotStopped(stops, wasStopped, pages)
    && if !supported then outcome == UnsupportedSaas && pages == at == 0
       else if pages == MAX_PAGES then outcome == TooManyPages && at == 0
       else
         && at <= |RecordsOf(replies[pages])| && PageOutcome(replies[pages], wasStopped || stops[pages], at) == Some(outcome)
         && (outcome == Stopped || outcome == RequestFailed ==> at == 0)
  }

  lemma {:induction false} ScrolledEach(replies: seq<Reply>, m: nat, q: nat)
    requires q < m <= |replies| && Scrolled(replies, m)
    ensures replies[q].Page? && replies[q].records != [] && replies[q].scroll != ""
  {
    if q < m - 1 { ScrolledEach(replies, m - 1, q); }
  }

  /** WHEN A SCROLL IS OVER.  Every page before the last one had records and a handle, and doStop was not
      set.  A poll is complete only at a page without records or without a handle, of which it has worked
      through every record; and every other ending has its reason on that page, or in the page limit. */
  lemma PollEnds(replies: seq<Reply>, stops: seq<bool>, supported: bool, wasStopped: bool, outcome: Outcome, pages: nat, at: nat)
    requires |replies| == |stops| == MAX_PAGES && EndsWith(replies, stops, supported, wasStopped, outcome, pages, at)
    ensures forall q :: 0 <= q < pages ==>
      supported && !wasStopped && !stops[q] && replies[q].Page? && replies[q].records != [] && replies[q].scroll != ""
    ensures outcome == UnsupportedSaas <==> !supported
    ensures outcome == TooManyPages <==> supported && pages == 1000
    ensures outcome == Complete ==>
      && pages < 1000 && !wasStopped && !stops[pages] && replies[pages].Page? && at == |replies[pages].records|
      && (replies[pages].records == [] || replies[pages].scroll == "")
    ensures outcome == Stopped ==> pages < 1000 && at == 0 && (wasStopped || stops[pages])
    ensures outcome == RequestFailed ==> pages < 1000 && at == 0 && replies[pages].Failed?
    ensures outcome == ShipFailed ==> pages < 1000 && replies[pages].Page? && at < |replies[pages].records|
  {
    forall q | 0 <= q < pages ensures replies[q].Page? && replies[q].records != [] && replies[q].scroll != "" {
      ScrolledEach(replies, pages, q);
    }
  }

  /** NOTHING LEFT UNREAD.  If the gateway answers m pages with records and a handle and then ends the
      scroll, with a page that may have records but no handle or with an empty one, a poll that is not
      stopped, failed or refused is complete, and every key on any of these pages is known afterwards. */
  lemma ScrollRead(before: Dedup, replies: seq<Reply>, stops: seq<bool>, wasStopped: bool, outcome: Outcome, pages: nat, at: nat,
                   m: nat, q: nat, j: nat)
    requires |replies| == |stops| == MAX_PAGES && EndsWith(replies, stops, true, wasStopped, outcome, pages, at)
    requires outcome == Complete || outcome == TooManyPages
    requires m < 1000 && replies[m].Page? && (replies[m].records == [] || replies[m].scroll == "")
    requires forall i :: 0 <= i < m ==> replies[i].Page? && replies[i].records != [] && replies[i].scroll != ""
    requires before.n >= 1 && q <= m && j < |replies[q].records| && EmailKey(replies[q].records[j]) != ""
    ensures outcome == Complete && pages == m && at == |replies[m].records|
    ensures Known(OfferAll(before, replies, pages, at).d, EmailKey(replies[q].records[j]))
    ensures EmailKey(replies[q].records[j]) in OfferAll(before, replies, pages, at).news <==> !Known(before, EmailKey(replies[q].records[j]))
  {
    PollEnds(replies, stops, true, wasStopped, outcome, pages, at);
    PollShipsTheNew(before, replies, pages, at);
    var key := EmailKey(replies[q].records[j]);
    assert HasKey(RecordsOf(replies[q]), |RecordsOf(replies[q])|, key);
    assert Read(replies, pages, at, key);
  }

  ghost predicate HasKey(records: seq<Rec>, m: nat, key: string)
    requires m <= |records|
  {
    exists i :: 0 <= i < m && key == EmailKey(records[i]) != ""
  }

  /** The key of a record that was worked through. */
  ghost predicate Read(replies: seq<Reply>, m: nat, at: nat, key: string)
    requires m <= |replies| && (at > 0 ==> Reaches(replies, m, at))
  {
    || (exists p :: 0 <= p < m && HasKey(RecordsOf(replies[p]), |RecordsOf(replies[p])|, key))
    || (at > 0 && HasKey(RecordsOf(replies[m]), at, key))
  }

  /** Of the keys in `read`, those unknown before were let through, each once, and nothing else was;
      all of them are known now, and nothing else became so. */
  ghost predicate NewOnes(before: Dedup, read: string -> bool, o: Offered) {
    && o.d.n == before.n >= 1
    && Distinct(o.news)
    && (forall k :: k in o.news <==> read(k) && !Known(before, k))
    && (forall k :: Known(o.d, k) <==> Known(before, k) || read(k))
  }

  lemma OfferRecordMeans(before: Dedup, read: string -> bool, read': string -> bool, o: Offered, rec: Rec)
    requires NewOnes(before, read, o)
    requires forall k :: read'(k) <==> read(k) || k == EmailKey(rec) != ""
    ensures NewOnes(before, read', OfferRecord(o, rec))
  {
  }

  lemma {:induction false} OfferRecordsMeans(before: Dedup, read: string -> bool, read': string -> bool, o: Offered,
                                             records: seq<Rec>, m: nat)
    requires NewOnes(before, read, o) && m <= |records|
    requires forall k :: read'(k) <==> read(k) || HasKey(records, m, k)
    ensures NewOnes(before, read', OfferRecords(o, records, m))
  {
    if m > 0 {
      var mid := (k: string) => read(k) || HasKey(records, m - 1, k);
      OfferRecordsMeans(before, read, mid, o, records, m - 1);
      OfferRecordMeans(before, mid, read', OfferRecords(o, records, m - 1), records[m - 1]);
    }
  }

  lemma {:induction false} OfferPagesMeans(before: Dedup, replies: seq<Reply>, m: nat)
    requires before.n >= 1 && m <= |replies|
    ensures NewOnes(before, k => Read(replies, m, 0, k), OfferPages(before, replies, m))
  {
    if m > 0 {
      OfferPagesMeans(before, replies, m - 1);
      OfferRecordsMeans(before, k => Read(replies, m - 1, 0, k), k => Read(replies, m, 0, k), OfferPages(before, replies, m - 1),
                        RecordsOf(replies[m - 1]), |RecordsOf(replies[m - 1])|);
    }
  }

  /** EXACTLY THE NEW ONES, ONCE.  Whatever ended the poll, the keys it read and did not know before
      were shipped once each, apart from the one lost to a failing shipper, and no other key was. */
  lemma PollShipsTheNew(before: Dedup, replies: seq<Reply>, m: nat, at: nat)
    requires before.n >= 1 && m <= |replies| && (at > 0 ==> Reaches(replies, m, at))
    ensures NewOnes(before, k => Read(replies, m, at, k), OfferAll(before, replies, m, at))
  {
    OfferPagesMeans(before, replies, m);
    if at > 0 {
      OfferRecordsMeans(before, k => Read(replies, m, 0, k), k => Read(replies, m, at, k), OfferPages(before, replies, m),
                        RecordsOf(replies[m]), at);
    }
  }

  // ----- All polls -----------------------------------------------------------------------------

  /** EmailsConfig.Start: the number of buckets for a lookback (harmony/client.go:257-272). */
  function SizedBuckets(lookback: int): Sizing {
    BucketCount(HOUR, if lookback + HOUR < 24 * HOUR then 24 * HOUR else lookback + HOUR)
  }

  /** Offers made by polls with this lookback.  The key fixes when the entity got into that state,
      `stamp`: not after it is offered, and not before the second in which the queried window starts;
      a record is worked through at most `delay` after its poll began. */
  ghost predicate Polls(lookback: int, delay: int, stamp: map<string, int>, evs: seq<Happening>) {
    forall i :: 0 <= i < |evs| && evs[i].Offer? ==> Polled(lookback, delay, stamp, evs[i])
  }

  ghost predicate Polled(lookback: int, delay: int, stamp: map<string, int>, e: Happening)
    requires e.Offer?
  {
    && e.start <= e.t <= e.start + delay
    && e.key in stamp && FloorSec(e.start - lookback) <= stamp[e.key] <= e.t
  }

  lemma {:induction false} AdmittedStays(n: nat, evs: seq<Happening>, i: nat, m: nat)
    requires i < m <= |evs| && Admitted(n, evs, i)
    ensures evs[i].key in Play(n, evs[..m]).last
    decreases m
  {
    assert evs[..m][..m - 1] == evs[..m - 1];
    if i < m - 1 { AdmittedStays(n, evs, i, m - 1); }
  }

  /** NO DUPLICATES.  While lookback, one second and the working time fit into all windows but one, no
      key is let through twice, over any run with any interleaving of workers and rotations. */
  lemma NoDuplicates(lookback: int, delay: int, n: nat, stamp: map<string, int>, evs: seq<Happening>, i: nat, j: nat)
    requires Timely(HOUR, evs) && Polls(lookback, delay, stamp, evs) && n >= 1
    requires lookback + SEC + delay <= (n - 1) * HOUR
    requires i < j < |evs| && Admitted(n, evs, i) && Admitted(n, evs, j)
    ensures evs[i].key != evs[j].key
  {
    if evs[i].key == evs[j].key {
      var key := evs[j].key;
      AdmittedStays(n, evs, i, j);
      TimelyPrefix(HOUR, evs, j);
      var a := AdmittedBy(n, evs[..j], key);
      assert evs[..j][a] == evs[a];
      assert Polled(lookback, delay, stamp, evs[a]) && Polled(lookback, delay, stamp, evs[j]);
      Retained(n, HOUR, evs[..j], key, evs[j].t);
      assert false;
    }
  }

  /** Rotations exactly a window apart, the first right after the only admission. */
  function Rotations(r: nat): seq<Happening> {
    seq(r, (i: nat) => Rotation(i * HOUR))
  }

  lemma {:induction false} PlayRotations(n: nat, key: string, r: nat)
    ensures Play(n, [Offer(0, key, 0)] + Rotations(r)) == Dedup(n, r, map[key := 0])
  {
    var evs := [Offer(0, key, 0)] + Rotations(r);
    if r == 0 {
      assert evs == [Offer(0, key, 0)] && evs[..0] == [];
    } else {
      PlayRotations(n, key, r - 1);
      assert evs[..|evs| - 1] == [Offer(0, key, 0)] + Rotations(r - 1);
    }
  }

  ghost function DuplicateRun(n: nat, key: string, start: int): seq<Happening>
    requires n >= 1
  {
    [Offer(0, key, 0)] + Rotations(n) + [Offer((n - 1) * HOUR, key, start)]
  }

  lemma HoursApart(i: nat, j: nat)
    requires i < j
    ensures i * HOUR + HOUR <= j * HOUR
  {
  }

  lemma DuplicateRunTimely(n: nat, key: string, start: int)
    requires n >= 1
    ensures Timely(HOUR, DuplicateRun(n, key, start))
  {
    var evs := DuplicateRun(n, key, start);
    forall i, j | 0 <= i < j < |evs|
      ensures evs[i].t <= evs[j].t && (evs[i].Rotation? && evs[j].Rotation? ==> evs[i].t + HOUR <= evs[j].t)
    {
      if 0 < i && j <= n {
        HoursApart(i - 1, j - 1);
      } else if 0 < i < n {
        HoursApart(i - 1, n - 1);
      }
    }
  }

  /** Otherwise some run ships a key twice. */
  lemma DuplicatePossible(lookback: int, delay: int, n: nat)
    requires n >= 1 && lookback >= 0 && delay >= 0 && lookback + SEC + delay > (n - 1) * HOUR
    ensures exists stamp, evs, i, j :: Duplicate(lookback, delay, n, stamp, evs, i, j)
  {
    var span := (n - 1) * HOUR;
    var start := if delay >= span then 0 else span - delay;
    var key := "email:id|state";
    var stamp := map[key := 0];
    var evs := DuplicateRun(n, key, start);
    DuplicateRunTimely(n, key, start);
    assert start - lookback < SEC;
    assert FloorSec(start - lookback) <= 0 && FloorSec(0 - lookback) <= 0;
    assert evs[0] == Offer(0, key, 0) && evs[n + 1] == Offer(span, key, start);
    assert Polls(lookback, delay, stamp, evs);
    assert evs[..0] == [] && evs[..n + 1] == [Offer(0, key, 0)] + Rotations(n);
    PlayRotations(n, key, n);
    assert Admitted(n, evs, 0) && Admitted(n, evs, n + 1);
    assert Duplicate(lookback, delay, n, stamp, evs, 0, n + 1);
  }

  /** A legal run in which the deduper lets the same key through twice. */
  ghost predicate Duplicate(lookback: int, delay: int, n: nat, stamp: map<string, int>, evs: seq<Happening>, i: nat, j: nat) {
    && Timely(HOUR, evs) && Polls(lookback, delay, stamp, evs)
    && i < j < |evs| && Admitted(n, evs, i) && Admitted(n, evs, j) && evs[i].key == evs[j].key
  }

  /** SHIPPED ONCE, EXACTLY WHEN.  With n hourly buckets no run ships a key twice if and only if
      lookback, one second and the working time fit into n - 1 hours. */
  lemma ShippedOnceIff(lookback: int, delay: int, n: nat)
    requires n >= 1 && lookback >= 0 && delay >= 0
    ensures (forall stamp, evs, i, j :: !Duplicate(lookback, delay, n, stamp, evs, i, j))
       <==> lookback + SEC + delay <= (n - 1) * HOUR
  {
    if lookback + SEC + delay <= (n - 1) * HOUR {
      forall stamp, evs, i: nat, j: nat ensures !Duplicate(lookback, delay, n, stamp, evs, i, j) {
        if Duplicate(lookback, delay, n, stamp, evs, i, j) {
          NoDuplicates(lookback, delay, n, stamp, evs, i, j);
        }
      }
    } else {
      DuplicatePossible(lookback, delay, n);
    }
  }

  /** The sizing of Start meets that condition exactly for lookbacks that leave 23 hours; for longer
      ones the extra hour it adds does not help. */
  lemma SizingCoversIff(lookback: int, delay: int)
    requires lookback > 0 && delay >= 0
    ensures SizedBuckets(lookback).Buckets?
    ensures lookback + SEC + delay <= (SizedBuckets(lookback).n - 1) * HOUR <==> lookback + SEC + delay <= 23 * HOUR
  {
    if lookback + HOUR < 24 * HOUR {
      assert Quot(24 * HOUR, HOUR) == 24;
    } else {
      var q := (lookback + HOUR) / HOUR;
      assert Quot(lookback + HOUR, HOUR) == q;
      assert q * HOUR <= lookback + HOUR;
    }
  }
}
