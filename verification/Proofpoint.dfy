/** The Proofpoint TAP adapter's polling loop over its two sliding dedupe maps (proofpoint_tap/client.go). */
module Proofpoint {
  import opened Times
  import opened SlidingDedupe

  const OVERLAP := 2 * MINUTE

  datatype Reply =
    | Failed
    | Response(queryEndTime: int, delivered: seq<Item>, blocked: seq<Item>, permitted: seq<Item>, clicksBlocked: seq<Item>)

  function Messages(reply: Reply): seq<Item> {
    if reply.Failed? then [] else reply.delivered + reply.blocked
  }

  function Clicks(reply: Reply): seq<Item> {
    if reply.Failed? then [] else reply.permitted + reply.clicksBlocked
  }

  datatype EventType = MessageDelivered | MessageBlocked | ClickPermitted | ClickBlocked

  predicate IsMessage(eventType: EventType) {
    eventType.MessageDelivered? || eventType.MessageBlocked?
  }

  function ListOf(reply: Reply, eventType: EventType): seq<Item> {
    if reply.Failed? then []
    else
      match eventType
      case MessageDelivered => reply.delivered
      case MessageBlocked => reply.blocked
      case ClickPermitted => reply.permitted
      case ClickBlocked => reply.clicksBlocked
  }

  /** The messages are those delivered and those blocked, the clicks those permitted and those blocked, and
      each of the four tags stands for one of these lists. */
  lemma ListsAre(reply: Reply)
    requires reply.Response?
    ensures Messages(reply) == ListOf(reply, MessageDelivered) + ListOf(reply, MessageBlocked)
    ensures Clicks(reply) == ListOf(reply, ClickPermitted) + ListOf(reply, ClickBlocked)
    ensures ListOf(reply, MessageDelivered) == reply.delivered && ListOf(reply, MessageBlocked) == reply.blocked
    ensures ListOf(reply, ClickPermitted) == reply.permitted && ListOf(reply, ClickBlocked) == reply.clicksBlocked
  {
  }

  /** An event as shipped, tagged with the list it came from. */
  datatype Tagged = Tagged(item: Item, eventType: EventType)

  function Tag(items: seq<Item>, eventType: EventType): (r: seq<Tagged>)
    ensures |r| == |items|
  {
    seq(|items|, i requires 0 <= i < |items| => Tagged(items[i], eventType))
  }

  /** The messages, or else the clicks, among events shipped. */
  ghost function Untag(shipped: seq<Tagged>, message: bool): seq<Item> {
    if shipped == [] then []
    else
      var last := shipped[|shipped| - 1];
      Untag(shipped[..|shipped| - 1], message) + if IsMessage(last.eventType) == message then [last.item] else []
  }

  lemma {:induction false} UntagAppend(xs: seq<Tagged>, ys: seq<Tagged>, message: bool)
    ensures Untag(xs + ys, message) == Untag(xs, message) + Untag(ys, message)
  {
    if ys == [] {
      assert xs + ys == xs;
    } else {
      var front := ys[..|ys| - 1];
      assert (xs + ys)[..|xs + ys| - 1] == xs + front;
      UntagAppend(xs, front, message);
    }
  }

  lemma {:induction false} UntagTag(items: seq<Item>, eventType: EventType, message: bool)
    ensures Untag(Tag(items, eventType), message) == if IsMessage(eventType) == message then items else []
  {
    if items != [] {
      var front := items[..|items| - 1];
      assert Tag(items, eventType)[..|items| - 1] == Tag(front, eventType);
      UntagTag(front, eventType, message);
    }
  }

  lemma UntagBoth(messageNews: seq<Tagged>, clickNews: seq<Tagged>)
    requires Untag(messageNews, false) == [] && Untag(clickNews, true) == []
    ensures Untag(messageNews + clickNews, true) == Untag(messageNews, true)
    ensures Untag(messageNews + clickNews, false) == Untag(clickNews, false)
  {
    UntagAppend(messageNews, clickNews, true);
    UntagAppend(messageNews, clickNews, false);
  }

  /** Tags say which list an event comes from. */
  lemma TagsRight(plain1: seq<Item>, plain2: seq<Item>, type1: EventType, type2: EventType, first: seq<Item>, second: seq<Item>)
    requires forall item :: item in plain1 ==> item in first
    requires forall item :: item in plain2 ==> item in second
    ensures forall t :: t in Tag(plain1, type1) + Tag(plain2, type2) ==>
      (t.eventType == type1 && t.item in first) || (t.eventType == type2 && t.item in second)
  {
  }

  lemma BothLists(seen: set<string>, first: seq<Item>, second: seq<Item>, plain1: seq<Item>, plain2: seq<Item>)
    requires Keyed(plain1) == NewItems(seen, first) && Keyed(plain2) == NewItems(seen + Ids(first), second)
    ensures seen + Ids(first) + Ids(second) == seen + Ids(first + second)
    ensures Keyed(plain1 + plain2) == NewItems(seen, first + second)
  {
    IdsAppend(first, second);
    NewItemsAppend(seen, first, second);
    KeyedAppend(plain1, plain2);
  }

  lemma OneKind(plain1: seq<Item>, plain2: seq<Item>, type1: EventType, type2: EventType, message: bool)
    requires IsMessage(type1) == IsMessage(type2)
    ensures Untag(Tag(plain1, type1) + Tag(plain2, type2), message) == if IsMessage(type1) == message then plain1 + plain2 else []
  {
    UntagAppend(Tag(plain1, type1), Tag(plain2, type2), message);
    UntagTag(plain1, type1, message);
    UntagTag(plain2, type2, message);
  }

  /** What the server promises for events between `start` and `end`, in seconds: no others, and an end
      of query that does not go back behind the overlap. */
  ghost predicate HonestReply(reply: Reply, start: int, end: int, messageTime: string -> int, clickTime: string -> int) {
    reply.Response? ==>
      && Within(reply.delivered, start, end * SEC, messageTime) && Within(reply.blocked, start, end * SEC, messageTime)
      && Within(reply.permitted, start, end * SEC, clickTime) && Within(reply.clicksBlocked, start, end * SEC, clickTime)
      && reply.queryEndTime >= start * SEC + OVERLAP
  }

  ghost predicate Honest(server: (int, int) -> Reply, messageTime: string -> int, clickTime: string -> int) {
    forall start, end :: HonestReply(server(start, end), start, end, messageTime, clickTime)
  }

  ghost predicate Within(items: seq<Item>, start: int, latest: int, time: string -> int) {
    Returned(items, start, time) && forall i :: 0 <= i < |items| ==> items[i].time <= latest
  }

  lemma WithinWider(items: seq<Item>, start: int, start': int, latest: int, latest': int, time: string -> int)
    requires Within(items, start, latest, time) && start' <= start && latest <= latest'
    ensures Within(items, start', latest', time)
  {
  }

  /** Where a request ends: at now, or an hour after the start less a minute if that is more than an hour.
      So no interval is longer than the hour that is allowed, and after an outage each one but the last is
      59 minutes long. */
  function IntervalEnd(sinceWithOverlap: int, now: int): (end: int)
    ensures end <= now && end - sinceWithOverlap <= 60 * MINUTE
    ensures end < now ==> end - sinceWithOverlap == 59 * MINUTE
  {
    if now - sinceWithOverlap > 60 * MINUTE then sinceWithOverlap + 59 * MINUTE else now
  }

  method Cull(dedupe: map<string, int>, threshold: int) returns (culled: map<string, int>)
    ensures culled == map k | k in dedupe && dedupe[k] >= threshold :: dedupe[k]
  {
    culled := dedupe;
    var keys := dedupe.Keys;
    while keys != {}
      invariant keys <= culled.Keys <= dedupe.Keys
      invariant forall k :: k in culled ==> culled[k] == dedupe[k]
      invariant forall k :: k in dedupe && k !in keys ==> (k in culled <==> dedupe[k] >= threshold)
      decreases keys
    {
      var k :| k in keys;
      if culled[k] < threshold {
        culled := culled - {k};
      }
      keys := keys - {k};
    }
  }

  ghost predicate Culled(dedupe: map<string, int>, threshold: int) {
    forall k :: k in dedupe ==> dedupe[k] >= threshold
  }

  class ProofpointTapAdapter {
    const clock: nat -> int
    var tick: nat
    var messageDedupe: map<string, int>
    var clickDedupe: map<string, int>
    var doStop: bool
    var shipped: seq<Tagged>
    ghost const messageTime: string -> int
    ghost const clickTime: string -> int
    ghost var messages: set<string>
    ghost var clicks: set<string>
    ghost var cut: int

    /** The clock never goes back; each map stands in for the set of all ids of its kind returned so
        far, as far as events not before `cut` go. */
    ghost predicate Valid()
      reads this
    {
      && (forall i: nat, j: nat :: i <= j ==> clock(i) <= clock(j))
      && Remembers(messageDedupe, messages, cut, messageTime)
      && Remembers(clickDedupe, clicks, cut, clickTime)
    }

    constructor (clock: nat -> int, ghost messageTime: string -> int, ghost clickTime: string -> int)
      requires forall i: nat, j: nat :: i <= j ==> clock(i) <= clock(j)
      ensures Valid() && messages == {} && clicks == {} && shipped == [] && !doStop
      ensures cut <= Unix(clock(tick) - OVERLAP)
    {
      this.clock, this.messageTime, this.clickTime := clock, messageTime, clickTime;
      tick, messageDedupe, clickDedupe, doStop, shipped := 0, map[], map[], false, [];
      messages, clicks, cut := {}, {}, Unix(clock(0) - OVERLAP);
    }

    method Now() returns (t: int)
      modifies this`tick
      ensures t == clock(old(tick)) && tick == old(tick) + 1
    {
      t := clock(tick);
      tick := tick + 1;
    }

    /** Ids already in the map are passed over; the others enter it with the second they enter it. */
    method Offer(dedupe: map<string, int>, items: seq<Item>, eventType: EventType, ghost seen: set<string>, ghost time: string -> int)
      returns (dedupe': map<string, int>, newItems: seq<Tagged>, ghost plain: seq<Item>)
      requires Valid() && Remembers(dedupe, seen, cut, time) && Within(items, cut, clock(tick), time)
      modifies this`tick
      ensures Valid() && tick >= old(tick) && Remembers(dedupe', seen + Ids(items), cut, time)
      ensures newItems == Tag(plain, eventType) && Keyed(plain) == NewItems(seen, items)
      ensures forall item :: item in plain ==> item in items
    {
      dedupe', newItems, plain := dedupe, [], [];
      ghost var seen' := seen;
      for m := 0 to |items|
        invariant Valid() && tick >= old(tick) && newItems == Tag(plain, eventType)
        invariant Offering(seen, items, m, plain, dedupe', seen', cut, time)
        invariant forall item :: item in plain ==> item in items
      {
        var item := items[m];
        if item.id in dedupe' {
          OfferNext(seen, items, m, plain, dedupe', seen', cut, time, Unix(item.time));
        } else {
          var now := Now();
          OfferNext(seen, items, m, plain, dedupe', seen', cut, time, Unix(now));
          dedupe' := dedupe'[item.id := Unix(now)];
          newItems := newItems + [Tagged(item, eventType)];
          plain := plain + [item];
        }
        seen' := SeenAlso(seen', item);
      }
      assert items[..|items|] == items;
    }

    /** Two lists of one kind go through one map; then the map is culled. */
    method OfferBoth(dedupe: map<string, int>, first: seq<Item>, type1: EventType, second: seq<Item>, type2: EventType,
                     threshold: int, ghost seen: set<string>, ghost time: string -> int)
      returns (dedupe': map<string, int>, newItems: seq<Tagged>, ghost plain: seq<Item>)
      requires Valid() && Remembers(dedupe, seen, cut, time) && cut == threshold && IsMessage(type1) == IsMessage(type2)
      requires Within(first, cut, clock(tick), time) && Within(second, cut, clock(tick), time)
      modifies this`tick
      ensures Valid() && tick >= old(tick) && Remembers(dedupe', seen + Ids(first + second), cut, time)
      ensures Keyed(plain) == NewItems(seen, first + second) && Culled(dedupe', threshold)
      ensures Untag(newItems, IsMessage(type1)) == plain && Untag(newItems, !IsMessage(type1)) == []
      ensures forall t :: t in newItems ==> (t.eventType == type1 && t.item in first) || (t.eventType == type2 && t.item in second)
    {
      var news1, news2;
      ghost var plain1, plain2;
      dedupe', news1, plain1 := Offer(dedupe, first, type1, seen, time);
      WithinWider(second, cut, cut, clock(old(tick)), clock(tick), time);
      dedupe', news2, plain2 := Offer(dedupe', second, type2, seen + Ids(first), time);
      ghost var full := dedupe';
      dedupe' := Cull(dedupe', threshold);
      newItems, plain := news1 + news2, plain1 + plain2;
      BothLists(seen, first, second, plain1, plain2);
      OneKind(plain1, plain2, type1, type2, IsMessage(type1));
      OneKind(plain1, plain2, type1, type2, !IsMessage(type1));
      TagsRight(plain1, plain2, type1, type2, first, second);
      CullRemembers(full, dedupe', seen + Ids(first + second), cut, cut, time);
    }

    method OfferMessages(reply: Reply, threshold: int) returns (newItems: seq<Tagged>)
      requires Valid() && cut == threshold && reply.Response?
      requires Within(reply.delivered, cut, clock(tick), messageTime) && Within(reply.blocked, cut, clock(tick), messageTime)
      modifies this`messageDedupe, this`messages, this`tick
      ensures Valid() && tick >= old(tick) && messages == old(messages) + Ids(Messages(reply))
      ensures Keyed(Untag(newItems, true)) == NewItems(old(messages), Messages(reply)) && Untag(newItems, false) == []
      ensures Culled(messageDedupe, threshold)
      ensures forall t :: t in newItems ==> t.item in ListOf(reply, t.eventType)
    {
      ghost var plain;
      messageDedupe, newItems, plain :=
        OfferBoth(messageDedupe, reply.delivered, MessageDelivered, reply.blocked, MessageBlocked, threshold, messages, messageTime);
      messages := messages + Ids(Messages(reply));
    }

    method OfferClicks(reply: Reply, threshold: int) returns (newItems: seq<Tagged>)
      requires Valid() && cut == threshold && reply.Response?
      requires Within(reply.permitted, cut, clock(tick), clickTime) && Within(reply.clicksBlocked, cut, clock(tick), clickTime)
      modifies this`clickDedupe, this`clicks, this`tick
      ensures Valid() && tick >= old(tick) && clicks == old(clicks) + Ids(Clicks(reply))
      ensures Keyed(Untag(newItems, false)) == NewItems(old(clicks), Clicks(reply)) && Untag(newItems, true) == []
      ensures Culled(clickDedupe, threshold)
      ensures forall t :: t in newItems ==> t.item in ListOf(reply, t.eventType)
    {
      ghost var plain;
      clickDedupe, newItems, plain :=
        OfferBoth(clickDedupe, reply.permitted, ClickPermitted, reply.clicksBlocked, ClickBlocked, threshold, clicks, clickTime);
      clicks := clicks + Ids(Clicks(reply));
    }

    /** From here on no event before the request's start comes back. */
    ghost method RaiseCut(threshold: int)
      requires Valid() && cut <= threshold
      modifies this`cut
      ensures Valid() && cut == threshold
    {
      CullRemembers(messageDedupe, messageDedupe, messages, cut, threshold, messageTime);
      CullRemembers(clickDedupe, clickDedupe, clicks, cut, threshold, clickTime);
      cut := threshold;
    }

    /** One request.  Provided the server keeps its word, the messages and the clicks that come out are
        those that sets which never forget would let through, each with the tag of its list. */
    method MakeOneRequest(since: int, server: (int, int) -> Reply) returns (newItems: seq<Tagged>, newSince: int, ghost reply: Reply)
      requires Valid() && cut <= Unix(since - OVERLAP)
      requires Honest(server, messageTime, clickTime)
      modifies this`messageDedupe, this`clickDedupe, this`messages, this`clicks, this`cut, this`tick
      ensures Valid() && cut <= Unix(newSince - OVERLAP)
      ensures reply == ReplyAt(server, since, clock(old(tick))) && newSince == Since(since, reply) && tick > old(tick)
      ensures var now, begin := clock(old(tick)), since - 2 * MINUTE;
        reply == server(Unix(begin), if now - begin > 60 * MINUTE then Unix(begin + 59 * MINUTE) else Unix(now))
      ensures newSince == if reply.Failed? then since else reply.queryEndTime
      ensures reply.Response? ==>
        Culled(messageDedupe, Unix(since - 2 * MINUTE)) && Culled(clickDedupe, Unix(since - 2 * MINUTE))
      ensures messages == old(messages) + Ids(Messages(reply)) && clicks == old(clicks) + Ids(Clicks(reply))
      ensures Keyed(Untag(newItems, true)) == NewItems(old(messages), Messages(reply))
      ensures Keyed(Untag(newItems, false)) == NewItems(old(clicks), Clicks(reply))
      ensures forall t :: t in newItems ==> t.item in ListOf(reply, t.eventType)
    {
      var answer, threshold, end := Ask(since, server);
      reply := answer;
      if answer.Failed? {
        return [], since, reply;
      }
      newItems := OfferReply(answer, threshold, end);
      newSince := answer.queryEndTime;
      SinceMoves(threshold, newSince);
    }

    /** The request itself. */
    method Ask(since: int, server: (int, int) -> Reply) returns (answer: Reply, threshold: int, end: int)
      requires Valid() && Honest(server, messageTime, clickTime)
      modifies this`tick
      ensures Valid() && tick == old(tick) + 1 && threshold == Unix(since - OVERLAP) && end * SEC <= clock(tick)
      ensures answer == server(threshold, end) == ReplyAt(server, since, clock(old(tick)))
      ensures var now, begin := clock(old(tick)), since - 2 * MINUTE;
        answer == server(Unix(begin), if now - begin > 60 * MINUTE then Unix(begin + 59 * MINUTE) else Unix(now))
      ensures HonestReply(answer, threshold, end, messageTime, clickTime)
    {
      threshold := Unix(since - OVERLAP);
      var now := Now();
      end := Unix(IntervalEnd(since - OVERLAP, now));
      answer := server(threshold, end);
    }

    /** The messages and then the clicks of an answered request. */
    method OfferReply(reply: Reply, start: int, end: int) returns (newItems: seq<Tagged>)
      requires Valid() && cut <= start && reply.Response? && end * SEC <= clock(tick)
      requires HonestReply(reply, start, end, messageTime, clickTime)
      modifies this`messageDedupe, this`clickDedupe, this`messages, this`clicks, this`cut, this`tick
      ensures Valid() && cut == start && tick >= old(tick)
      ensures messages == old(messages) + Ids(Messages(reply)) && clicks == old(clicks) + Ids(Clicks(reply))
      ensures Keyed(Untag(newItems, true)) == NewItems(old(messages), Messages(reply))
      ensures Keyed(Untag(newItems, false)) == NewItems(old(clicks), Clicks(reply))
      ensures forall t :: t in newItems ==> t.item in ListOf(reply, t.eventType)
      ensures Culled(messageDedupe, start) && Culled(clickDedupe, start)
    {
      RaiseCut(start);
      AllWithin(reply, start, end, clock(tick));
      var messageNews := OfferMessages(reply, start);
      AllWithin(reply, start, end, clock(tick));
      var clickNews := OfferClicks(reply, start);
      newItems := messageNews + clickNews;
      UntagBoth(messageNews, clickNews);
    }

    lemma AllWithin(reply: Reply, start: int, end: int, now: int)
      requires reply.Response? && HonestReply(reply, start, end, messageTime, clickTime) && end * SEC <= now
      ensures Within(reply.delivered, start, now, messageTime) && Within(reply.blocked, start, now, messageTime)
      ensures Within(reply.permitted, start, now, clickTime) && Within(reply.clicksBlocked, start, now, clickTime)
    {
    }

    /** The polling loop, for as long as there are servers' answers to poll or until a failing ship.  It
        makes n polls, the i-th when the clock has ticked ticks[i] times; the events that come out of
        them, `due`, are for either kind the first of every id among all replies, as far as they have
        one.  All of them are shipped unless the next one is refused; then that one comes out of the last poll. */
    method FetchEvents(servers: seq<(int, int) -> Reply>)
      returns (n: nat, ghost ticks: seq<nat>, ghost due: seq<Tagged>, ghost last: nat)
      requires Valid() && cut <= Unix(clock(tick) - OVERLAP)
      requires messages == {} && clicks == {} && shipped == [] && !doStop
      requires forall i :: 0 <= i < |servers| ==> Honest(servers[i], messageTime, clickTime)
      modifies this
      ensures n <= |servers| && |ticks| == n && Rising(ticks, old(tick), tick)
      ensures DueBoth(due, Replies(servers, clock, clock(old(tick)), ticks, n))
      ensures shipped <= due && AllTaggedOk(shipped)
      ensures doStop == (shipped != due) && (doStop ==> !due[|shipped|].item.shipOk)
      ensures !doStop ==> n == |servers|
      ensures doStop ==> LastPoll(servers, clock, clock(old(tick)), ticks, n, due, last) && last <= |shipped|
    {
      var since := Now();
      ghost var after, start := old(tick), clock(old(tick));
      n, ticks, due, last := 0, [], [], 0;
      while n < |servers| && !doStop
        invariant n <= |servers| && |ticks| == n && tick > after && Valid() && cut <= Unix(since - OVERLAP)
        invariant Gathered(servers, clock, start, ticks, after, tick, since, messages, clicks, due)
        invariant Shipping(due)
        invariant n > 0 ==> LastPoll(servers, clock, start, ticks, n, due, last) && last <= |shipped|
      {
        ghost var now, before := tick, due;
        since, due := Turn(servers, n, since, start, ticks, after, due);
        ticks, n, last := ticks + [now], n + 1, |before|;
      }
    }

    /** One turn of the polling loop. */
    method Turn(servers: seq<(int, int) -> Reply>, n: nat, since: int, ghost start: int, ghost ticks: seq<nat>, ghost after: nat,
                ghost due: seq<Tagged>)
      returns (newSince: int, ghost due': seq<Tagged>)
      requires n == |ticks| < |servers| && after < tick && Valid() && cut <= Unix(since - OVERLAP)
      requires Honest(servers[n], messageTime, clickTime)
      requires Gathered(servers, clock, start, ticks, after, tick, since, messages, clicks, due)
      requires !doStop && shipped == due && AllTaggedOk(shipped)
      modifies this
      ensures Valid() && cut <= Unix(newSince - OVERLAP) && tick > old(tick)
      ensures Gathered(servers, clock, start, ticks + [old(tick)], after, tick, newSince, messages, clicks, due')
      ensures LastPoll(servers, clock, start, ticks + [old(tick)], n + 1, due', |due|)
      ensures due <= shipped && Shipping(due')
    {
      var newItems;
      newItems, newSince := PollOnce(servers, n, since, start, ticks, after, due);
      due' := due + newItems;
      ShipAll(newItems);
    }

    /** Its poll. */
    method PollOnce(servers: seq<(int, int) -> Reply>, n: nat, since: int, ghost start: int, ghost ticks: seq<nat>, ghost after: nat,
                    ghost due: seq<Tagged>)
      returns (newItems: seq<Tagged>, newSince: int)
      requires n == |ticks| < |servers| && after < tick && Valid() && cut <= Unix(since - OVERLAP)
      requires Honest(servers[n], messageTime, clickTime)
      requires Gathered(servers, clock, start, ticks, after, tick, since, messages, clicks, due)
      modifies this`messageDedupe, this`clickDedupe, this`messages, this`clicks, this`cut, this`tick
      ensures Valid() && cut <= Unix(newSince - OVERLAP) && tick > old(tick)
      ensures Gathered(servers, clock, start, ticks + [old(tick)], after, tick, newSince, messages, clicks, due + newItems)
      ensures LastPoll(servers, clock, start, ticks + [old(tick)], n + 1, due + newItems, |due|)
    {
      ghost var reply;
      newItems, newSince, reply := MakeOneRequest(since, servers[n]);
      GatheredNext(servers, clock, start, ticks, after, old(tick), tick, since, newSince, old(messages), old(clicks), due, reply, newItems);
      LastPollIs(servers, clock, start, ticks, old(tick), due, newItems);
    }

    /** What is due was shipped, up to the first event that is refused. */
    ghost predicate Shipping(due: seq<Tagged>)
      reads this
    {
      && shipped <= due && AllTaggedOk(shipped)
      && doStop == (shipped != due) && (doStop ==> !due[|shipped|].item.shipOk)
    }

    /** Ships up to the first event that is refused, and then sets doStop. */
    method ShipAll(newItems: seq<Tagged>)
      requires !doStop
      modifies this`shipped, this`doStop
      ensures old(shipped) <= shipped <= old(shipped) + newItems
      ensures AllTaggedOk(old(shipped)) ==> AllTaggedOk(shipped)
      ensures if doStop then |shipped| < |old(shipped) + newItems| && !(old(shipped) + newItems)[|shipped|].item.shipOk
              else shipped == old(shipped) + newItems
    {
      for m := 0 to |newItems|
        invariant shipped == old(shipped) + newItems[..m] && !doStop
        invariant AllTaggedOk(old(shipped)) ==> AllTaggedOk(shipped)
      {
        if !newItems[m].item.shipOk {
          doStop := true;
          return;
        }
        shipped := shipped + [newItems[m]];
      }
      assert newItems[..|newItems|] == newItems;
    }
  }

  ghost predicate AllTaggedOk(items: seq<Tagged>) {
    forall i :: 0 <= i < |items| ==> items[i].item.shipOk
  }

  /** The reply to a poll that asks at time t for what there is since `since`, less the overlap. */
  ghost function ReplyAt(server: (int, int) -> Reply, since: int, t: int): Reply {
    server(Unix(since - OVERLAP), Unix(IntervalEnd(since - OVERLAP, t)))
  }

  /** Where the next poll starts: where the query ended, or where it started if it failed. */
  ghost function Since(since: int, reply: Reply): int {
    if reply.Failed? then since else reply.queryEndTime
  }

  /** Replies to successive polls, each starting where the one before ended. */
  ghost function Replies(servers: seq<(int, int) -> Reply>, clock: nat -> int, start: int, ticks: seq<nat>, n: nat): (r: seq<Reply>)
    requires n <= |servers| && n <= |ticks|
    ensures |r| == n
  {
    if n == 0 then []
    else
      var before := Replies(servers, clock, start, ticks, n - 1);
      before + [ReplyAt(servers[n - 1], SinceAfter(start, before), clock(ticks[n - 1]))]
  }

  ghost function SinceAfter(start: int, replies: seq<Reply>): int {
    if replies == [] then start else Since(SinceAfter(start, replies[..|replies| - 1]), replies[|replies| - 1])
  }

  ghost function AllMessages(replies: seq<Reply>): seq<Item> {
    if replies == [] then [] else AllMessages(replies[..|replies| - 1]) + Messages(replies[|replies| - 1])
  }

  ghost function AllClicks(replies: seq<Reply>): seq<Item> {
    if replies == [] then [] else AllClicks(replies[..|replies| - 1]) + Clicks(replies[|replies| - 1])
  }

  ghost predicate FromReplies(due: seq<Tagged>, replies: seq<Reply>) {
    forall t :: t in due ==> exists i :: 0 <= i < |replies| && t.item in ListOf(replies[i], t.eventType)
  }

  /** Messages and clicks with an id are the first for every id, and every event comes from the list its
      tag names. */
  ghost predicate DueBoth(due: seq<Tagged>, replies: seq<Reply>) {
    && Keyed(Untag(due, true)) == NewItems({}, AllMessages(replies))
    && Keyed(Untag(due, false)) == NewItems({}, AllClicks(replies))
    && FromReplies(due, replies)
  }

  /** There was a last poll, and the first `last` events are due from those before it. */
  ghost predicate LastPoll(servers: seq<(int, int) -> Reply>, clock: nat -> int, start: int, ticks: seq<nat>, n: nat, due: seq<Tagged>, last: nat) {
    0 < n <= |servers| && n <= |ticks| && last <= |due| && DueBoth(due[..last], Replies(servers, clock, start, ticks, n - 1))
  }

  lemma LastPollIs(servers: seq<(int, int) -> Reply>, clock: nat -> int, start: int, ticks: seq<nat>, now: nat,
                   due: seq<Tagged>, newItems: seq<Tagged>)
    requires |ticks| < |servers| && DueBoth(due, Replies(servers, clock, start, ticks, |ticks|))
    ensures LastPoll(servers, clock, start, ticks + [now], |ticks| + 1, due + newItems, |due|)
  {
    SameReplies(servers, clock, start, ticks, ticks + [now], |ticks|);
    assert (due + newItems)[..|due|] == due;
  }

  /** What the polling loop has gathered by its polls so far. */
  ghost predicate Gathered(servers: seq<(int, int) -> Reply>, clock: nat -> int, start: int, ticks: seq<nat>, after: nat, before: nat,
                           since: int, messages: set<string>, clicks: set<string>, due: seq<Tagged>)
    requires |ticks| <= |servers|
  {
    var replies := Replies(servers, clock, start, ticks, |ticks|);
    && Rising(ticks, after, before) && since == SinceAfter(start, replies) && DueBoth(due, replies)
    && messages == Ids(AllMessages(replies)) && clicks == Ids(AllClicks(replies))
  }

  lemma GatheredNext(servers: seq<(int, int) -> Reply>, clock: nat -> int, start: int, ticks: seq<nat>, after: nat, now: nat, before: nat,
                     was: int, since: int, messages: set<string>, clicks: set<string>, due: seq<Tagged>, reply: Reply,
                     newItems: seq<Tagged>)
    requires |ticks| < |servers| && after < now < before
    requires Gathered(servers, clock, start, ticks, after, now, was, messages, clicks, due)
    requires reply == ReplyAt(servers[|ticks|], was, clock(now)) && since == Since(was, reply)
    requires Keyed(Untag(newItems, true)) == NewItems(messages, Messages(reply))
    requires Keyed(Untag(newItems, false)) == NewItems(clicks, Clicks(reply))
    requires forall t :: t in newItems ==> t.item in ListOf(reply, t.eventType)
    ensures Gathered(servers, clock, start, ticks + [now], after, before, since,
                     messages + Ids(Messages(reply)), clicks + Ids(Clicks(reply)), due + newItems)
  {
    var replies := Replies(servers, clock, start, ticks, |ticks|);
    SameReplies(servers, clock, start, ticks, ticks + [now], |ticks|);
    assert Replies(servers, clock, start, ticks + [now], |ticks| + 1) == replies + [reply];
    MoreReplies(start, replies, reply);
    DueBothNext(due, newItems, replies, reply);
    RisingNext(ticks, after, now, before);
  }

  lemma MoreReplies(start: int, replies: seq<Reply>, reply: Reply)
    ensures SinceAfter(start, replies + [reply]) == Since(SinceAfter(start, replies), reply)
    ensures AllMessages(replies + [reply]) == AllMessages(replies) + Messages(reply)
    ensures AllClicks(replies + [reply]) == AllClicks(replies) + Clicks(reply)
  {
    assert (replies + [reply])[..|replies|] == replies;
  }

  lemma DueBothNext(due: seq<Tagged>, newItems: seq<Tagged>, replies: seq<Reply>, reply: Reply)
    requires DueBoth(due, replies)
    requires Keyed(Untag(newItems, true)) == NewItems(Ids(AllMessages(replies)), Messages(reply))
    requires Keyed(Untag(newItems, false)) == NewItems(Ids(AllClicks(replies)), Clicks(reply))
    requires forall t :: t in newItems ==> t.item in ListOf(reply, t.eventType)
    ensures DueBoth(due + newItems, replies + [reply])
    ensures Ids(AllMessages(replies + [reply])) == Ids(AllMessages(replies)) + Ids(Messages(reply))
    ensures Ids(AllClicks(replies + [reply])) == Ids(AllClicks(replies)) + Ids(Clicks(reply))
  {
    MoreReplies(0, replies, reply);
    UntagAppend(due, newItems, true);
    UntagAppend(due, newItems, false);
    OneMoreReply(Untag(due, true), Untag(newItems, true), AllMessages(replies), Messages(reply));
    OneMoreReply(Untag(due, false), Untag(newItems, false), AllClicks(replies), Clicks(reply));
    FromMoreReplies(due, newItems, replies, reply);
  }

  lemma FromMoreReplies(due: seq<Tagged>, newItems: seq<Tagged>, replies: seq<Reply>, reply: Reply)
    requires FromReplies(due, replies) && forall t :: t in newItems ==> t.item in ListOf(reply, t.eventType)
    ensures FromReplies(due + newItems, replies + [reply])
  {
    var more := replies + [reply];
    forall t | t in due + newItems ensures exists i :: 0 <= i < |more| && t.item in ListOf(more[i], t.eventType) {
      if t in due {
        var i :| 0 <= i < |replies| && t.item in ListOf(replies[i], t.eventType);
        assert more[i] == replies[i];
      } else {
        assert more[|replies|] == reply;
      }
    }
  }

  lemma {:induction false} SameReplies(servers: seq<(int, int) -> Reply>, clock: nat -> int, start: int,
                                       ticks: seq<nat>, ticks': seq<nat>, n: nat)
    requires n <= |servers| && n <= |ticks| && ticks <= ticks'
    ensures Replies(servers, clock, start, ticks', n) == Replies(servers, clock, start, ticks, n)
  {
    if n > 0 { SameReplies(servers, clock, start, ticks, ticks', n - 1); }
  }

  lemma SinceMoves(start: int, queryEndTime: int)
    requires queryEndTime >= start * SEC + OVERLAP
    ensures start <= Unix(queryEndTime - OVERLAP)
  {
  }
}
