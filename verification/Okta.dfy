/** The Okta adapter's polling loop over its sliding dedupe map (okta/client.go). */
module Okta {
  import opened Times
  import opened SlidingDedupe

  const OVERLAP := 30 * MINUTE

  datatype Reply = Failed | Items(items: seq<Item>)

  /** What a request asks for, in seconds. */
  datatype Window = Window(start: int, until: int)

  /** The server returns no event with an id that is older than it was asked for. */
  ghost predicate Honest(server: (int, int) -> Reply, time: string -> int) {
    forall start, until :: server(start, until).Items? ==> Returned(server(start, until).items, start, time)
  }

  /** Every entry with an id carries the second of its event. */
  ghost predicate Stamped(dedupe: map<string, int>, time: string -> int) {
    forall k :: k in dedupe && k != "" ==> dedupe[k] == Unix(time(k))
  }

  class OktaAdapter {
    const clock: nat -> int
    var tick: nat
    var dedupe: map<string, int>
    var doStop: bool
    var shipped: seq<Item>
    ghost const time: string -> int
    ghost var seen: set<string>
    ghost var cut: int

    /** The clock never goes back; the map stands in for `seen`, all ids returned so far, as far as
        events not before `cut` go, and the next request will not ask for older ones. */
    ghost predicate Valid()
      reads this
    {
      && (forall i: nat, j: nat :: i <= j ==> clock(i) <= clock(j))
      && Remembers(dedupe, seen, cut, time) && Stamped(dedupe, time)
      && cut <= Unix(clock(tick) - OVERLAP)
    }

    constructor (clock: nat -> int, ghost time: string -> int)
      requires forall i: nat, j: nat :: i <= j ==> clock(i) <= clock(j)
      ensures Valid() && dedupe == map[] && seen == {} && shipped == [] && !doStop
      ensures this.clock == clock && this.time == time && tick == 0
    {
      this.clock, this.time := clock, time;
      tick, dedupe, doStop, shipped, seen, cut := 0, map[], false, [], {}, Unix(clock(0) - OVERLAP);
    }

    method Now() returns (t: int)
      modifies this`tick
      ensures t == clock(old(tick)) && tick == old(tick) + 1
    {
      t := clock(tick);
      tick := tick + 1;
    }

    /** Ids already in the map are passed over; the others enter it with the second of their event. */
    method Offer(items: seq<Item>) returns (newItems: seq<Item>)
      requires Valid() && Returned(items, cut, time)
      modifies this`dedupe, this`seen
      ensures Valid() && seen == old(seen) + Ids(items)
      ensures Keyed(newItems) == NewItems(old(seen), items) && forall item :: item in newItems ==> item in items
    {
      newItems := [];
      for m := 0 to |items|
        invariant Offering(old(seen), items, m, newItems, dedupe, seen, cut, time) && Stamped(dedupe, time)
        invariant forall item :: item in newItems ==> item in items
      {
        var item := items[m];
        OfferNext(old(seen), items, m, newItems, dedupe, seen, cut, time, Unix(item.time));
        if item.id !in dedupe {
          dedupe := dedupe[item.id := Unix(item.time)];
          newItems := newItems + [item];
        }
        seen := SeenAlso(seen, item);
      }
      assert items[..|items|] == items;
    }

    /** Entries are dropped by their age at the moment the loop gets to them, in any order. */
    method Cull()
      requires Valid()
      modifies this`dedupe, this`tick, this`cut
      ensures Valid() && tick >= old(tick)
      ensures forall k :: k in dedupe ==> k in old(dedupe) && dedupe[k] == old(dedupe)[k]
      ensures forall k :: k in old(dedupe) && old(dedupe)[k] >= Unix(clock(tick) - OVERLAP) ==> k in dedupe
      ensures forall k :: k in dedupe ==> dedupe[k] >= Unix(clock(old(tick)) - OVERLAP)
    {
      var keys := dedupe.Keys;
      while keys != {}
        invariant old(tick) <= tick && keys <= dedupe.Keys && cut == old(cut)
        invariant forall k :: k in dedupe ==> k in old(dedupe) && dedupe[k] == old(dedupe)[k]
        invariant forall k :: k in old(dedupe) && k !in dedupe ==> old(dedupe)[k] < Unix(clock(tick) - OVERLAP)
        invariant forall k :: k in dedupe && k !in keys ==> dedupe[k] >= Unix(clock(old(tick)) - OVERLAP)
        decreases keys
      {
        var k :| k in keys;
        var now := Now();
        if dedupe[k] < Unix(now - OVERLAP) {
          dedupe := dedupe - {k};
        }
        keys := keys - {k};
      }
      CullRemembers(old(dedupe), dedupe, seen, cut, Unix(clock(tick) - OVERLAP), time);
      cut := Unix(clock(tick) - OVERLAP);
    }

    /** One request, for what was published from `window.start` to `window.until`.  Provided the server
        returns nothing older than it was asked for, the events that come out are those that a set which
        never forgets would let through; and what is half an hour old is forgotten. */
    method MakeOneRequest(notBefore: int, server: (int, int) -> Reply)
      returns (newItems: seq<Item>, ghost items: seq<Item>, ghost window: Window)
      requires Valid()
      requires Honest(server, time)
      modifies this`dedupe, this`seen, this`cut, this`tick
      ensures Valid() && seen == old(seen) + Ids(items) && Keyed(newItems) == NewItems(old(seen), items)
      ensures items == ItemsOf(server(window.start, window.until)) && tick > old(tick)
      ensures server(window.start, window.until).Items? ==> items == server(window.start, window.until).items
      ensures var now := clock(old(tick));
        && window.until == Unix(now)
        && window.start == (if now - 30 * MINUTE < notBefore then Unix(notBefore) else Unix(now - 30 * MINUTE))
      ensures forall item :: item in newItems ==> item in items
      ensures server(window.start, window.until).Items? ==>
        forall k :: k in dedupe && k != "" ==> Unix(time(k)) >= Unix(clock(old(tick)) - 30 * MINUTE)
    {
      var currentTime := Now();
      var start := Unix(if currentTime - OVERLAP < notBefore then notBefore else currentTime - OVERLAP);
      var until := Unix(currentTime);
      window := Window(start, until);
      var reply := server(start, until);
      if reply.Failed? {
        return [], [], window;
      }
      items := reply.items;
      assert cut <= start;
      newItems := Offer(reply.items);
      Cull();
    }

    /** The polling loop, for as long as there are servers' answers to poll or until a failing ship.  It
        makes n polls, the i-th when the clock has ticked ticks[i] times, for windows[i]; the events that
        come out of them, `due`, are the first of every id among all replies, as far as they have one.  All
        of them are shipped unless the next one is refused; then that one comes out of the last poll. */
    method FetchEvents(servers: seq<(int, int) -> Reply>)
      returns (n: nat, ghost ticks: seq<nat>, ghost windows: seq<Window>, ghost due: seq<Item>, ghost last: nat)
      requires Valid() && seen == {} && shipped == [] && !doStop
      requires forall i :: 0 <= i < |servers| ==> Honest(servers[i], time)
      modifies this
      ensures n <= |servers| && |ticks| == |windows| == n && Rising(ticks, old(tick), tick)
      ensures forall i :: 0 <= i < n ==>
        var now, start := clock(ticks[i]), clock(old(tick));
        && windows[i].until == Unix(now)
        && windows[i].start == (if now - 30 * MINUTE < start then Unix(start) else Unix(now - 30 * MINUTE))
      ensures Due(due, Replies(servers, windows, n))
      ensures shipped <= due && AllOk(shipped)
      ensures doStop == (shipped != due) && (doStop ==> !due[|shipped|].shipOk)
      ensures !doStop ==> n == |servers|
      ensures doStop ==> LastPoll(servers, windows, n, due, last) && last <= |shipped|
    {
      var adapterStart := Now();
      ghost var after := tick - 1;
      PollingBegins(servers, adapterStart, after);
      n, ticks, windows, due, last := 0, [], [], [], 0;
      while n < |servers| && !doStop
        invariant n == |windows| <= |servers| && Polling(servers, windows, adapterStart, ticks, after, due, last)
      {
        ticks, windows, due, last := Turn(servers, n, adapterStart, windows, ticks, after, due, last);
        n := n + 1;
      }
    }

    /** The polling loop between two turns. */
    ghost predicate Polling(servers: seq<(int, int) -> Reply>, windows: seq<Window>, start: int, ticks: seq<nat>, after: nat,
                            due: seq<Item>, last: nat)
      reads this
      requires |windows| <= |servers|
    {
      && Valid() && after < tick && Asked(windows, clock, start, ticks, after, tick)
      && Gathered(servers, windows, seen, due) && Shipping(due)
      && (doStop ==> LastPoll(servers, windows, |windows|, due, last) && last <= |shipped|)
    }

    lemma PollingBegins(servers: seq<(int, int) -> Reply>, start: int, after: nat)
      requires Valid() && after < tick && seen == {} && shipped == [] && !doStop
      ensures Polling(servers, [], start, [], after, [], 0)
    {
    }

    /** One turn of the polling loop. */
    method Turn(servers: seq<(int, int) -> Reply>, n: nat, notBefore: int, ghost windows: seq<Window>, ghost ticks: seq<nat>,
                ghost after: nat, ghost due: seq<Item>, ghost last: nat)
      returns (ghost ticks': seq<nat>, ghost windows': seq<Window>, ghost due': seq<Item>, ghost last': nat)
      requires n == |windows| < |servers| && Honest(servers[n], time)
      requires Polling(servers, windows, notBefore, ticks, after, due, last) && !doStop
      modifies this
      ensures |windows'| == n + 1 && Polling(servers, windows', notBefore, ticks', after, due', last')
    {
      var newItems;
      ghost var items, window;
      ghost var now, was := tick, seen;
      newItems, items, window := MakeOneRequest(notBefore, servers[n]);
      AskedNext(windows, clock, notBefore, ticks, window, after, now, tick);
      GatheredNext(servers, windows, window, was, due, items, newItems);
      LastPollIs(servers, windows, window, due, newItems);
      ticks', windows', due', last' := ticks + [now], windows + [window], due + newItems, |due|;
      ShipAll(newItems);
    }

    /** What is due was shipped, up to the first event that is refused. */
    ghost predicate Shipping(due: seq<Item>)
      reads this
    {
      shipped <= due && AllOk(shipped) && doStop == (shipped != due) && (doStop ==> !due[|shipped|].shipOk)
    }

    /** Ships up to the first event that is refused, and then sets doStop. */
    method ShipAll(newItems: seq<Item>)
      requires !doStop
      modifies this`shipped, this`doStop
      ensures old(shipped) <= shipped <= old(shipped) + newItems
      ensures AllOk(old(shipped)) ==> AllOk(shipped)
      ensures if doStop then |shipped| < |old(shipped) + newItems| && !(old(shipped) + newItems)[|shipped|].shipOk
              else shipped == old(shipped) + newItems
    {
      for m := 0 to |newItems|
        invariant shipped == old(shipped) + newItems[..m] && !doStop
        invariant AllOk(old(shipped)) ==> AllOk(shipped)
      {
        if !newItems[m].shipOk {
          doStop := true;
          return;
        }
        shipped := shipped + [newItems[m]];
      }
      assert newItems[..|newItems|] == newItems;
    }
  }

  // ----- Replies to successive polls -------------------------------------------------------------

  /** A poll at time t asks up to t, from half an hour before or from the start if that is later. */
  ghost predicate AskedAt(window: Window, start: int, t: int) {
    && window.until == Unix(t)
    && window.start == (if t - 30 * MINUTE < start then Unix(start) else Unix(t - 30 * MINUTE))
  }

  ghost predicate Asked(windows: seq<Window>, clock: nat -> int, start: int, ticks: seq<nat>, after: nat, before: nat) {
    && |windows| == |ticks| && Rising(ticks, after, before)
    && forall i :: 0 <= i < |ticks| ==> AskedAt(windows[i], start, clock(ticks[i]))
  }

  lemma AskedNext(windows: seq<Window>, clock: nat -> int, start: int, ticks: seq<nat>, window: Window, after: nat, now: nat, before: nat)
    requires Asked(windows, clock, start, ticks, after, now) && AskedAt(window, start, clock(now)) && after < now < before
    ensures Asked(windows + [window], clock, start, ticks + [now], after, before)
  {
  }

  ghost function ItemsOf(reply: Reply): seq<Item> {
    if reply.Failed? then [] else reply.items
  }

  /** The events of the first n replies, one after another. */
  ghost function Replies(servers: seq<(int, int) -> Reply>, windows: seq<Window>, n: nat): seq<Item>
    requires n <= |servers| && n <= |windows|
  {
    if n == 0 then []
    else Replies(servers, windows, n - 1) + ItemsOf(servers[n - 1](windows[n - 1].start, windows[n - 1].until))
  }

  lemma {:induction false} SameReplies(servers: seq<(int, int) -> Reply>, windows: seq<Window>, windows': seq<Window>, n: nat)
    requires n <= |servers| && n <= |windows| && windows <= windows'
    ensures Replies(servers, windows', n) == Replies(servers, windows, n)
  {
    if n > 0 { SameReplies(servers, windows, windows', n - 1); }
  }

  /** There was a last poll, and the first `last` events are due from those before it. */
  ghost predicate LastPoll(servers: seq<(int, int) -> Reply>, windows: seq<Window>, n: nat, due: seq<Item>, last: nat) {
    0 < n <= |servers| && n <= |windows| && last <= |due| && Due(due[..last], Replies(servers, windows, n - 1))
  }

  lemma LastPollIs(servers: seq<(int, int) -> Reply>, windows: seq<Window>, window: Window, due: seq<Item>, newItems: seq<Item>)
    requires |windows| < |servers| && Due(due, Replies(servers, windows, |windows|))
    ensures LastPoll(servers, windows + [window], |windows| + 1, due + newItems, |due|)
  {
    SameReplies(servers, windows, windows + [window], |windows|);
    assert (due + newItems)[..|due|] == due;
  }

  /** What the polling loop has gathered by its polls so far. */
  ghost predicate Gathered(servers: seq<(int, int) -> Reply>, windows: seq<Window>, seen: set<string>, due: seq<Item>)
    requires |windows| <= |servers|
  {
    var all := Replies(servers, windows, |windows|);
    seen == Ids(all) && Due(due, all)
  }

  lemma NextReply(servers: seq<(int, int) -> Reply>, windows: seq<Window>, window: Window)
    requires |windows| < |servers|
    ensures Replies(servers, windows + [window], |windows| + 1)
      == Replies(servers, windows, |windows|) + ItemsOf(servers[|windows|](window.start, window.until))
  {
    SameReplies(servers, windows, windows + [window], |windows|);
  }

  lemma GatheredNext(servers: seq<(int, int) -> Reply>, windows: seq<Window>, window: Window, seen: set<string>, due: seq<Item>,
                     items: seq<Item>, newItems: seq<Item>)
    requires |windows| < |servers| && Gathered(servers, windows, seen, due)
    requires items == ItemsOf(servers[|windows|](window.start, window.until))
    requires Keyed(newItems) == NewItems(seen, items) && forall item :: item in newItems ==> item in items
    ensures Gathered(servers, windows + [window], seen + Ids(items), due + newItems)
  {
    NextReply(servers, windows, window);
    DueNext(due, newItems, Replies(servers, windows, |windows|), items);
  }
}
