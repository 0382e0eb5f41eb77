/** What the Okta and the Proofpoint adapters share: a map of ids that is culled by age stands in for
    the set of all ids ever returned by the server. */
module SlidingDedupe {
  import opened Times

  /** An event; its id may be missing.  The shipper may refuse it. */
  datatype Item = Item(id: string, time: int, shipOk: bool)

  /** The ids of some events, missing ones apart. */
  ghost function Ids(items: seq<Item>): set<string> {
    set item | item in items && item.id != "" :: item.id
  }

  /** The events with an id. */
  ghost function Keyed(items: seq<Item>): seq<Item> {
    if items == [] then []
    else Keyed(items[..|items| - 1]) + if items[|items| - 1].id == "" then [] else [items[|items| - 1]]
  }

  /** What a set that never forgets lets through: the first event for every id that is not in it yet. */
  ghost function NewItems(seen: set<string>, items: seq<Item>): seq<Item> {
    if items == [] then []
    else
      var front, item := items[..|items| - 1], items[|items| - 1];
      NewItems(seen, front) + if item.id == "" || item.id in seen + Ids(front) then [] else [item]
  }

  lemma Next(seen: set<string>, items: seq<Item>, m: nat)
    requires m < |items|
    ensures Ids(items[..m + 1]) == Ids(items[..m]) + if items[m].id == "" then {} else {items[m].id}
    ensures NewItems(seen, items[..m + 1])
      == NewItems(seen, items[..m]) + if items[m].id == "" || items[m].id in seen + Ids(items[..m]) then [] else [items[m]]
  {
    assert items[..m + 1][..m] == items[..m];
    assert items[..m + 1] == items[..m] + [items[m]];
  }

  lemma KeyedNext(items: seq<Item>, item: Item)
    ensures Keyed(items + [item]) == Keyed(items) + if item.id == "" then [] else [item]
  {
    assert (items + [item])[..|items|] == items;
  }

  lemma {:induction false} KeyedAppend(xs: seq<Item>, ys: seq<Item>)
    ensures Keyed(xs + ys) == Keyed(xs) + Keyed(ys)
  {
    if ys == [] {
      assert xs + ys == xs;
    } else {
      var front := ys[..|ys| - 1];
      assert (xs + ys)[..|xs + ys| - 1] == xs + front;
      KeyedAppend(xs, front);
    }
  }

  lemma IdsAppend(xs: seq<Item>, ys: seq<Item>)
    ensures Ids(xs + ys) == Ids(xs) + Ids(ys)
  {
  }

  /** Cutting the stream of events into replies changes nothing. */
  lemma {:induction false} NewItemsAppend(seen: set<string>, xs: seq<Item>, ys: seq<Item>)
    ensures NewItems(seen, xs + ys) == NewItems(seen, xs) + NewItems(seen + Ids(xs), ys)
  {
    if ys == [] {
      assert xs + ys == xs;
    } else {
      var front := ys[..|ys| - 1];
      assert (xs + ys)[..|xs + ys| - 1] == xs + front;
      NewItemsAppend(seen, xs, front);
      IdsAppend(xs, front);
    }
  }

  ghost function CountId(items: seq<Item>, id: string): nat {
    if items == [] then 0 else CountId(items[..|items| - 1], id) + if items[|items| - 1].id == id then 1 else 0
  }

  /** ONCE EACH.  Every id is let through exactly once if it occurs and was not in the set, else never. */
  lemma {:induction false} OnceEach(seen: set<string>, items: seq<Item>, id: string)
    requires id != ""
    ensures CountId(NewItems(seen, items), id) == if id in Ids(items) && id !in seen then 1 else 0
  {
    if items != [] {
      var front, item := items[..|items| - 1], items[|items| - 1];
      Next(seen, items, |front|);
      assert items[..|front| + 1] == items;
      OnceEach(seen, front, id);
      CountNext(NewItems(seen, front), item, id);
    }
  }

  lemma CountNext(items: seq<Item>, item: Item, id: string)
    ensures CountId(items + [item], id) == CountId(items, id) + if item.id == id then 1 else 0
    ensures CountId(items + [], id) == CountId(items, id)
  {
    assert (items + [item])[..|items|] == items;
    assert items + [] == items;
  }

  lemma {:induction false} KeyedCount(items: seq<Item>, id: string)
    requires id != ""
    ensures CountId(Keyed(items), id) == CountId(items, id)
  {
    if items != [] {
      var front, item := items[..|items| - 1], items[|items| - 1];
      KeyedCount(front, id);
      CountNext(Keyed(front), item, id);
    }
  }

  /** What a server returned comes out once. */
  lemma ComesOutOnce(due: seq<Item>, all: seq<Item>, item: Item)
    requires Keyed(due) == NewItems({}, all) && item in all && item.id != ""
    ensures CountId(due, item.id) == 1
  {
    KeyedCount(due, item.id);
    OnceEach({}, all, item.id);
  }

  /** What is shipped stays the events let through when one more reply has come in. */
  lemma OneMoreReply(shipped: seq<Item>, newItems: seq<Item>, all: seq<Item>, items: seq<Item>)
    requires Keyed(shipped) == NewItems({}, all) && Keyed(newItems) == NewItems(Ids(all), items)
    ensures Keyed(shipped + newItems) == NewItems({}, all + items) && Ids(all + items) == Ids(all) + Ids(items)
  {
    NewItemsAppend({}, all, items);
    assert {} + Ids(all) == Ids(all);
    IdsAppend(all, items);
    KeyedAppend(shipped, newItems);
  }

  /** The map knows every id seen whose event is not older than `cut`, with a stamp not below the
      event's time, and no other id. */
  ghost predicate Remembers(dedupe: map<string, int>, seen: set<string>, cut: int, time: string -> int) {
    forall k :: k != "" ==>
      && (k in dedupe ==> k in seen && dedupe[k] >= Unix(time(k)))
      && (k in seen && k !in dedupe ==> Unix(time(k)) < cut)
  }

  ghost predicate AllOk(items: seq<Item>) {
    forall i :: 0 <= i < |items| ==> items[i].shipOk
  }

  /** The events with an id are the first for every id, and none is made up. */
  ghost predicate Due(due: seq<Item>, all: seq<Item>) {
    Keyed(due) == NewItems({}, all) && forall item :: item in due ==> item in all
  }

  lemma DueNext(due: seq<Item>, newItems: seq<Item>, all: seq<Item>, items: seq<Item>)
    requires Due(due, all) && Keyed(newItems) == NewItems(Ids(all), items) && forall item :: item in newItems ==> item in items
    ensures Due(due + newItems, all + items) && Ids(all + items) == Ids(all) + Ids(items)
  {
    OneMoreReply(due, newItems, all, items);
  }

  /** Clock readings of successive polls lie after the start and before the end. */
  ghost predicate Rising(ticks: seq<nat>, after: nat, before: nat) {
    && (forall i :: 0 <= i < |ticks| ==> after < ticks[i] < before)
    && (forall i, j :: 0 <= i < j < |ticks| ==> ticks[i] < ticks[j])
  }

  lemma RisingNext(ticks: seq<nat>, after: nat, now: nat, before: nat)
    requires Rising(ticks, after, now) && after < now < before
    ensures Rising(ticks + [now], after, before)
  {
  }

  ghost function SeenAlso(seen: set<string>, item: Item): set<string> {
    if item.id == "" then seen else seen + {item.id}
  }

  /** An event not before the cut is in the map exactly if it was seen; offering it keeps the map right. */
  lemma OfferRemembers(dedupe: map<string, int>, seen: set<string>, cut: int, time: string -> int, item: Item, stamp: int)
    requires Remembers(dedupe, seen, cut, time)
    requires item.id != "" ==> Unix(time(item.id)) >= cut && stamp >= Unix(time(item.id))
    ensures item.id != "" ==> (item.id in dedupe <==> item.id in seen)
    ensures Remembers(if item.id in dedupe then dedupe else dedupe[item.id := stamp], SeenAlso(seen, item), cut, time)
  {
  }

  /** The first m events have been offered, and `newItems` is what came through. */
  ghost predicate Offering(before: set<string>, items: seq<Item>, m: nat, newItems: seq<Item>,
                           dedupe: map<string, int>, seen: set<string>, cut: int, time: string -> int)
    requires m <= |items|
  {
    && Remembers(dedupe, seen, cut, time)
    && seen == before + Ids(items[..m])
    && Keyed(newItems) == NewItems(before, items[..m])
  }

  lemma OfferNext(before: set<string>, items: seq<Item>, m: nat, newItems: seq<Item>,
                  dedupe: map<string, int>, seen: set<string>, cut: int, time: string -> int, stamp: int)
    requires m < |items| && Offering(before, items, m, newItems, dedupe, seen, cut, time)
    requires items[m].id != "" ==> Unix(time(items[m].id)) >= cut && stamp >= Unix(time(items[m].id))
    ensures var item := items[m];
      if item.id in dedupe then Offering(before, items, m + 1, newItems, dedupe, SeenAlso(seen, item), cut, time)
      else Offering(before, items, m + 1, newItems + [item], dedupe[item.id := stamp], SeenAlso(seen, item), cut, time)
  {
    var item := items[m];
    Next(before, items, m);
    KeyedNext(newItems, item);
    OfferRemembers(dedupe, seen, cut, time, item, stamp);
  }

  /** Entries below the new cut may be dropped. */
  lemma CullRemembers(dedupe: map<string, int>, culled: map<string, int>, seen: set<string>, cut: int, cut': int, time: string -> int)
    requires Remembers(dedupe, seen, cut, time) && cut <= cut'
    requires forall k :: k in culled ==> k in dedupe && culled[k] == dedupe[k]
    requires forall k :: k in dedupe && k !in culled ==> dedupe[k] < cut'
    ensures Remembers(culled, seen, cut', time)
  {
  }

  /** Every returned event with an id is timed by it, and not before the second asked for. */
  ghost predicate Returned(items: seq<Item>, start: int, time: string -> int) {
    forall i :: 0 <= i < |items| && items[i].id != "" ==> items[i].time == time(items[i].id) && items[i].time >= start * SEC
  }
}
