/** Successive polls of the Proofpoint TAP adapter leave nothing out (proofpoint_tap/client.go:108-155). */
module ProofpointCoverage {
  import opened Times
  import opened SlidingDedupe
  import opened Proofpoint

  /** What the server holds. */
  datatype Log = Log(messages: iset<Item>, clicks: iset<Item>)

  /** If it answers, the server returns everything it holds from the start of the interval to the end of
      its query, both included. */
  ghost predicate Complete(server: (int, int) -> Reply, log: Log) {
    forall start, end :: CompleteReply(server(start, end), start, log)
  }

  ghost predicate CompleteReply(reply: Reply, start: int, log: Log) {
    reply.Response? ==>
      && (forall item :: item in log.messages && start * SEC <= item.time <= reply.queryEndTime ==>
            item in reply.delivered || item in reply.blocked)
      && (forall item :: item in log.clicks && start * SEC <= item.time <= reply.queryEndTime ==>
            item in reply.permitted || item in reply.clicksBlocked)
  }

  /** Where the m-th poll starts. */
  ghost function SinceAt(servers: seq<(int, int) -> Reply>, clock: nat -> int, start: int, ticks: seq<nat>, m: nat): int
    requires m <= |servers| && m <= |ticks|
  {
    SinceAfter(start, Replies(servers, clock, start, ticks, m))
  }

  lemma SinceNext(servers: seq<(int, int) -> Reply>, clock: nat -> int, start: int, ticks: seq<nat>, m: nat)
    requires m < |servers| && m < |ticks|
    ensures var since := SinceAt(servers, clock, start, ticks, m);
      var replies, next := Replies(servers, clock, start, ticks, m), Replies(servers, clock, start, ticks, m + 1);
      && next == replies + [next[m]] && next[m] == ReplyAt(servers[m], since, clock(ticks[m]))
      && SinceAt(servers, clock, start, ticks, m + 1) == Since(since, next[m])
  {
    var replies, next := Replies(servers, clock, start, ticks, m), Replies(servers, clock, start, ticks, m + 1);
    assert next == replies + [next[m]];
    MoreReplies(start, replies, next[m]);
  }

  /** Everything the server holds between the start and where the next poll starts has been returned. */
  lemma {:induction false} ReturnedUpTo(servers: seq<(int, int) -> Reply>, clock: nat -> int, start: int, ticks: seq<nat>, m: nat, log: Log,
                                        item: Item)
    requires m <= |servers| && m <= |ticks| && forall k :: 0 <= k < |servers| ==> Complete(servers[k], log)
    requires start < item.time <= SinceAt(servers, clock, start, ticks, m)
    ensures item in log.messages ==> item in AllMessages(Replies(servers, clock, start, ticks, m))
    ensures item in log.clicks ==> item in AllClicks(Replies(servers, clock, start, ticks, m))
  {
    if m > 0 {
      var since := SinceAt(servers, clock, start, ticks, m - 1);
      var replies, next := Replies(servers, clock, start, ticks, m - 1), Replies(servers, clock, start, ticks, m);
      SinceNext(servers, clock, start, ticks, m - 1);
      MoreReplies(start, replies, next[m - 1]);
      if item.time <= since {
        ReturnedUpTo(servers, clock, start, ticks, m - 1, log, item);
      } else {
        AskedFrom(since);
        var now := clock(ticks[m - 1]);
        var begin, end := Unix(since - OVERLAP), Unix(IntervalEnd(since - OVERLAP, now));
        assert CompleteReply(servers[m - 1](begin, end), begin, log);
      }
    }
  }

  lemma AskedFrom(since: int)
    ensures Unix(since - OVERLAP) * SEC <= since
  {
  }

  /** Earlier polls have the same replies in a longer run. */
  lemma {:induction false} RepliesStay(servers: seq<(int, int) -> Reply>, clock: nat -> int, start: int, ticks: seq<nat>, l: nat, m: nat)
    requires l <= m <= |servers| && m <= |ticks|
    ensures Replies(servers, clock, start, ticks, l) == Replies(servers, clock, start, ticks, m)[..l]
    decreases m
  {
    if l < m {
      RepliesStay(servers, clock, start, ticks, l, m - 1);
      SinceNext(servers, clock, start, ticks, m - 1);
    }
  }

  /** What the first replies return is among what all return. */
  lemma {:induction false} AmongAll(replies: seq<Reply>, l: nat, item: Item)
    requires l <= |replies|
    ensures item in AllMessages(replies[..l]) ==> item in AllMessages(replies)
    ensures item in AllClicks(replies[..l]) ==> item in AllClicks(replies)
    decreases |replies|
  {
    if l < |replies| {
      var front := replies[..|replies| - 1];
      assert front[..l] == replies[..l];
      AmongAll(front, l, item);
    } else {
      assert replies[..l] == replies;
    }
  }

  /** Everything up to where any answered query ended has been returned. */
  lemma AllReturned(servers: seq<(int, int) -> Reply>, clock: nat -> int, start: int, ticks: seq<nat>, m: nat, k: nat, log: Log,
                    item: Item)
    requires k < m <= |servers| && m <= |ticks| && forall k :: 0 <= k < |servers| ==> Complete(servers[k], log)
    requires var replies := Replies(servers, clock, start, ticks, m);
      replies[k].Response? && start < item.time <= replies[k].queryEndTime
    ensures item in log.messages ==> item in AllMessages(Replies(servers, clock, start, ticks, m))
    ensures item in log.clicks ==> item in AllClicks(Replies(servers, clock, start, ticks, m))
  {
    SinceNext(servers, clock, start, ticks, k);
    RepliesStay(servers, clock, start, ticks, k + 1, m);
    AmongAll(Replies(servers, clock, start, ticks, m), k + 1, item);
    ReturnedUpTo(servers, clock, start, ticks, k + 1, log, item);
  }

  /** NOTHING MISSED, NOTHING TWICE.  Every message and every click with an id that the server holds from
      after the adapter's start to where any query that was answered ended comes out exactly once, whatever
      polls fail before or after and however long. */
  lemma NothingMissed(servers: seq<(int, int) -> Reply>, clock: nat -> int, start: int, ticks: seq<nat>, m: nat, k: nat, log: Log,
                      due: seq<Tagged>, item: Item)
    requires k < m <= |servers| && m <= |ticks| && forall k :: 0 <= k < |servers| ==> Complete(servers[k], log)
    requires var replies := Replies(servers, clock, start, ticks, m);
      DueBoth(due, replies) && replies[k].Response? && start < item.time <= replies[k].queryEndTime
    requires item.id != ""
    ensures item in log.messages ==> CountId(Untag(due, true), item.id) == 1
    ensures item in log.clicks ==> CountId(Untag(due, false), item.id) == 1
  {
    AllReturned(servers, clock, start, ticks, m, k, log, item);
    var replies := Replies(servers, clock, start, ticks, m);
    if item in log.messages { ComesOutOnce(Untag(due, true), AllMessages(replies), item); }
    if item in log.clicks { ComesOutOnce(Untag(due, false), AllClicks(replies), item); }
  }
}
