/** The manual-reset event of utils/event.go: waiters with a timeout register a one-shot channel each;
    every method below is what runs under the event's lock, so runs are their interleavings. */
module Events {
  import opened Options
  import opened Sequences

  /** A channel with room for one token. */
  class Channel {
    var full: bool
    var closed: bool
    ghost var sent: nat

    constructor ()
      ensures !full && !closed && sent == 0
    {
      full, closed, sent := false, false, 0;
    }

    /** Sending blocks when the buffer is full and panics when the channel is closed. */
    method Send()
      requires !full && !closed
      modifies this
      ensures full && !closed && sent == old(sent) + 1
    {
      full, sent := true, sent + 1;
    }

    /** Closing twice panics. */
    method Close()
      requires !closed
      modifies this
      ensures closed && full == old(full) && sent == old(sent)
    {
      closed := true;
    }

    /** A receive can go on. */
    predicate Ready()
      reads this
    {
      full || closed
    }

    method Receive()
      requires Ready()
      modifies this
      ensures !full && closed == old(closed) && sent == old(sent)
    {
      full := false;
    }
  }

  /** utils/event.go:91-94: the last one takes the place of the one removed. */
  function RemoveWaiter(s: seq<Channel>, i: nat): (r: seq<Channel>)
    requires i < |s|
    ensures |r| == |s| - 1
  {
    s[i := s[|s| - 1]][..|s| - 1]
  }

  /** All others stay. */
  lemma RemoveWaiterKeepsOthers(s: seq<Channel>, i: nat)
    requires i < |s|
    ensures multiset(RemoveWaiter(s, i)) == multiset(s) - multiset{s[i]}
  {
    var last := |s| - 1;
    assert s == s[..last] + [s[last]];
    if i < last {
      assert s[..last] == s[..i] + [s[i]] + s[i + 1..last];
      assert RemoveWaiter(s, i) == s[..i] + [s[last]] + s[i + 1..last];
    } else {
      assert RemoveWaiter(s, i) == s[..last];
    }
  }

  lemma RemoveWaiterDistinct(s: seq<Channel>, i: nat)
    requires i < |s| && Distinct(s)
    ensures Distinct(RemoveWaiter(s, i)) && forall w :: w in RemoveWaiter(s, i) <==> w in s && w != s[i]
  {
    var r := RemoveWaiter(s, i);
    assert forall k :: 0 <= k < |r| ==> r[k] == if k == i then s[|s| - 1] else s[k];
    forall w | w in s && w != s[i] ensures w in r {
      var k :| 0 <= k < |s| && s[k] == w;
      assert w == r[if k == |s| - 1 then i else k];
    }
  }

  class Event {
    var v: bool
    var waiters: seq<Channel>
    ghost var signalled: set<Channel>
    ghost var removed: set<Channel>

    /** NO LOST AND NO DOUBLE WAKEUP.  Every waiter ever registered is exactly one of: listed, with an
        open and empty channel; signalled, with one token sent in all and able to go on; or timed out
        and removed, with nothing ever sent.  Nobody is listed while the event is set. */
    ghost predicate Valid()
      reads this, waiters, signalled, removed
    {
      && Distinct(waiters)
      && signalled !! removed && (forall w :: w in waiters ==> w !in signalled && w !in removed)
      && (forall w :: w in waiters ==> !w.full && !w.closed && w.sent == 0)
      && (forall w :: w in removed ==> !w.full && !w.closed && w.sent == 0)
      && (forall w :: w in signalled ==> w.closed && w.sent == 1)
      && (v ==> waiters == [])
    }

    constructor ()
      ensures Valid() && !v && waiters == [] && signalled == {} && removed == {}
    {
      v, waiters, signalled, removed := false, [], {}, {};
    }

    /** Everybody listed is woken: no send finds a full or closed channel. */
    method Set()
      requires Valid()
      modifies this, waiters
      ensures Valid() && v && waiters == [] && removed == old(removed)
      ensures signalled == old(signalled) + set w | w in old(waiters)
      ensures forall w :: w in old(waiters) ==> w.full && w.closed && w.sent == 1
    {
      v := true;
      if |waiters| != 0 {
        for i := 0 to |waiters|
          invariant v && waiters == old(waiters) && signalled == old(signalled) && removed == old(removed)
          invariant forall j :: 0 <= j < i ==> waiters[j].full && waiters[j].closed && waiters[j].sent == 1
          invariant forall j :: i <= j < |waiters| ==> !waiters[j].full && !waiters[j].closed && waiters[j].sent == 0
          invariant forall w :: w in signalled || w in removed ==> unchanged(w)
        {
          waiters[i].Send();
          waiters[i].Close();
        }
        signalled := signalled + set w | w in waiters;
        waiters := [];
      }
    }

    method Clear()
      requires Valid()
      modifies this`v
      ensures Valid() && !v
    {
      if !v {
        return;
      }
      v := false;
    }

    /** The first part of WaitFor: a set event is not waited for. */
    method Register() returns (w: Option<Channel>)
      requires Valid()
      modifies this`waiters
      ensures Valid() && (w.None? <==> v)
      ensures w.None? ==> waiters == old(waiters)
      ensures w.Some? ==> fresh(w.value) && waiters == old(waiters) + [w.value]
    {
      if v {
        return None;
      }
      var c := new Channel();
      waiters := waiters + [c];
      return Some(c);
    }

    /** The goroutine of WaitFor after its sleep: the waiter is taken off the list if it is still there. */
    method Expire(w: Channel)
      requires Valid()
      modifies this`waiters, this`removed
      ensures Valid()
      ensures if w in old(waiters) then multiset(waiters) == multiset(old(waiters)) - multiset{w} && removed == old(removed) + {w}
              else waiters == old(waiters) && removed == old(removed)
    {
      for i := 0 to |waiters|
        invariant waiters == old(waiters) && removed == old(removed)
        invariant w !in waiters[..i]
      {
        if waiters[i] == w {
          RemoveWaiterKeepsOthers(waiters, i);
          RemoveWaiterDistinct(waiters, i);
          waiters := RemoveWaiter(waiters, i);
          removed := removed + {w};
          break;
        }
      }
      assert w in old(waiters) ==> w !in waiters;
    }

    /** The select at the end of WaitFor: it may take the token if there is one, or the timeout if the
        sleep is over.  It goes on once signalled, and answers true only when signalled. */
    method Select(w: Channel, timedOut: bool, preferTimeout: bool) returns (woken: bool)
      requires Valid() && (w in waiters || w in signalled || w in removed) && (w.Ready() || timedOut)
      modifies w
      ensures Valid() && (woken ==> w in signalled) && (!woken ==> timedOut)
    {
      if w.Ready() && !(timedOut && preferTimeout) {
        w.Receive();
        return true;
      }
      return false;
    }

    /** A receive on a waiter's channel can go on exactly if the waiter was signalled. */
    lemma ReadyIffSignalled(w: Channel)
      requires Valid() && (w in waiters || w in signalled || w in removed)
      ensures w.Ready() <==> w in signalled
    {
    }

    /** A waiter is in exactly one of the three states. */
    lemma ExactlyOneState(w: Channel)
      requires Valid() && (w in waiters || w in signalled || w in removed)
      ensures (w in waiters) == (w !in signalled && w !in removed)
      ensures w in waiters ==> multiset(waiters)[w] == 1
    {
      if w in waiters {
        var i :| 0 <= i < |waiters| && waiters[i] == w;
        assert waiters == waiters[..i] + [w] + waiters[i + 1..];
        assert w !in waiters[..i] && w !in waiters[i + 1..];
      }
    }
  }

}
