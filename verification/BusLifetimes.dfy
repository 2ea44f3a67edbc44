/** What subscribing, unsubscribing, receiving and disconnecting do, over every run that
    follows. */
module BusLifetimes {
  import opened Common
  import opened BusProtocol
  import opened BusTheorems

  // ---------------------------------------------------------------- subscriptions

  /** A subscription lasts, with its filter, until it is itself unsubscribed. */
  lemma {:induction false} SubscribedExactly(cap: nat, s: Bus, ls: seq<Label>, t: Bus, id: SubId)
    requires Run(cap, s, ls, t) && id in s.subs && id < s.nextId
    ensures id in t.subs <==> Unsubscribe(id) !in ls
    ensures id in t.subs ==> t.subs[id] == s.subs[id]
    decreases |ls|
  {
    if ls == [] {
    } else {
      var s' := Next(cap, s, ls[0]);
      assert ls == [ls[0]] + ls[1..];
      if ls[0] == Unsubscribe(id) {
        if id in t.subs { StillSubscribed(cap, s', ls[1..], t, id); }
      } else {
        SubscribedExactly(cap, s', ls[1..], t, id);
      }
    }
  }

  /** After an unsubscribe, whatever follows, the subscriber is out for good: it gets no turn
      and no message, while its receiver keeps what was queued. */
  lemma UnsubscribeSilences(cap: nat, s: Bus, id: SubId, ls: seq<Label>, t: Bus)
    requires Inv(cap, s) && s.lock.None? && id in s.subs
    requires Run(cap, Next(cap, s, Unsubscribe(id)), ls, t)
    ensures id !in t.subs && id in t.chans
    ensures Turns(cap, Next(cap, s, Unsubscribe(id)), ls, t, id) == []
    ensures t.chans[id].alive ==> t.chans[id].Delivered() == s.chans[id].Delivered()
    ensures s.chans[id].alive ==> (t.chans[id].alive <==> Disconnect(id) !in ls)
  {
    var s' := Next(cap, s, Unsubscribe(id));
    assert ChanAt(cap, s, id);
    StepKeeps(cap, s, Unsubscribe(id));
    UnsubscribedIsSilent(cap, s', ls, t, id);
    if s.chans[id].alive { AliveExactly(cap, s', ls, t, id); }
  }

  // ---------------------------------------------------------------- receivers

  /** A receiver is connected until it disconnects. */
  lemma {:induction false} AliveExactly(cap: nat, s: Bus, ls: seq<Label>, t: Bus, id: SubId)
    requires Run(cap, s, ls, t) && id in s.chans && id < s.nextId && s.chans[id].alive
    ensures id in t.chans && (t.chans[id].alive <==> Disconnect(id) !in ls)
    decreases |ls|
  {
    if ls == [] {
    } else {
      var s' := Next(cap, s, ls[0]);
      assert ls == [ls[0]] + ls[1..];
      if ls[0] == Disconnect(id) {
        StaysDead(cap, s', ls[1..], t, id);
      } else {
        AliveExactly(cap, s', ls[1..], t, id);
      }
    }
  }

  lemma {:induction false} DeadUnchanged(cap: nat, s: Bus, ls: seq<Label>, t: Bus, id: SubId)
    requires Run(cap, s, ls, t) && id in s.chans && id < s.nextId && !s.chans[id].alive
    ensures id in t.chans && t.chans[id] == s.chans[id]
    decreases |ls|
  {
    if ls == [] {
    } else {
      DeadUnchanged(cap, Next(cap, s, ls[0]), ls[1..], t, id);
    }
  }

  /** After a receiver disconnects, whatever follows, it holds exactly what it had taken, and
      nothing is queued for it again. */
  lemma DisconnectSilences(cap: nat, s: Bus, id: SubId, ls: seq<Label>, t: Bus)
    requires Inv(cap, s) && id in s.chans && s.chans[id].alive
    requires Run(cap, Next(cap, s, Disconnect(id)), ls, t)
    ensures id in t.chans && !t.chans[id].alive
    ensures t.chans[id].got == s.chans[id].got && t.chans[id].queue == []
  {
    assert ChanAt(cap, s, id);
    DeadUnchanged(cap, Next(cap, s, Disconnect(id)), ls, t, id);
  }

  /** Over any run a receiver takes one message with each receive and none otherwise, keeping
      those it had; with the order of its deliveries, these are the oldest not yet taken. */
  lemma {:induction false} ReceivesCount(cap: nat, s: Bus, ls: seq<Label>, t: Bus, id: SubId)
    requires Run(cap, s, ls, t) && id in s.chans && id < s.nextId
    ensures id in t.chans && s.chans[id].got <= t.chans[id].got
    ensures |t.chans[id].got| == |s.chans[id].got| + multiset(ls)[Recv(id)]
    decreases |ls|
  {
    if ls == [] {
    } else {
      assert ls == [ls[0]] + ls[1..];
      ReceivesCount(cap, Next(cap, s, ls[0]), ls[1..], t, id);
    }
  }
}
