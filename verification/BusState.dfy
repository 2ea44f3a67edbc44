/** The bus in the code's own form: a map of subscriptions, one bounded channel per
    subscription, and a drop counter, updated in place under the lock. */
module BusState {
  import opened Common
  import opened Words
  import opened MessageCodec
  import opened Routing
  import opened BusProtocol
  import opened BusTheorems

  lemma HavingAdd(cap: nat, subs: map<SubId, Filter>, chans: map<SubId, Chan>, done: set<SubId>, id: SubId,
                  topic: seq<Utf8.byte>, o: Outcome)
    requires id in subs && id in chans && id !in done
    ensures |Having(cap, subs, chans, done + {id}, topic, o)|
              == |Having(cap, subs, chans, done, topic, o)|
                 + (if Attempt(cap, subs[id], chans[id], topic) == o then 1 else 0)
  {
    HavingStep(cap, subs, chans, chans[id], id, done, topic, o);
    assert chans[id := chans[id]] == chans;
  }

  lemma FanoutAdd(cap: nat, subs: map<SubId, Filter>, chans: map<SubId, Chan>, done: set<SubId>, id: SubId,
                  topic: seq<Utf8.byte>, e: Entry)
    requires id in subs && id in chans && id !in done
    ensures Fanout(cap, subs, chans, done, topic, e)[id := Deliver(cap, subs[id], chans[id], topic, e)]
              == Fanout(cap, subs, chans, done + {id}, topic, e)
  {
  }

  /** Matching subscribers whose receiver is connected and has room. */
  ghost function Accepting(cap: nat, subs: map<SubId, Filter>, chans: map<SubId, Chan>, topic: seq<Utf8.byte>)
    : set<SubId>
  {
    set id | id in subs && id in chans && Matches(subs[id], topic) && chans[id].alive && |chans[id].queue| < cap
  }

  /** Matching subscribers whose receiver is connected and whose queue is full. */
  ghost function Overflowing(cap: nat, subs: map<SubId, Filter>, chans: map<SubId, Chan>, topic: seq<Utf8.byte>)
    : set<SubId>
  {
    set id | id in subs && id in chans && Matches(subs[id], topic) && chans[id].alive && |chans[id].queue| >= cap
  }

  /** Matching subscribers whose receiver has gone. */
  ghost function Disconnected(subs: map<SubId, Filter>, chans: map<SubId, Chan>, topic: seq<Utf8.byte>): set<SubId> {
    set id | id in subs && id in chans && Matches(subs[id], topic) && !chans[id].alive
  }

  /** Each matching subscription meets exactly one of the three outcomes. */
  lemma OutcomesPartition(cap: nat, subs: map<SubId, Filter>, chans: map<SubId, Chan>, topic: seq<Utf8.byte>)
    requires subs.Keys <= chans.Keys
    ensures |Accepting(cap, subs, chans, topic)| + |Overflowing(cap, subs, chans, topic)|
            + |Disconnected(subs, chans, topic)| == |Matching(subs, topic)|
  {
    var a, b := Accepting(cap, subs, chans, topic), Overflowing(cap, subs, chans, topic);
    var c := Disconnected(subs, chans, topic);
    assert a + b + c == Matching(subs, topic);
    assert |a + b| == |a| + |b| && |a + b + c| == |a + b| + |c|;
  }

  /** The channels after `e` has gone to the subscribers in `to`. */
  ghost predicate DeliveredTo(to: set<SubId>, before: map<SubId, Chan>, e: Entry, after: map<SubId, Chan>) {
    && after.Keys == before.Keys
    && forall id :: id in before ==>
         after[id] == if id in to then before[id].(queue := before[id].queue + [e]) else before[id]
  }

  lemma HavingMeans(cap: nat, subs: map<SubId, Filter>, chans: map<SubId, Chan>, topic: seq<Utf8.byte>, e: Entry)
    ensures Having(cap, subs, chans, subs.Keys, topic, Sent) == Accepting(cap, subs, chans, topic)
    ensures Having(cap, subs, chans, subs.Keys, topic, Full) == Overflowing(cap, subs, chans, topic)
    ensures DeliveredTo(Accepting(cap, subs, chans, topic), chans, e, Fanout(cap, subs, chans, subs.Keys, topic, e))
  {
  }

  /** The drop counter after `n` increments. */
  function Bumped(d: nat, n: nat): nat { if n == 0 then d else (Bumped(d, n - 1) + 1) % WORD }

  lemma {:induction false} BumpedIsSum(d: nat, n: nat)
    requires d < WORD
    ensures Bumped(d, n) == (d + n) % WORD
  {
    if n == 0 {
    } else {
      BumpedIsSum(d, n - 1);
      WrapSucc(d + (n - 1), WORD);
    }
  }

  ghost function Listed(ids: set<SubId>): (s: seq<SubId>)
    ensures NoRepeats(s) && SetOf(s) == ids
  {
    if ids == {} then []
    else
      var id :| id in ids;
      var rest := Listed(ids - {id});
      assert id !in SetOf(rest) && SetOf([id] + rest) == ids by {
        assert forall x :: x in rest <==> x in SetOf(rest);
        assert forall x :: x in [id] + rest <==> x == id || x in rest;
      }
      [id] + rest
  }

  lemma {:induction false} DrainKeeps(cap: nat, s: Bus)
    requires Inv(cap, s) && s.lock.Some?
    ensures Inv(cap, Drain(cap, s)) && Drain(cap, s).lock.Some? && Drain(cap, s).lock.value.todo == []
    decreases |s.lock.value.todo|
  {
    if s.lock.value.todo == [] {
    } else {
      StepKeeps(cap, s, TrySend);
      DrainKeeps(cap, SendOne(cap, s));
    }
  }

  /** A whole offer: take the lock, serve everyone, return. */
  ghost function Offered(cap: nat, s: Bus, m: Message): Bus
    requires s.lock.None?
  {
    Next(cap, Served(cap, Next(cap, s, Begin(m, Listed(s.subs.Keys)))), End)
  }

  lemma OfferedKeeps(cap: nat, s: Bus, m: Message)
    requires Inv(cap, s) && s.lock.None?
    ensures Inv(cap, Offered(cap, s, m))
  {
    var b := Next(cap, s, Begin(m, Listed(s.subs.Keys)));
    StepKeeps(cap, s, Begin(m, Listed(s.subs.Keys)));
    DrainKeeps(cap, b);
    DrainIsServed(cap, b);
    StepKeeps(cap, Drain(cap, b), End);
  }

  /** The whole effect of one offer: who gets the message, what is counted, and that nothing
      else changes. */
  ghost predicate Effect(cap: nat, s: Bus, m: Message, r: OfferResult, t: Bus) {
    var topic := TopicStr(m);
    && r.sent == |Accepting(cap, s.subs, s.chans, topic)|
    && r.dropped == |Overflowing(cap, s.subs, s.chans, topic)|
    && r.sent + r.dropped + |Disconnected(s.subs, s.chans, topic)| == |Matching(s.subs, topic)|
    && DeliveredTo(Accepting(cap, s.subs, s.chans, topic), s.chans, Entry(|s.offered|, m), t.chans)
    && t.dropCount == (s.dropCount + r.dropped) % WORD
    && t.subs == s.subs && t.nextId == s.nextId && t.lock == s.lock
    && t.offered == s.offered + [m] && t.results == s.results + [r]
  }

  lemma EffectHolds(cap: nat, s: Bus, m: Message, r: OfferResult, t: Bus)
    requires s.subs.Keys <= s.chans.Keys
    requires r.sent == |Accepting(cap, s.subs, s.chans, TopicStr(m))|
    requires r.dropped == |Overflowing(cap, s.subs, s.chans, TopicStr(m))|
    requires DeliveredTo(Accepting(cap, s.subs, s.chans, TopicStr(m)), s.chans, Entry(|s.offered|, m), t.chans)
    requires t == s.(chans := t.chans, dropCount := (s.dropCount + r.dropped) % WORD,
                     offered := s.offered + [m], results := s.results + [r])
    ensures Effect(cap, s, m, r, t)
  {
    OutcomesPartition(cap, s.subs, s.chans, TopicStr(m));
  }

  /** The effect determines the state after the offer. */
  lemma EffectIsOffered(cap: nat, s: Bus, m: Message, r: OfferResult, t: Bus)
    requires Inv(cap, s) && s.lock.None? && Effect(cap, s, m, r, t)
    ensures t == Offered(cap, s, m)
  {
    var topic, e := TopicStr(m), Entry(|s.offered|, m);
    HavingMeans(cap, s.subs, s.chans, topic, e);
    SameDelivery(Accepting(cap, s.subs, s.chans, topic), s.chans, e, t.chans,
                 Fanout(cap, s.subs, s.chans, s.subs.Keys, topic, e));
    OfferedFields(cap, s, m, topic, t, r);
  }

  lemma SameDelivery(to: set<SubId>, before: map<SubId, Chan>, e: Entry, a: map<SubId, Chan>, b: map<SubId, Chan>)
    requires DeliveredTo(to, before, e, a) && DeliveredTo(to, before, e, b)
    ensures a == b
  {
  }

  lemma OfferedFields(cap: nat, s: Bus, m: Message, topic: seq<Utf8.byte>, t: Bus, r: OfferResult)
    requires s.lock.None? && topic == TopicStr(m)
    requires r.sent == |Having(cap, s.subs, s.chans, s.subs.Keys, topic, Sent)|
    requires r.dropped == |Having(cap, s.subs, s.chans, s.subs.Keys, topic, Full)|
    requires t.nextId == s.nextId && t.subs == s.subs && t.lock.None?
    requires t.chans == Fanout(cap, s.subs, s.chans, s.subs.Keys, topic, Entry(|s.offered|, m))
    requires t.dropCount == (s.dropCount + r.dropped) % WORD
    requires t.offered == s.offered + [m] && t.results == s.results + [r]
    ensures t == Offered(cap, s, m)
  {
    assert r == OfferResult(r.sent, r.dropped);
  }

  /** A new subscriber's queue after the next offer: that message alone if its topic
      matches the pattern, and nothing otherwise. */
  lemma NewSubscriberReceives(cap: nat, s: Bus, p: seq<Utf8.byte>, m: Message)
    requires Inv(cap, s) && s.lock.None?
    ensures var t := Offered(cap, Next(cap, s, Subscribe(p)), m);
            && s.nextId in t.chans
            && t.chans[s.nextId].Delivered() ==
                 if Matches(Parse(p), TopicStr(m)) then [Entry(|s.offered|, m)] else []
  {
    var a := Next(cap, s, Subscribe(p));
    var id, e := s.nextId, Entry(|s.offered|, m);
    assert Deliver(cap, Parse(p), a.chans[id], TopicStr(m), e).queue
        == if Matches(Parse(p), TopicStr(m)) then [] + [e] else [];
    assert SetOf(Listed(a.subs.Keys)) == a.subs.Keys;
  }

  /** End to end, from a topic text to a queue: publishing under a NUL-free topic of at most
      32 bytes, at any time, reaches a new subscriber exactly when its pattern is the topic
      or ends in `*` with the rest a prefix of it. */
  lemma PublishedReachesSelected(cap: nat, s: Bus, p: seq<Utf8.byte>, topic: seq<Utf8.byte>,
                                 payload: seq<Utf8.byte>, now: nat)
    requires Inv(cap, s) && s.lock.None? && now < WORD
    requires Utf8.Valid(topic) && FirstZero(topic) == |topic| <= 32
    ensures var m := New(topic, payload).(timestamp := now);
            var t := Offered(cap, Next(cap, s, Subscribe(p)), m);
            && s.nextId in t.chans
            && t.chans[s.nextId].Delivered() == if Selects(p, topic) then [Entry(|s.offered|, m)] else []
  {
    var m: Message := New(topic, payload).(timestamp := now);
    NewSubscriberReceives(cap, s, p, m);
    TimestampIrrelevant(New(topic, payload), now);
    RoutesByRule(p, topic, payload);
  }

  /** The loop of `offer` after serving the subscribers in `done`. */
  ghost predicate Halfway(cap: nat, subs: map<SubId, Filter>, chans0: map<SubId, Chan>, done: set<SubId>,
                          topic: seq<Utf8.byte>, e: Entry, chans: map<SubId, Chan>, sent: nat, dropped: nat)
  {
    && chans == Fanout(cap, subs, chans0, done, topic, e)
    && sent == |Having(cap, subs, chans0, done, topic, Sent)|
    && dropped == |Having(cap, subs, chans0, done, topic, Full)|
  }

  lemma HalfwayStart(cap: nat, subs: map<SubId, Filter>, chans0: map<SubId, Chan>, topic: seq<Utf8.byte>, e: Entry)
    ensures Halfway(cap, subs, chans0, subs.Keys - subs.Keys, topic, e, chans0, 0, 0)
  {
  }

  lemma HalfwayStep(cap: nat, subs: map<SubId, Filter>, chans0: map<SubId, Chan>, done: set<SubId>,
                    topic: seq<Utf8.byte>, e: Entry, chans: map<SubId, Chan>, sent: nat, dropped: nat, id: SubId)
    requires Halfway(cap, subs, chans0, done, topic, e, chans, sent, dropped)
    requires id in subs && id in chans && id !in done
    ensures var out := Attempt(cap, subs[id], chans[id], topic);
            Halfway(cap, subs, chans0, done + {id}, topic, e,
                    chans[id := Deliver(cap, subs[id], chans[id], topic, e)],
                    if out == Sent then sent + 1 else sent, if out == Full then dropped + 1 else dropped)
  {
    HavingAdd(cap, subs, chans0, done, id, topic, Sent);
    HavingAdd(cap, subs, chans0, done, id, topic, Full);
    FanoutAdd(cap, subs, chans0, done, id, topic, e);
  }

  lemma HalfwayEnd(cap: nat, subs: map<SubId, Filter>, chans0: map<SubId, Chan>, topic: seq<Utf8.byte>, e: Entry,
                   chans: map<SubId, Chan>, sent: nat, dropped: nat)
    requires Halfway(cap, subs, chans0, subs.Keys, topic, e, chans, sent, dropped)
    ensures sent == |Accepting(cap, subs, chans0, topic)| && dropped == |Overflowing(cap, subs, chans0, topic)|
    ensures DeliveredTo(Accepting(cap, subs, chans0, topic), chans0, e, chans)
  {
    HavingMeans(cap, subs, chans0, topic, e);
  }

  class BusObject {
    const capacity: nat
    var nextId: SubId
    var subs: map<SubId, Filter>
    var chans: map<SubId, Chan>
    var dropCount: nat
    var offered: seq<Message>
    ghost var results: seq<OfferResult>

    /** The state between calls as a state of the step model. */
    ghost function Abs(): Bus
      reads this
    {
      Bus(nextId, subs, chans, dropCount, None, offered, results)
    }

    ghost predicate Valid()
      reads this
    {
      Inv(capacity, Abs())
    }

    constructor (capacity: nat)
      requires capacity >= 1
      ensures Valid() && Abs() == Init(0) && this.capacity == capacity
    {
      this.capacity, nextId, subs, chans, dropCount := capacity, 0, map[], map[], 0;
      offered, results := [], [];
      new;
      InitInv(capacity, 0);
    }

    method Subscribe(pattern: seq<Utf8.byte>) returns (id: SubId)
      requires Valid()
      modifies this
      ensures Valid() && Abs() == Next(capacity, old(Abs()), Label.Subscribe(pattern))
      ensures id == old(nextId) && id !in old(chans) && id !in old(subs)
      ensures subs == old(subs)[id := Parse(pattern)]
      ensures chans == old(chans)[id := Chan(Parse(pattern), true, [], [])]
    {
      StepKeeps(capacity, Abs(), Label.Subscribe(pattern));
      assert ChanAt(capacity, Abs(), nextId);
      id := nextId;
      nextId := nextId + 1;
      subs := subs[id := Parse(pattern)];
      chans := chans[id := Chan(Parse(pattern), true, [], [])];
    }

    method Unsubscribe(id: SubId)
      requires Valid()
      modifies this
      ensures Valid() && Abs() == Next(capacity, old(Abs()), Label.Unsubscribe(id))
      ensures id !in subs && chans == old(chans)
      ensures forall i :: i != id ==> (i in subs <==> i in old(subs)) && (i in subs ==> subs[i] == old(subs)[i])
    {
      StepKeeps(capacity, Abs(), Label.Unsubscribe(id));
      subs := subs - {id};
    }

    /** One `try_send` of the loop of `offer`. */
    method ServeOne(id: SubId, topic: seq<Utf8.byte>, e: Entry) returns (out: Outcome)
      requires id in subs && id in chans && dropCount < WORD
      modifies `chans, `dropCount
      ensures out == Attempt(capacity, subs[id], old(chans)[id], topic)
      ensures chans == old(chans)[id := Deliver(capacity, subs[id], old(chans)[id], topic, e)]
      ensures dropCount == if out == Full then (old(dropCount) + 1) % WORD else old(dropCount)
    {
      var ch := chans[id];
      assert chans[id := ch] == chans;
      out := Skipped;
      if Matches(subs[id], topic) {
        if !ch.alive {
          out := Gone;
        } else if |ch.queue| < capacity {
          chans := chans[id := ch.(queue := ch.queue + [e])];
          out := Sent;
        } else {
          dropCount := (dropCount + 1) % WORD;
          out := Full;
        }
      }
    }

    /** The loop of `offer`, over the subscriptions in whatever order the map gives. */
    method FanOut(topic: seq<Utf8.byte>, e: Entry) returns (sent: nat, dropped: nat)
      requires subs.Keys <= chans.Keys && dropCount < WORD
      modifies `chans, `dropCount
      ensures dropCount == (old(dropCount) + dropped) % WORD
      ensures sent == |Accepting(capacity, subs, old(chans), topic)|
      ensures dropped == |Overflowing(capacity, subs, old(chans), topic)|
      ensures DeliveredTo(Accepting(capacity, subs, old(chans), topic), old(chans), e, chans)
    {
      ghost var chans0, drops0 := chans, dropCount;
      var todo := subs.Keys;
      sent, dropped := 0, 0;
      HalfwayStart(capacity, subs, chans0, topic, e);
      while todo != {}
        invariant todo <= subs.Keys && chans.Keys == chans0.Keys
        invariant Halfway(capacity, subs, chans0, subs.Keys - todo, topic, e, chans, sent, dropped)
        invariant dropCount == Bumped(drops0, dropped)
        decreases todo
      {
        var id :| id in todo;
        ghost var done := subs.Keys - todo;
        HalfwayStep(capacity, subs, chans0, done, topic, e, chans, sent, dropped, id);
        var out := ServeOne(id, topic, e);
        todo := todo - {id};
        assert subs.Keys - todo == done + {id};
        if out == Sent { sent := sent + 1; }
        if out == Full { dropped := dropped + 1; }
      }
      assert subs.Keys - todo == subs.Keys;
      HalfwayEnd(capacity, subs, chans0, topic, e, chans, sent, dropped);
      BumpedIsSum(drops0, dropped);
    }

    /** The part of `offer` under the lock. */
    method Distribute(m: Message) returns (r: OfferResult)
      requires subs.Keys <= chans.Keys && dropCount < WORD
      modifies `chans, `dropCount, `offered, `results
      ensures Effect(capacity, old(Abs()), m, r, Abs())
    {
      ghost var before := Abs();
      var sent, dropped := FanOut(TopicStr(m), Entry(|offered|, m));
      r := OfferResult(sent, dropped);
      offered := offered + [m];
      results := results + [r];
      EffectHolds(capacity, before, m, r, Abs());
    }

    /** Offers `msg`, stamped `now`: the whole effect is that of one atomic offer.  The stamped
        message goes to the matching subscribers with room, the full ones are counted as
        dropped, and the disconnected ones in neither count. */
    method Offer(msg: Message, now: nat) returns (r: OfferResult)
      requires Valid() && now < WORD
      modifies this
      ensures Valid() && Abs() == Offered(capacity, old(Abs()), msg.(timestamp := now))
      ensures Effect(capacity, old(Abs()), msg.(timestamp := now), r, Abs())
    {
      var m: Message := msg.(timestamp := now);
      ghost var before := Abs();
      r := Distribute(m);
      EffectIsOffered(capacity, before, m, r, Abs());
      OfferedKeeps(capacity, before, m);
    }

    /** The fire-and-forget form: the same offer, reporting only how many accepted. */
    method Publish(msg: Message, now: nat) returns (sent: nat)
      requires Valid() && now < WORD
      modifies this
      ensures Valid() && Abs() == Offered(capacity, old(Abs()), msg.(timestamp := now))
      ensures sent == |Accepting(capacity, old(subs), old(chans), TopicStr(msg.(timestamp := now)))|
    {
      var r := Offer(msg, now);
      sent := r.sent;
    }
  }
}
