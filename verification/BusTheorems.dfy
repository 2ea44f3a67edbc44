/** What every run of the bus guarantees. */
module BusTheorems {
  import opened Common
  import opened Words
  import opened MessageCodec
  import opened Routing
  import opened BusProtocol

  lemma InitInv(cap: nat, first: SubId)
    requires cap >= 1
    ensures Inv(cap, Init(first))
  {
  }

  lemma RunFromInit(cap: nat, ls: seq<Label>, t: Bus)
    requires cap >= 1 && Run(cap, Init(0), ls, t)
    ensures Inv(cap, t)
  {
    InitInv(cap, 0);
    RunKeeps(cap, Init(0), ls, t);
  }

  // ---------------------------------------------------------------- common order

  /** Common entries stand in the same order in both sequences. */
  ghost predicate Agree(x: seq<Entry>, y: seq<Entry>) {
    forall i, j, i', j' | 0 <= i < j < |x| && 0 <= i' < |y| && 0 <= j' < |y| ::
      x[i] == y[i'] && x[j] == y[j'] ==> i' < j'
  }

  lemma OrderedAgree(x: seq<Entry>, y: seq<Entry>)
    requires InOrder(x) && InOrder(y)
    ensures Agree(x, y)
  {
  }

  /** In every run each subscriber's deliveries are offers that matched its filter, in
      lock order, none twice; its queue is bounded; and any two subscribers agree on
      the order of the messages they both received. */
  lemma CommonOrder(cap: nat, ls: seq<Label>, t: Bus, a: SubId, b: SubId)
    requires cap >= 1 && Run(cap, Init(0), ls, t) && a in t.chans && b in t.chans
    ensures |t.chans[a].queue| <= cap && InOrder(t.chans[a].Delivered())
    ensures var x := t.chans[a].Delivered();
            forall i :: 0 <= i < |x| ==>
              x[i].no < |t.offered| && x[i].msg == t.offered[x[i].no]
              && Matches(t.chans[a].filter, TopicStr(x[i].msg))
    ensures Agree(t.chans[a].Delivered(), t.chans[b].Delivered())
  {
    RunFromInit(cap, ls, t);
    assert ChanAt(cap, t, a) && ChanAt(cap, t, b);
    OrderedAgree(t.chans[a].Delivered(), t.chans[b].Delivered());
  }

  // ---------------------------------------------------------------- what is delivered

  /** One turn of a subscriber in an offer: the offer's number, and whether the
      subscriber's queue had room when its turn came. */
  datatype Turn = Turn(no: nat, room: bool)

  function TurnOf(cap: nat, s: Bus, l: Label, id: SubId): seq<Turn>
    requires Enabled(s, l)
  {
    if l.TrySend? && s.lock.value.todo[0] == id && id in s.chans
    then [Turn(s.lock.value.no, |s.chans[id].queue| < cap)] else []
  }

  /** The turns of subscriber `id` along a run. */
  ghost function Turns(cap: nat, s: Bus, ls: seq<Label>, t: Bus, id: SubId): seq<Turn>
    requires Run(cap, s, ls, t)
    decreases |ls|
  {
    if ls == [] then [] else TurnOf(cap, s, ls[0], id) + Turns(cap, Next(cap, s, ls[0]), ls[1..], t, id)
  }

  /** Identifiers are not reused: who is subscribed at the end has been all along. */
  lemma {:induction false} StillSubscribed(cap: nat, s: Bus, ls: seq<Label>, t: Bus, id: SubId)
    requires Run(cap, s, ls, t) && id < s.nextId && id in t.subs
    ensures id in s.subs
    decreases |ls|
  {
    if ls == [] {
    } else {
      StillSubscribed(cap, Next(cap, s, ls[0]), ls[1..], t, id);
    }
  }

  /** A step gives a subscriber a turn exactly when its next offer is settled. */
  lemma StepTurn(cap: nat, s: Bus, l: Label, id: SubId)
    requires Inv(cap, s) && Enabled(s, l) && id in s.subs && id in Next(cap, s, l).subs
    ensures Limit(Next(cap, s, l), id) == Limit(s, id) + |TurnOf(cap, s, l, id)|
    ensures TurnOf(cap, s, l, id) != [] ==> TurnOf(cap, s, l, id)[0].no == Limit(s, id)
  {
  }

  /** Every offer made while a subscriber is subscribed gives it one turn, in lock order:
      over any stretch of any run the offers it is tried for are consecutive, from the
      first not yet settled for it at the start to the last settled at the end. */
  lemma {:induction false} EveryOfferGivesTurn(cap: nat, s: Bus, ls: seq<Label>, t: Bus, id: SubId)
    requires Inv(cap, s) && Run(cap, s, ls, t) && id in s.subs && id in t.subs
    ensures Limit(s, id) + |Turns(cap, s, ls, t, id)| == Limit(t, id)
    ensures forall k :: 0 <= k < |Turns(cap, s, ls, t, id)| ==> Turns(cap, s, ls, t, id)[k].no == Limit(s, id) + k
    decreases |ls|
  {
    if ls == [] {
    } else {
      var s' := Next(cap, s, ls[0]);
      StepKeeps(cap, s, ls[0]);
      assert ChanAt(cap, s, id);
      StillSubscribed(cap, s', ls[1..], t, id);
      StepTurn(cap, s, ls[0], id);
      EveryOfferGivesTurn(cap, s', ls[1..], t, id);
    }
  }

  /** Offer number `no`, if it matches the filter and there is room. */
  function TakenAt(f: Filter, offered: seq<Message>, no: nat, room: bool): seq<Entry>
    requires no < |offered|
  {
    if room && Matches(f, TopicStr(offered[no])) then [Entry(no, offered[no])] else []
  }

  /** The offers numbered from `no` on that match the filter and found room, turn by turn. */
  function Taken(f: Filter, offered: seq<Message>, no: nat, turns: seq<Turn>): seq<Entry>
    requires no + |turns| <= |offered|
    decreases |turns|
  {
    if turns == [] then []
    else TakenAt(f, offered, no, turns[0].room) + Taken(f, offered, no + 1, turns[1..])
  }

  /** What a live receiver of a subscriber holds grows in one step by its turn's message. */
  lemma StepDelivers(cap: nat, s: Bus, l: Label, id: SubId)
    requires Inv(cap, s) && Enabled(s, l) && id in s.chans
    requires id in Next(cap, s, l).chans && Next(cap, s, l).chans[id].alive
    ensures s.chans[id].alive && Next(cap, s, l).chans[id].filter == s.chans[id].filter
    ensures var turn := TurnOf(cap, s, l, id);
            && |turn| <= 1 && (turn != [] ==> turn[0].no < |s.offered|)
            && Next(cap, s, l).chans[id].Delivered() == s.chans[id].Delivered() +
                 (if turn == [] then [] else TakenAt(s.chans[id].filter, s.offered, turn[0].no, turn[0].room))
  {
    assert ChanAt(cap, s, id);
    match l
    case TrySend =>
      if s.lock.value.todo[0] == id {
        assert id in SetOf(s.lock.value.todo);
        TurnDelivers(cap, s, id);
      }
    case Recv(r) => RecvDelivers(cap, s, r, id);
    case _ =>
  }

  lemma RecvDelivers(cap: nat, s: Bus, r: SubId, id: SubId)
    requires Enabled(s, Recv(r)) && id in s.chans
    ensures Next(cap, s, Recv(r)).chans[id].Delivered() == s.chans[id].Delivered()
    ensures Next(cap, s, Recv(r)).chans[id].filter == s.chans[id].filter
    ensures Next(cap, s, Recv(r)).chans[id].alive ==> s.chans[id].alive
  {
  }

  lemma TurnDelivers(cap: nat, s: Bus, id: SubId)
    requires Enabled(s, TrySend) && OfferOk(s, s.lock.value) && s.lock.value.todo[0] == id
    requires id in s.subs && id in s.chans && s.subs[id] == s.chans[id].filter
    ensures var o, ch, held := s.lock.value, s.chans[id], SendOne(cap, s).chans[id];
            && held.alive == ch.alive && held.filter == ch.filter
            && (ch.alive ==> held.Delivered() == ch.Delivered()
                              + TakenAt(ch.filter, s.offered, o.no, |ch.queue| < cap))
  {
  }

  lemma {:induction false} OffersGrow(cap: nat, s: Bus, ls: seq<Label>, t: Bus)
    requires Run(cap, s, ls, t)
    ensures s.offered <= t.offered
    decreases |ls|
  {
    if ls == [] {
    } else {
      OffersGrow(cap, Next(cap, s, ls[0]), ls[1..], t);
    }
  }

  lemma {:induction false} StaysDead(cap: nat, s: Bus, ls: seq<Label>, t: Bus, id: SubId)
    requires Run(cap, s, ls, t) && id in s.chans && id < s.nextId
    ensures id in t.chans && (t.chans[id].alive ==> s.chans[id].alive)
    decreases |ls|
  {
    if ls == [] {
    } else {
      StaysDead(cap, Next(cap, s, ls[0]), ls[1..], t, id);
    }
  }

  /** What is held after these turns by one that held `held` before them. */
  function After(held: seq<Entry>, f: Filter, offered: seq<Message>, no: nat, turns: seq<Turn>): seq<Entry>
    requires no + |turns| <= |offered|
    decreases |turns|
  {
    if turns == [] then held
    else After(held + TakenAt(f, offered, no, turns[0].room), f, offered, no + 1, turns[1..])
  }

  lemma {:induction false} AfterIsTaken(held: seq<Entry>, f: Filter, offered: seq<Message>, no: nat, turns: seq<Turn>)
    requires no + |turns| <= |offered|
    ensures After(held, f, offered, no, turns) == held + Taken(f, offered, no, turns)
    decreases |turns|
  {
    if turns == [] {
    } else {
      var one := TakenAt(f, offered, no, turns[0].room);
      AfterIsTaken(held + one, f, offered, no + 1, turns[1..]);
      Assoc(held, one, Taken(f, offered, no + 1, turns[1..]));
    }
  }

  /** Over any stretch of any run throughout which it is subscribed, what a live receiver has
      taken and queued grows by exactly the messages offered meanwhile that match its filter
      and found room at their turn, in lock order. */
  lemma DeliveredIsOffered(cap: nat, s: Bus, ls: seq<Label>, t: Bus, id: SubId)
    requires Inv(cap, s) && Run(cap, s, ls, t) && id in s.subs && id in t.subs
    requires id in t.chans && t.chans[id].alive
    ensures Limit(s, id) + |Turns(cap, s, ls, t, id)| == Limit(t, id) <= |t.offered|
    ensures t.chans[id].Delivered() == s.chans[id].Delivered()
              + Taken(s.chans[id].filter, t.offered, Limit(s, id), Turns(cap, s, ls, t, id))
  {
    TurnsInRange(cap, s, ls, t, id);
    DeliveredAfter(cap, s, ls, t, id);
    AfterIsTaken(s.chans[id].Delivered(), s.chans[id].filter, t.offered, Limit(s, id), Turns(cap, s, ls, t, id));
  }

  lemma {:induction false} DeliveredAfter(cap: nat, s: Bus, ls: seq<Label>, t: Bus, id: SubId)
    requires Inv(cap, s) && Run(cap, s, ls, t) && id in s.subs && id in t.subs
    requires id in t.chans && t.chans[id].alive
    ensures Limit(s, id) + |Turns(cap, s, ls, t, id)| <= |t.offered|
    ensures t.chans[id].Delivered()
              == After(s.chans[id].Delivered(), s.chans[id].filter, t.offered, Limit(s, id), Turns(cap, s, ls, t, id))
    decreases |ls|
  {
    if ls == [] {
      TurnsInRange(cap, s, ls, t, id);
    } else {
      var s', turn := Next(cap, s, ls[0]), TurnOf(cap, s, ls[0], id);
      var rest := Turns(cap, s', ls[1..], t, id);
      assert Turns(cap, s, ls, t, id) == turn + rest;
      FirstStep(cap, s, ls, t, id);
      DeliveredAfter(cap, s', ls[1..], t, id);
      AfterStep(s.chans[id].Delivered(), s.chans[id].filter, t.offered, Limit(s, id), turn, rest);
    }
  }

  lemma TurnsInRange(cap: nat, s: Bus, ls: seq<Label>, t: Bus, id: SubId)
    requires Inv(cap, s) && Run(cap, s, ls, t) && id in s.subs && id in t.subs
    ensures Limit(s, id) + |Turns(cap, s, ls, t, id)| == Limit(t, id) <= |t.offered|
  {
    EveryOfferGivesTurn(cap, s, ls, t, id);
    RunKeeps(cap, s, ls, t);
  }

  lemma StaysLive(cap: nat, s: Bus, ls: seq<Label>, t: Bus, id: SubId)
    requires Inv(cap, s) && Run(cap, s, ls, t) && ls != [] && id in s.subs && id in t.subs
    requires id in t.chans && t.chans[id].alive
    ensures var s' := Next(cap, s, ls[0]);
            id in s'.subs && id in s'.chans && s'.chans[id].alive
  {
    assert ChanAt(cap, s, id);
    StillSubscribed(cap, Next(cap, s, ls[0]), ls[1..], t, id);
    StaysDead(cap, Next(cap, s, ls[0]), ls[1..], t, id);
  }

  lemma FirstStep(cap: nat, s: Bus, ls: seq<Label>, t: Bus, id: SubId)
    requires Inv(cap, s) && Run(cap, s, ls, t) && ls != [] && id in s.subs && id in t.subs
    requires id in t.chans && t.chans[id].alive
    ensures var s', turn := Next(cap, s, ls[0]), TurnOf(cap, s, ls[0], id);
            && Inv(cap, s') && id in s'.subs && id in s.chans && id in s'.chans
            && s'.chans[id].filter == s.chans[id].filter && |turn| <= 1
            && Limit(s', id) == Limit(s, id) + |turn| <= |t.offered|
            && s'.chans[id].Delivered() ==
                 After(s.chans[id].Delivered(), s.chans[id].filter, t.offered, Limit(s, id), turn)
  {
    var turn := TurnOf(cap, s, ls[0], id);
    StepKeeps(cap, s, ls[0]);
    assert ChanAt(cap, s, id);
    StaysLive(cap, s, ls, t, id);
    StepTurn(cap, s, ls[0], id);
    StepDelivers(cap, s, ls[0], id);
    OffersGrow(cap, s, ls, t);
    OneTurn(s.chans[id].Delivered(), s.chans[id].filter, s.offered, t.offered, Limit(s, id), turn);
  }

  lemma OneTurn(held: seq<Entry>, f: Filter, before: seq<Message>, offered: seq<Message>, no: nat, turn: seq<Turn>)
    requires |turn| <= 1 && before <= offered && no <= |before| && (turn != [] ==> turn[0].no == no < |before|)
    ensures After(held, f, offered, no, turn)
              == held + (if turn == [] then [] else TakenAt(f, before, no, turn[0].room))
  {
    if turn != [] { assert before[no] == offered[no] && turn[1..] == []; }
  }

  lemma AfterStep(held: seq<Entry>, f: Filter, offered: seq<Message>, no: nat, turn: seq<Turn>, rest: seq<Turn>)
    requires |turn| <= 1 && no + |turn| + |rest| <= |offered|
    ensures After(held, f, offered, no, turn + rest)
              == After(After(held, f, offered, no, turn), f, offered, no + |turn|, rest)
  {
    if turn == [] {
      assert turn + rest == rest;
    } else {
      assert (turn + rest)[1..] == rest && turn[1..] == [];
    }
  }

  /** The offers numbered `lo` up to `hi` that match a filter. */
  function OffersFor(f: Filter, offered: seq<Message>, lo: nat, hi: nat): seq<Entry>
    requires lo <= hi <= |offered|
    decreases hi - lo
  {
    if lo == hi then [] else TakenAt(f, offered, lo, true) + OffersFor(f, offered, lo + 1, hi)
  }

  predicate AllRoom(turns: seq<Turn>) { forall k :: 0 <= k < |turns| ==> turns[k].room }

  /** Without a turn that found the queue full, the deliveries are exactly the offers made
      meanwhile that match. */
  lemma NothingLostWithRoom(cap: nat, s: Bus, ls: seq<Label>, t: Bus, id: SubId)
    requires Inv(cap, s) && Run(cap, s, ls, t) && id in s.subs && id in t.subs
    requires id in t.chans && t.chans[id].alive && AllRoom(Turns(cap, s, ls, t, id))
    ensures Limit(s, id) <= Limit(t, id) <= |t.offered|
    ensures t.chans[id].Delivered() == s.chans[id].Delivered()
              + OffersFor(s.chans[id].filter, t.offered, Limit(s, id), Limit(t, id))
  {
    var turns := Turns(cap, s, ls, t, id);
    DeliveredIsOffered(cap, s, ls, t, id);
    AllTaken(s.chans[id].filter, t.offered, Limit(s, id), Limit(t, id), turns,
             s.chans[id].Delivered(), t.chans[id].Delivered());
  }

  lemma AllTaken(f: Filter, offered: seq<Message>, lo: nat, hi: nat, turns: seq<Turn>, d0: seq<Entry>, d1: seq<Entry>)
    requires lo + |turns| == hi <= |offered| && AllRoom(turns)
    requires d1 == d0 + Taken(f, offered, lo, turns)
    ensures d1 == d0 + OffersFor(f, offered, lo, hi)
  {
    TakenAll(f, offered, lo, turns);
  }

  lemma {:induction false} TakenAll(f: Filter, offered: seq<Message>, no: nat, turns: seq<Turn>)
    requires no + |turns| <= |offered| && AllRoom(turns)
    ensures Taken(f, offered, no, turns) == OffersFor(f, offered, no, no + |turns|)
    decreases |turns|
  {
    if turns == [] {
    } else {
      var rest := turns[1..];
      assert turns[0].room;
      assert AllRoom(rest) by { assert forall k :: 0 <= k < |rest| ==> rest[k] == turns[k + 1]; }
      TakenAll(f, offered, no + 1, rest);
    }
  }

  /** Once unsubscribed, a subscriber gets no turn and no message, whatever follows: its
      identifier is never used again. */
  lemma {:induction false} UnsubscribedIsSilent(cap: nat, s: Bus, ls: seq<Label>, t: Bus, id: SubId)
    requires Inv(cap, s) && Run(cap, s, ls, t) && id !in s.subs && id in s.chans
    ensures Turns(cap, s, ls, t, id) == [] && id !in t.subs && id in t.chans
    ensures t.chans[id].alive ==> t.chans[id].Delivered() == s.chans[id].Delivered()
    decreases |ls|
  {
    if ls == [] {
    } else {
      var s' := Next(cap, s, ls[0]);
      StepKeeps(cap, s, ls[0]);
      assert ChanAt(cap, s, id);
      if ls[0].TrySend? { assert s.lock.value.todo[0] in SetOf(s.lock.value.todo); }
      UnsubscribedIsSilent(cap, s', ls[1..], t, id);
      if t.chans[id].alive {
        StaysDead(cap, s', ls[1..], t, id);
        StepDelivers(cap, s, ls[0], id);
      }
    }
  }

  // ---------------------------------------------------------------- isolation

  function Only<V>(m: map<SubId, V>, id: SubId): map<SubId, V> {
    if id in m then map[id := m[id]] else map[]
  }

  function OnlyTodo(todo: seq<SubId>, id: SubId): seq<SubId> { if id in todo then [id] else [] }

  /** The steps that concern subscriber `id`. */
  function Project(s: Bus, l: Label, id: SubId): Option<Label>
    requires Enabled(s, l)
  {
    match l
    case Subscribe(_) => if s.nextId == id then Some(l) else None
    case Begin(m, order) => Some(Begin(m, OnlyTodo(order, id)))
    case TrySend => if s.lock.value.todo[0] == id then Some(l) else None
    case End => Some(l)
    case _ => if l.id == id then Some(l) else None
  }

  /** `u` is the bus seen by `id` alone in `s`: same subscription, same channel, same
      offers, and of the offer in progress only its own turn. */
  ghost predicate SeenBy(s: Bus, u: Bus, id: SubId) {
    && u.nextId == (if s.nextId <= id then id else id + 1)
    && u.subs == Only(s.subs, id) && u.chans == Only(s.chans, id)
    && u.offered == s.offered && u.lock.Some? == s.lock.Some?
    && (s.lock.Some? ==>
          var o, p := s.lock.value, u.lock.value;
          p.no == o.no && p.msg == o.msg && p.topic == o.topic && p.todo == OnlyTodo(o.todo, id))
  }

  /** A step of the bus is, for one subscriber, the same step of a bus with no other
      subscriber, or nothing. */
  lemma StepIsolates(cap: nat, s: Bus, u: Bus, l: Label, id: SubId)
    requires Inv(cap, s) && Enabled(s, l) && SeenBy(s, u, id)
    ensures var pl := Project(s, l, id);
            if pl.None? then SeenBy(Next(cap, s, l), u, id)
            else Enabled(u, pl.value) && SeenBy(Next(cap, s, l), Next(cap, u, pl.value), id)
  {
    assert ChanAt(cap, s, id);
    match l
    case TrySend => SendIsolates(cap, s, u, id);
    case Begin(m, order) => assert id in SetOf(order) <==> id in s.subs;
    case _ =>
  }

  lemma SendIsolates(cap: nat, s: Bus, u: Bus, id: SubId)
    requires Enabled(s, TrySend) && SeenBy(s, u, id)
    requires Counted(s.subs, s.lock.value) && s.subs.Keys <= s.chans.Keys
    ensures if s.lock.value.todo[0] == id then Enabled(u, TrySend) && SeenBy(SendOne(cap, s), SendOne(cap, u), id)
            else SeenBy(SendOne(cap, s), u, id)
  {
  }

  ghost function ProjectRun(cap: nat, s: Bus, ls: seq<Label>, t: Bus, id: SubId): seq<Label>
    requires Run(cap, s, ls, t)
    decreases |ls|
  {
    if ls == [] then []
    else
      var pl := Project(s, ls[0], id);
      (if pl.Some? then [pl.value] else []) + ProjectRun(cap, Next(cap, s, ls[0]), ls[1..], t, id)
  }

  lemma {:induction false} RunIsolates(cap: nat, s: Bus, u: Bus, ls: seq<Label>, t: Bus, id: SubId) returns (v: Bus)
    requires Inv(cap, s) && Run(cap, s, ls, t) && SeenBy(s, u, id)
    ensures Run(cap, u, ProjectRun(cap, s, ls, t, id), v) && SeenBy(t, v, id)
    decreases |ls|
  {
    if ls == [] {
      v := u;
    } else {
      var s', pl := Next(cap, s, ls[0]), Project(s, ls[0], id);
      StepKeeps(cap, s, ls[0]);
      StepIsolates(cap, s, u, ls[0], id);
      var rest := ProjectRun(cap, s', ls[1..], t, id);
      if pl.Some? {
        v := RunIsolates(cap, s', Next(cap, u, pl.value), ls[1..], t, id);
        assert ([pl.value] + rest)[1..] == rest;
      } else {
        v := RunIsolates(cap, s', u, ls[1..], t, id);
        assert [] + rest == rest;
      }
    }
  }

  /** Projecting any run onto one subscriber gives a run of a bus whose only subscriber
      it is, and its channel ends the same in both. */
  lemma SubscriberIsolation(cap: nat, ls: seq<Label>, t: Bus, id: SubId)
    requires cap >= 1 && Run(cap, Init(0), ls, t)
    ensures exists v :: Run(cap, Init(id), ProjectRun(cap, Init(0), ls, t, id), v)
                        && v.subs == Only(t.subs, id) && v.chans == Only(t.chans, id)
  {
    InitInv(cap, 0);
    var v := RunIsolates(cap, Init(0), Init(id), ls, t, id);
  }

  // ---------------------------------------------------------------- iteration order

  predicate Meets(cap: nat, subs: map<SubId, Filter>, chans: map<SubId, Chan>, topic: seq<Utf8.byte>,
                  o: Outcome, id: SubId)
  {
    id in subs && id in chans && Attempt(cap, subs[id], chans[id], topic) == o
  }

  /** Subscribers among `ids` that meet the topic with outcome `o`. */
  function Having(cap: nat, subs: map<SubId, Filter>, chans: map<SubId, Chan>, ids: set<SubId>,
                  topic: seq<Utf8.byte>, o: Outcome): set<SubId>
  {
    set id | id in ids && Meets(cap, subs, chans, topic, o, id)
  }

  /** All channels after the subscribers in `ids` have been served, in no order. */
  function Fanout(cap: nat, subs: map<SubId, Filter>, chans: map<SubId, Chan>, ids: set<SubId>,
                  topic: seq<Utf8.byte>, e: Entry): map<SubId, Chan>
  {
    map id | id in chans ::
      if id in ids && id in subs then Deliver(cap, subs[id], chans[id], topic, e) else chans[id]
  }

  /** The offer in progress run to its last send without interference. */
  function Drain(cap: nat, s: Bus): (t: Bus)
    requires s.lock.Some?
    decreases |s.lock.value.todo|
  {
    if s.lock.value.todo == [] then s else Drain(cap, SendOne(cap, s))
  }

  /** The offer in progress completed for everyone at once. */
  function Served(cap: nat, s: Bus): Bus
    requires s.lock.Some?
  {
    var o := s.lock.value;
    var ids := SetOf(o.todo);
    var full := |Having(cap, s.subs, s.chans, ids, o.topic, Full)|;
    s.(chans := Fanout(cap, s.subs, s.chans, ids, o.topic, Entry(o.no, o.msg)),
       dropCount := (s.dropCount + full) % WORD,
       lock := Some(o.(todo := [], dropped := o.dropped + full,
                       sent := o.sent + |Having(cap, s.subs, s.chans, ids, o.topic, Sent)|,
                       gone := o.gone + |Having(cap, s.subs, s.chans, ids, o.topic, Gone)|)))
  }

  /** Serving one subscriber first changes no other's outcome. */
  lemma HavingStep(cap: nat, subs: map<SubId, Filter>, chans: map<SubId, Chan>, ch: Chan,
                   id: SubId, rest: set<SubId>, topic: seq<Utf8.byte>, o: Outcome)
    requires id in subs && id in chans && id !in rest
    ensures |Having(cap, subs, chans, rest + {id}, topic, o)|
              == |Having(cap, subs, chans[id := ch], rest, topic, o)|
                 + (if Attempt(cap, subs[id], chans[id], topic) == o then 1 else 0)
  {
    var x, y := Having(cap, subs, chans, rest + {id}, topic, o), Having(cap, subs, chans[id := ch], rest, topic, o);
    forall i | i in rest
      ensures Meets(cap, subs, chans, topic, o, i) <==> Meets(cap, subs, chans[id := ch], topic, o, i)
    {
    }
    if Meets(cap, subs, chans, topic, o, id) {
      assert x == y + {id};
    } else {
      assert x == y;
    }
  }

  lemma FanoutStep(cap: nat, subs: map<SubId, Filter>, chans: map<SubId, Chan>, id: SubId, rest: set<SubId>,
                   topic: seq<Utf8.byte>, e: Entry)
    requires id in subs && id in chans && id !in rest
    ensures var chans' := chans[id := Deliver(cap, subs[id], chans[id], topic, e)];
            Fanout(cap, subs, chans, rest + {id}, topic, e) == Fanout(cap, subs, chans', rest, topic, e)
  {
  }

  lemma ServedStep(cap: nat, s: Bus)
    requires Enabled(s, TrySend) && NoRepeats(s.lock.value.todo)
    requires SetOf(s.lock.value.todo) <= s.subs.Keys <= s.chans.Keys
    ensures Served(cap, SendOne(cap, s)) == Served(cap, s)
  {
    var o, s' := s.lock.value, SendOne(cap, s);
    var id, rest := o.todo[0], SetOf(o.todo[1..]);
    SetOfHead(o.todo);
    assert id in SetOf(o.todo);
    var out := Attempt(cap, s.subs[id], s.chans[id], o.topic);
    assert s'.lock.value == Tally(o, out);
    FanoutStep(cap, s.subs, s.chans, id, rest, o.topic, Entry(o.no, o.msg));
    var ch := s'.chans[id];
    assert s'.chans == s.chans[id := ch];
    ServedTally(cap, s, s', id, rest, ch, out);
    ServedFields(cap, s, s');
  }

  lemma ServedTally(cap: nat, s: Bus, s': Bus, id: SubId, rest: set<SubId>, ch: Chan, out: Outcome)
    requires s.lock.Some? && s'.lock.Some? && s.lock.value.todo != [] && s'.subs == s.subs
    requires id in s.subs && id in s.chans && id !in rest
    requires out == Attempt(cap, s.subs[id], s.chans[id], s.lock.value.topic)
    requires SetOf(s.lock.value.todo) == rest + {id} && SetOf(s'.lock.value.todo) == rest
    requires s'.lock.value == Tally(s.lock.value, out) && s'.chans == s.chans[id := ch]
    requires s'.dropCount == if out == Full then (s.dropCount + 1) % WORD else s.dropCount
    ensures var x, y := Served(cap, s), Served(cap, s');
            x.dropCount == y.dropCount && x.lock.value.sent == y.lock.value.sent
            && x.lock.value.dropped == y.lock.value.dropped && x.lock.value.gone == y.lock.value.gone
  {
    var topic := s.lock.value.topic;
    HavingStep(cap, s.subs, s.chans, ch, id, rest, topic, Sent);
    HavingStep(cap, s.subs, s.chans, ch, id, rest, topic, Full);
    HavingStep(cap, s.subs, s.chans, ch, id, rest, topic, Gone);
    DropSteps(s.dropCount, |Having(cap, s.subs, s'.chans, rest, topic, Full)|);
  }

  lemma ServedFields(cap: nat, s: Bus, s': Bus)
    requires s.lock.Some? && s'.lock.Some?
    requires s' == s.(lock := s'.lock, chans := s'.chans, dropCount := s'.dropCount)
    requires var x, y := Served(cap, s), Served(cap, s');
             x.chans == y.chans && x.dropCount == y.dropCount && x.lock.value.sent == y.lock.value.sent
             && x.lock.value.dropped == y.lock.value.dropped && x.lock.value.gone == y.lock.value.gone
    requires var o, p := s.lock.value, s'.lock.value;
             p == o.(todo := p.todo, sent := p.sent, dropped := p.dropped, gone := p.gone)
    ensures Served(cap, s') == Served(cap, s)
  {
  }

  lemma DropSteps(before: nat, more: nat)
    ensures ((before + 1) % WORD + more) % WORD == (before + (1 + more)) % WORD
  {
  }

  /** An uninterrupted offer serves everyone at once: its result and the channels it
      leaves are functions of the set of subscribers, not of the order it walks them. */
  lemma {:induction false} DrainIsServed(cap: nat, s: Bus)
    requires s.lock.Some? && NoRepeats(s.lock.value.todo) && s.dropCount < WORD
    requires SetOf(s.lock.value.todo) <= s.subs.Keys <= s.chans.Keys
    ensures Drain(cap, s) == Served(cap, s)
    decreases |s.lock.value.todo|
  {
    var o := s.lock.value;
    if o.todo == [] {
      NobodyServed(cap, s);
    } else {
      SetOfHead(o.todo);
      assert o.todo[0] in SetOf(o.todo);
      ServedStep(cap, s);
      DrainIsServed(cap, SendOne(cap, s));
    }
  }

  lemma NobodyServed(cap: nat, s: Bus)
    requires s.lock.Some? && s.lock.value.todo == [] && s.dropCount < WORD
    ensures Served(cap, s) == s
  {
  }

  lemma ServedBySet(cap: nat, a: Bus, b: Bus)
    requires a.lock.Some? && b.lock.Some? && b == a.(lock := b.lock)
    requires b.lock.value == a.lock.value.(todo := b.lock.value.todo)
    requires SetOf(a.lock.value.todo) == SetOf(b.lock.value.todo)
    ensures Served(cap, a) == Served(cap, b)
  {
  }

  /** Two walks over the same subscribers end in the same state and result. */
  lemma OrderIrrelevant(cap: nat, s: Bus, m: Message, one: seq<SubId>, two: seq<SubId>)
    requires s.subs.Keys <= s.chans.Keys && s.dropCount < WORD
    requires Enabled(s, Begin(m, one)) && Enabled(s, Begin(m, two))
    ensures Drain(cap, Next(cap, s, Begin(m, one))) == Drain(cap, Next(cap, s, Begin(m, two)))
  {
    var a, b := Next(cap, s, Begin(m, one)), Next(cap, s, Begin(m, two));
    DrainIsServed(cap, a);
    DrainIsServed(cap, b);
    ServedBySet(cap, a, b);
  }
}
