/** The publish/subscribe bus as steps: subscribe, unsubscribe and offer hold the
    lock; an offer sends to one subscriber at a time, and receivers drain their
    queues or disconnect between any two of its sends.  A channel is a bounded FIFO
    of capacity at least one. */
module BusProtocol {
  import opened Common
  import opened Words
  import opened MessageCodec
  import opened Routing

  type SubId = nat

  const WORD: nat := 0x1_0000_0000_0000_0000

  /** A message with its place in the order in which offers took the lock. */
  datatype Entry = Entry(no: nat, msg: Message)

  /** One subscriber's channel: what is queued and what its receiver has taken. */
  datatype Chan = Chan(filter: Filter, alive: bool, queue: seq<Entry>, got: seq<Entry>) {
    function Delivered(): seq<Entry> { got + queue }
  }

  datatype Outcome = Skipped | Sent | Full | Gone

  datatype OfferResult = OfferResult(sent: nat, dropped: nat)

  /** An offer holding the lock: who is still to be served, and the counts so far.
      `total` is the number of subscriptions that matched when it took the lock. */
  datatype Offer = Offer(
    no: nat, msg: Message, topic: seq<Utf8.byte>, todo: seq<SubId>, sent: nat, dropped: nat, gone: nat, total: nat)

  datatype Bus = Bus(
    nextId: SubId,
    subs: map<SubId, Filter>,
    chans: map<SubId, Chan>,
    dropCount: nat,
    lock: Option<Offer>,
    offered: seq<Message>,
    results: seq<OfferResult>)

  datatype Label =
    | Subscribe(pattern: seq<Utf8.byte>) | Unsubscribe(id: SubId)
    | Begin(msg: Message, order: seq<SubId>) | TrySend | End
    | Recv(id: SubId) | Disconnect(id: SubId)

  function Init(firstId: SubId): Bus { Bus(firstId, map[], map[], 0, None, [], []) }

  predicate NoRepeats(s: seq<SubId>) { forall i, j :: 0 <= i < j < |s| ==> s[i] != s[j] }

  function SetOf(s: seq<SubId>): set<SubId> { set id | id in s }

  /** What an offer under `topic` does for one subscriber. */
  function Attempt(cap: nat, f: Filter, ch: Chan, topic: seq<Utf8.byte>): Outcome {
    if !Matches(f, topic) then Skipped
    else if !ch.alive then Gone
    else if |ch.queue| < cap then Sent
    else Full
  }

  function Deliver(cap: nat, f: Filter, ch: Chan, topic: seq<Utf8.byte>, e: Entry): Chan {
    if Attempt(cap, f, ch, topic) == Sent then ch.(queue := ch.queue + [e]) else ch
  }

  function Matching(subs: map<SubId, Filter>, topic: seq<Utf8.byte>): set<SubId> {
    set id | id in subs && Matches(subs[id], topic)
  }

  predicate Enabled(s: Bus, l: Label) {
    match l
    case Subscribe(_) => s.lock.None?
    case Unsubscribe(_) => s.lock.None?
    case Begin(_, order) => s.lock.None? && NoRepeats(order) && SetOf(order) == s.subs.Keys
    case TrySend => s.lock.Some? && s.lock.value.todo != []
    case End => s.lock.Some? && s.lock.value.todo == []
    case Recv(id) => id in s.chans && s.chans[id].alive && s.chans[id].queue != []
    case Disconnect(id) => id in s.chans && s.chans[id].alive
  }

  /** The offer after its next subscriber met outcome `out`. */
  function Tally(o: Offer, out: Outcome): Offer
    requires o.todo != []
  {
    o.(todo := o.todo[1..],
       sent := o.sent + (if out == Sent then 1 else 0),
       dropped := o.dropped + (if out == Full then 1 else 0),
       gone := o.gone + (if out == Gone then 1 else 0))
  }

  function SendOne(cap: nat, s: Bus): Bus
    requires Enabled(s, TrySend)
  {
    var o := s.lock.value;
    var id := o.todo[0];
    if id !in s.subs || id !in s.chans then s.(lock := Some(o.(todo := o.todo[1..])))
    else
      var out := Attempt(cap, s.subs[id], s.chans[id], o.topic);
      var entry := Entry(o.no, o.msg);
      s.(lock := Some(Tally(o, out)),
         chans := s.chans[id := Deliver(cap, s.subs[id], s.chans[id], o.topic, entry)],
         dropCount := if out == Full then (s.dropCount + 1) % WORD else s.dropCount)
  }

  function Next(cap: nat, s: Bus, l: Label): Bus
    requires Enabled(s, l)
  {
    match l
    case Subscribe(p) =>
      s.(nextId := s.nextId + 1,
         subs := s.subs[s.nextId := Parse(p)],
         chans := s.chans[s.nextId := Chan(Parse(p), true, [], [])])
    case Unsubscribe(id) => s.(subs := s.subs - {id})
    case Begin(m, order) =>
      s.(lock := Some(Offer(|s.offered|, m, TopicStr(m), order, 0, 0, 0, |Matching(s.subs, TopicStr(m))|)),
         offered := s.offered + [m])
    case TrySend => SendOne(cap, s)
    case End =>
      s.(lock := None, results := s.results + [OfferResult(s.lock.value.sent, s.lock.value.dropped)])
    case Recv(id) =>
      var ch := s.chans[id];
      s.(chans := s.chans[id := ch.(queue := ch.queue[1..], got := ch.got + [ch.queue[0]])])
    case Disconnect(id) => s.(chans := s.chans[id := s.chans[id].(alive := false, queue := [])])
  }

  predicate Run(cap: nat, s: Bus, ls: seq<Label>, t: Bus)
    decreases |ls|
  {
    if ls == [] then s == t
    else Enabled(s, ls[0]) && Run(cap, Next(cap, s, ls[0]), ls[1..], t)
  }

  // ---------------------------------------------------------------- invariant

  ghost predicate InOrder(q: seq<Entry>) {
    forall i, j :: 0 <= i < j < |q| ==> q[i].no < q[j].no
  }

  /** Everything delivered is an offer that matched, in lock order, below `limit`. */
  ghost predicate ChanOk(cap: nat, s: Bus, ch: Chan, limit: nat) {
    && |ch.queue| <= cap
    && InOrder(ch.Delivered())
    && forall i :: 0 <= i < |ch.Delivered()| ==>
         var e := ch.Delivered()[i];
         && e.no < limit && e.no < |s.offered| && e.msg == s.offered[e.no]
         && Matches(ch.filter, TopicStr(e.msg))
  }

  /** A subscriber still to be served has nothing from the offer in progress. */
  function Limit(s: Bus, id: SubId): nat {
    if s.lock.Some? && id in s.lock.value.todo then s.lock.value.no else |s.offered|
  }

  ghost predicate ChanAt(cap: nat, s: Bus, id: SubId) {
    id in s.chans ==> id < s.nextId && ChanOk(cap, s, s.chans[id], Limit(s, id))
  }

  function SumDropped(rs: seq<OfferResult>): nat {
    if rs == [] then 0 else SumDropped(rs[..|rs| - 1]) + rs[|rs| - 1].dropped
  }

  ghost predicate DropsCounted(s: Bus) {
    && s.dropCount == (SumDropped(s.results) + (if s.lock.Some? then s.lock.value.dropped else 0)) % WORD
    && |s.results| == |s.offered| - (if s.lock.Some? then 1 else 0)
  }

  /** Every matching subscription is either counted in an outcome or still to come. */
  ghost predicate Counted(subs: map<SubId, Filter>, o: Offer) {
    && NoRepeats(o.todo) && SetOf(o.todo) <= subs.Keys
    && o.total == |Matching(subs, o.topic)|
    && o.sent + o.dropped + o.gone + |Matching(subs, o.topic) * SetOf(o.todo)| == o.total
  }

  ghost predicate OfferOk(s: Bus, o: Offer) {
    && |s.offered| > 0 && o.no == |s.offered| - 1 && o.msg == s.offered[o.no] && o.topic == TopicStr(o.msg)
    && Counted(s.subs, o)
  }

  ghost predicate Accounts(s: Bus) {
    DropsCounted(s) && (s.lock.Some? ==> OfferOk(s, s.lock.value))
  }

  ghost predicate Inv(cap: nat, s: Bus) {
    && cap >= 1
    && s.subs.Keys <= s.chans.Keys
    && (forall id :: id in s.subs ==> s.subs[id] == s.chans[id].filter)
    && (forall id :: ChanAt(cap, s, id))
    && Accounts(s)
  }

  /** A step that leaves a channel and the offers alone keeps what is known of it. */
  lemma ChanAtFrame(cap: nat, s: Bus, s': Bus, id: SubId)
    requires ChanAt(cap, s, id)
    requires id in s'.chans ==> id in s.chans && s'.chans[id] == s.chans[id]
    requires s.nextId <= s'.nextId && s.offered <= s'.offered && Limit(s, id) <= Limit(s', id)
    ensures ChanAt(cap, s', id)
  {
  }

  lemma SubscribeKeeps(cap: nat, s: Bus, p: seq<Utf8.byte>)
    requires Inv(cap, s) && Enabled(s, Subscribe(p))
    ensures Inv(cap, Next(cap, s, Subscribe(p)))
  {
    var s' := Next(cap, s, Subscribe(p));
    forall id ensures ChanAt(cap, s', id) {
      assert ChanAt(cap, s, id);
      if id != s.nextId { ChanAtFrame(cap, s, s', id); }
    }
  }

  lemma BeginKeeps(cap: nat, s: Bus, m: Message, order: seq<SubId>)
    requires Inv(cap, s) && Enabled(s, Begin(m, order))
    ensures Inv(cap, Next(cap, s, Begin(m, order)))
  {
    var s' := Next(cap, s, Begin(m, order));
    forall id ensures ChanAt(cap, s', id) {
      assert ChanAt(cap, s, id);
      ChanAtFrame(cap, s, s', id);
    }
    BeginAccounts(cap, s, m, order);
  }

  lemma BeginAccounts(cap: nat, s: Bus, m: Message, order: seq<SubId>)
    requires Accounts(s) && Enabled(s, Begin(m, order))
    ensures Accounts(Next(cap, s, Begin(m, order)))
  {
    var all := Matching(s.subs, TopicStr(m));
    assert all * SetOf(order) == all;
    assert Counted(s.subs, Next(cap, s, Begin(m, order)).lock.value);
  }

  lemma TakerKeeps(cap: nat, s: Bus, id: SubId)
    requires ChanAt(cap, s, id) && Enabled(s, Recv(id))
    ensures ChanAt(cap, Next(cap, s, Recv(id)), id)
  {
    assert Next(cap, s, Recv(id)).chans[id].Delivered() == s.chans[id].Delivered();
  }

  lemma LeaverKeeps(cap: nat, s: Bus, id: SubId)
    requires ChanAt(cap, s, id) && id in s.chans && s.chans[id].alive
    ensures ChanAt(cap, Next(cap, s, Disconnect(id)), id)
  {
    var ch := s.chans[id];
    assert forall i :: 0 <= i < |ch.got| ==> ch.Delivered()[i] == ch.got[i];
  }

  /** Only what receivers hold differs. */
  lemma AccountsFrame(s: Bus, s': Bus)
    requires Accounts(s) && s' == s.(chans := s'.chans)
    ensures Accounts(s')
  {
  }

  lemma RecvKeeps(cap: nat, s: Bus, l: Label)
    requires Inv(cap, s) && Enabled(s, l) && (l.Recv? || l.Disconnect?)
    ensures Inv(cap, Next(cap, s, l))
  {
    var s' := Next(cap, s, l);
    assert ChanAt(cap, s, l.id);
    if l.Recv? { TakerKeeps(cap, s, l.id); } else { LeaverKeeps(cap, s, l.id); }
    AccountsFrame(s, s');
    forall id ensures ChanAt(cap, s', id) {
      assert ChanAt(cap, s, id);
      if id != l.id { ChanAtFrame(cap, s, s', id); }
    }
  }

  lemma SetOfHead(todo: seq<SubId>)
    requires todo != [] && NoRepeats(todo)
    ensures SetOf(todo) == SetOf(todo[1..]) + {todo[0]} && todo[0] !in SetOf(todo[1..])
    ensures NoRepeats(todo[1..])
  {
  }

  lemma TallyKeeps(subs: map<SubId, Filter>, o: Offer, out: Outcome)
    requires o.todo != [] && Counted(subs, o)
    requires out == Skipped <==> o.todo[0] !in Matching(subs, o.topic)
    ensures Counted(subs, Tally(o, out))
  {
    SetOfHead(o.todo);
    CardSplit(Matching(subs, o.topic), SetOf(o.todo[1..]), o.todo[0]);
  }

  lemma CardSplit(all: set<SubId>, rest: set<SubId>, id: SubId)
    requires id !in rest
    ensures |all * (rest + {id})| == |all * rest| + (if id in all then 1 else 0)
  {
    if id in all {
      assert all * (rest + {id}) == all * rest + {id};
    } else {
      assert all * (rest + {id}) == all * rest;
    }
  }

  lemma SendOneOffer(cap: nat, s: Bus)
    requires Enabled(s, TrySend) && OfferOk(s, s.lock.value) && s.subs.Keys <= s.chans.Keys
    ensures OfferOk(SendOne(cap, s), SendOne(cap, s).lock.value)
  {
    var o := s.lock.value;
    var id := o.todo[0];
    assert id in SetOf(o.todo);
    TallyKeeps(s.subs, o, Attempt(cap, s.subs[id], s.chans[id], o.topic));
  }

  lemma SendOneDrops(cap: nat, s: Bus)
    requires Enabled(s, TrySend) && DropsCounted(s)
    ensures DropsCounted(SendOne(cap, s))
  {
  }

  lemma TrySendKeeps(cap: nat, s: Bus)
    requires Inv(cap, s) && Enabled(s, TrySend)
    ensures Inv(cap, Next(cap, s, TrySend))
  {
    var o, s' := s.lock.value, SendOne(cap, s);
    var id0 := o.todo[0];
    SendOneOffer(cap, s);
    SendOneDrops(cap, s);
    SetOfHead(o.todo);
    assert id0 in SetOf(o.todo);
    forall id ensures ChanAt(cap, s', id) {
      assert ChanAt(cap, s, id);
      if id != id0 {
        assert id in o.todo[1..] <==> id in o.todo by {
          assert id in SetOf(o.todo[1..]) <==> id in SetOf(o.todo);
        }
        ChanAtFrame(cap, s, s', id);
      } else {
        OwnTurnKeeps(cap, s);
      }
    }
  }

  lemma OwnTurnKeeps(cap: nat, s: Bus)
    requires Enabled(s, TrySend) && OfferOk(s, s.lock.value) && ChanAt(cap, s, s.lock.value.todo[0])
    requires s.lock.value.todo[0] in s.chans && s.lock.value.todo[0] in s.subs
    requires s.subs[s.lock.value.todo[0]] == s.chans[s.lock.value.todo[0]].filter
    ensures ChanAt(cap, SendOne(cap, s), s.lock.value.todo[0])
  {
    var o := s.lock.value;
    SetOfHead(o.todo);
    assert o.todo[0] !in SetOf(o.todo[1..]);
    DeliverKeeps(cap, s, s.chans[o.todo[0]], o);
  }

  lemma DeliverKeeps(cap: nat, s: Bus, ch: Chan, o: Offer)
    requires OfferOk(s, o) && ChanOk(cap, s, ch, o.no)
    ensures ChanOk(cap, s, Deliver(cap, ch.filter, ch, o.topic, Entry(o.no, o.msg)), |s.offered|)
  {
    var ch' := Deliver(cap, ch.filter, ch, o.topic, Entry(o.no, o.msg));
    if ch' != ch {
      assert ch'.Delivered() == ch.Delivered() + [Entry(o.no, o.msg)];
    }
  }

  lemma EndKeeps(cap: nat, s: Bus)
    requires Inv(cap, s) && Enabled(s, End)
    ensures Inv(cap, Next(cap, s, End))
  {
    var s' := Next(cap, s, End);
    assert s'.results[..|s'.results| - 1] == s.results;
    forall id ensures ChanAt(cap, s', id) {
      assert ChanAt(cap, s, id);
      ChanAtFrame(cap, s, s', id);
    }
  }

  lemma UnsubscribeKeeps(cap: nat, s: Bus, id0: SubId)
    requires Inv(cap, s) && Enabled(s, Unsubscribe(id0))
    ensures Inv(cap, Next(cap, s, Unsubscribe(id0)))
  {
    var s' := Next(cap, s, Unsubscribe(id0));
    forall id ensures ChanAt(cap, s', id) {
      assert ChanAt(cap, s, id);
      ChanAtFrame(cap, s, s', id);
    }
  }

  /** Every step keeps the invariant. */
  lemma StepKeeps(cap: nat, s: Bus, l: Label)
    requires Inv(cap, s) && Enabled(s, l)
    ensures Inv(cap, Next(cap, s, l))
  {
    match l
    case Subscribe(p) => SubscribeKeeps(cap, s, p);
    case Unsubscribe(id) => UnsubscribeKeeps(cap, s, id);
    case Begin(m, order) => BeginKeeps(cap, s, m, order);
    case TrySend => TrySendKeeps(cap, s);
    case End => EndKeeps(cap, s);
    case Recv(id) => RecvKeeps(cap, s, l);
    case Disconnect(id) => RecvKeeps(cap, s, l);
  }

  lemma {:induction false} RunKeeps(cap: nat, s: Bus, ls: seq<Label>, t: Bus)
    requires Inv(cap, s) && Run(cap, s, ls, t)
    ensures Inv(cap, t)
    decreases |ls|
  {
    if ls == [] {
    } else {
      StepKeeps(cap, s, ls[0]);
      RunKeeps(cap, Next(cap, s, ls[0]), ls[1..], t);
    }
  }
}
