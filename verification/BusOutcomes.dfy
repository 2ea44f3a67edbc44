/** What the counts of an offer mean: which subscribers they count, over every run. */
module BusOutcomes {
  import opened Common
  import opened Words
  import opened MessageCodec
  import opened Routing
  import opened BusProtocol
  import opened BusTheorems

  /** What one send of offer `no` to a matching subscriber found: whether the receiver is
      still connected, and whether its queue has room. */
  datatype Fate = Fate(no: nat, live: bool, room: bool)

  function FateOf(cap: nat, s: Bus, l: Label): seq<Fate>
    requires Enabled(s, l)
  {
    if !l.TrySend? then []
    else
      var o := s.lock.value;
      var id := o.todo[0];
      if id in s.subs && id in s.chans && Matches(s.subs[id], TopicStr(o.msg))
      then [Fate(o.no, s.chans[id].alive, |s.chans[id].queue| < cap)] else []
  }

  /** The sends to matching subscribers along a run. */
  ghost function Fates(cap: nat, s: Bus, ls: seq<Label>, t: Bus): seq<Fate>
    requires Run(cap, s, ls, t)
    decreases |ls|
  {
    if ls == [] then [] else FateOf(cap, s, ls[0]) + Fates(cap, Next(cap, s, ls[0]), ls[1..], t)
  }

  /** Of the sends of offer `k`, those into a live queue with room, and those at a live full queue. */
  ghost function Tallied(fates: seq<Fate>, k: nat): OfferResult {
    OfferResult(multiset(fates)[Fate(k, true, true)], multiset(fates)[Fate(k, true, false)])
  }

  /** What offer `k` has counted so far. */
  function CountsOf(s: Bus, k: nat): OfferResult {
    if k < |s.results| then s.results[k]
    else if s.lock.Some? && s.lock.value.no == k then OfferResult(s.lock.value.sent, s.lock.value.dropped)
    else OfferResult(0, 0)
  }

  function Plus(a: OfferResult, b: OfferResult): OfferResult { OfferResult(a.sent + b.sent, a.dropped + b.dropped) }

  lemma TalliedOne(f: seq<Fate>, k: nat)
    requires |f| <= 1
    ensures Tallied(f, k) == if f == [Fate(k, true, true)] then OfferResult(1, 0)
                             else if f == [Fate(k, true, false)] then OfferResult(0, 1)
                             else OfferResult(0, 0)
  {
    if f != [] { assert f == [f[0]]; }
  }

  /** One send settles its fate in the counts of the offer in progress. */
  lemma SendCounts(cap: nat, s: Bus)
    requires Enabled(s, TrySend) && OfferOk(s, s.lock.value) && s.subs.Keys <= s.chans.Keys
    ensures var o, p, f := s.lock.value, SendOne(cap, s).lock, FateOf(cap, s, TrySend);
            && p.Some? && SendOne(cap, s).results == s.results && p.value.no == o.no
            && |f| <= 1 && (f != [] ==> f[0].no == o.no)
            && p.value.sent == o.sent + (if f == [Fate(o.no, true, true)] then 1 else 0)
            && p.value.dropped == o.dropped + (if f == [Fate(o.no, true, false)] then 1 else 0)
  {
    assert s.lock.value.todo[0] in SetOf(s.lock.value.todo);
  }

  lemma SendStepCounts(cap: nat, s: Bus, k: nat)
    requires Accounts(s) && Enabled(s, TrySend) && s.subs.Keys <= s.chans.Keys
    ensures CountsOf(SendOne(cap, s), k) == Plus(CountsOf(s, k), Tallied(FateOf(cap, s, TrySend), k))
  {
    SendCounts(cap, s);
    CountsSettle(s, SendOne(cap, s), FateOf(cap, s, TrySend), k);
  }

  lemma CountsSettle(s: Bus, s': Bus, f: seq<Fate>, k: nat)
    requires s.lock.Some? && s'.lock.Some? && s'.results == s.results && |s.results| <= s.lock.value.no
    requires var o, p := s.lock.value, s'.lock.value;
             && p.no == o.no && |f| <= 1 && (f != [] ==> f[0].no == o.no)
             && p.sent == o.sent + (if f == [Fate(o.no, true, true)] then 1 else 0)
             && p.dropped == o.dropped + (if f == [Fate(o.no, true, false)] then 1 else 0)
    ensures CountsOf(s', k) == Plus(CountsOf(s, k), Tallied(f, k))
  {
    TalliedOne(f, k);
  }

  lemma QuietStepCounts(cap: nat, s: Bus, l: Label, k: nat)
    requires Accounts(s) && Enabled(s, l) && !l.TrySend?
    ensures CountsOf(Next(cap, s, l), k) == Plus(CountsOf(s, k), Tallied(FateOf(cap, s, l), k))
  {
    TalliedOne([], k);
    assert Plus(CountsOf(s, k), OfferResult(0, 0)) == CountsOf(s, k);
  }

  lemma StepCounts(cap: nat, s: Bus, l: Label, k: nat)
    requires Inv(cap, s) && Enabled(s, l)
    ensures CountsOf(Next(cap, s, l), k) == Plus(CountsOf(s, k), Tallied(FateOf(cap, s, l), k))
  {
    if l.TrySend? { SendStepCounts(cap, s, k); } else { QuietStepCounts(cap, s, l, k); }
  }

  lemma {:induction false} RunCounts(cap: nat, s: Bus, ls: seq<Label>, t: Bus, k: nat)
    requires Inv(cap, s) && Run(cap, s, ls, t)
    ensures CountsOf(t, k) == Plus(CountsOf(s, k), Tallied(Fates(cap, s, ls, t), k))
    decreases |ls|
  {
    if ls == [] {
    } else {
      StepKeeps(cap, s, ls[0]);
      StepCounts(cap, s, ls[0], k);
      RunCounts(cap, Next(cap, s, ls[0]), ls[1..], t, k);
    }
  }

  /** In every run each offer returns as `sent` the number of its sends that found a live
      queue with room, and as `dropped` the number that found a live queue full; a send to a
      disconnected receiver is in neither. */
  lemma ResultsCountSends(cap: nat, ls: seq<Label>, t: Bus, k: nat)
    requires cap >= 1 && Run(cap, Init(0), ls, t) && k < |t.results|
    ensures t.results[k].sent == multiset(Fates(cap, Init(0), ls, t))[Fate(k, true, true)]
    ensures t.results[k].dropped == multiset(Fates(cap, Init(0), ls, t))[Fate(k, true, false)]
  {
    InitInv(cap, 0);
    RunCounts(cap, Init(0), ls, t, k);
  }

  /** The sends that found a live queue full. */
  function DropsIn(fates: seq<Fate>): nat {
    if fates == [] then 0 else (if fates[0].live && !fates[0].room then 1 else 0) + DropsIn(fates[1..])
  }

  /** All drops so far, whatever the width of the counter. */
  function AllDrops(s: Bus): nat {
    SumDropped(s.results) + (if s.lock.Some? then s.lock.value.dropped else 0)
  }

  lemma StepDrops(cap: nat, s: Bus, l: Label)
    requires Inv(cap, s) && Enabled(s, l)
    ensures AllDrops(Next(cap, s, l)) == AllDrops(s) + DropsIn(FateOf(cap, s, l))
  {
    match l
    case TrySend => SendCounts(cap, s);
    case End => assert Next(cap, s, l).results[..|s.results|] == s.results;
    case _ =>
  }

  lemma {:induction false} RunDrops(cap: nat, s: Bus, ls: seq<Label>, t: Bus)
    requires Inv(cap, s) && Run(cap, s, ls, t)
    ensures AllDrops(t) == AllDrops(s) + DropsIn(Fates(cap, s, ls, t))
    decreases |ls|
  {
    if ls == [] {
    } else {
      var one, rest := FateOf(cap, s, ls[0]), Fates(cap, Next(cap, s, ls[0]), ls[1..], t);
      StepKeeps(cap, s, ls[0]);
      StepDrops(cap, s, ls[0]);
      RunDrops(cap, Next(cap, s, ls[0]), ls[1..], t);
      assert one + rest == if one == [] then rest else [one[0]] + rest;
    }
  }

  /** At every moment of every run the drop counter is the number of sends that found a live
      queue full, and between offers the sum of all `dropped` results, modulo the word; and
      when an offer is about to return, every matching subscription has been counted as sent,
      dropped or disconnected. */
  lemma DropAccounting(cap: nat, ls: seq<Label>, t: Bus)
    requires cap >= 1 && Run(cap, Init(0), ls, t)
    ensures t.dropCount == DropsIn(Fates(cap, Init(0), ls, t)) % WORD
    ensures t.lock.None? ==> t.dropCount == SumDropped(t.results) % WORD
    ensures t.lock.Some? && t.lock.value.todo == [] ==>
              var o := t.lock.value;
              o.sent + o.dropped + o.gone == |Matching(t.subs, TopicStr(o.msg))|
  {
    RunFromInit(cap, ls, t);
    InitInv(cap, 0);
    RunDrops(cap, Init(0), ls, t);
    assert DropsCounted(t);
    if t.lock.Some? && t.lock.value.todo == [] {
      assert OfferOk(t, t.lock.value);
      assert Matching(t.subs, t.lock.value.topic) * SetOf(t.lock.value.todo) == {};
    }
  }
}
