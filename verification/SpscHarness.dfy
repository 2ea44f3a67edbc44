/** The throughput harness that stops on a done flag: what it can leave unread. */
module SpscHarness {
  import opened Common
  import opened Words
  import opened SpscProtocol
  import opened SpscInvariant
  import opened SpscRefinement
  import opened SpscProgress

  // ---------------------------------------------------------------- the harness

  /** The consumer drains until empty, then reads the flag. */
  datatype Mode = Draining | AtFlag | Stopped

  datatype Harness<T> = Harness(ring: State<T>, done: bool, mode: Mode)

  datatype HLabel<T> =
    | Ring(l: Label<T>)
    | SetDone               // after the producer thread has been joined
    | ReadFlag(value: bool) // a relaxed load: may still see false

  ghost function Start<T>(c: Config): Harness<T> { Harness(Init(c), false, Draining) }

  ghost predicate HEnabled<T>(c: Config, input: seq<T>, h: Harness<T>, l: HLabel<T>) {
    match l
    case Ring(r) =>
      && Enabled(c, h.ring, r)
      && (r.PStart? ==> |h.ring.sent| < |input| && r.v == input[|h.ring.sent|])
      && (r.CStart? ==> h.mode == Draining)
    case SetDone => h.ring.sent == input && h.ring.ppc.Idle?
    case ReadFlag(value) => h.mode == AtFlag && (value ==> h.done)
  }

  ghost function HNext<T>(c: Config, input: seq<T>, h: Harness<T>, l: HLabel<T>): Harness<T>
    requires HEnabled(c, input, h, l)
  {
    match l
    case Ring(r) =>
      var s := Next(c, h.ring, r);
      h.(ring := s, mode := if r.CLoad? && s.cpc.Idle? then AtFlag else h.mode)
    case SetDone => h.(done := true)
    case ReadFlag(value) => h.(mode := if value then Stopped else Draining)
  }

  ghost predicate HRun<T>(c: Config, input: seq<T>, h: Harness<T>, ls: seq<HLabel<T>>, g: Harness<T>)
    decreases |ls|
  {
    if ls == [] then h == g
    else HEnabled(c, input, h, ls[0]) && HRun(c, input, HNext(c, input, h, ls[0]), ls[1..], g)
  }

  ghost predicate StoppedRun<T>(c: Config, input: seq<T>, ls: seq<HLabel<T>>, g: Harness<T>) {
    HRun(c, input, Start(c), ls, g) && g.mode == Stopped
  }

  ghost predicate HInv<T>(c: Config, input: seq<T>, h: Harness<T>) {
    && Inv(c, h.ring)
    && |h.ring.sent| <= |input| && h.ring.sent == input[..|h.ring.sent|]
    && (!h.ring.ppc.Idle? ==> |h.ring.sent| < |input| && h.ring.ppc.val == Some(input[|h.ring.sent|]))
    && (h.done ==> h.ring.sent == input && h.ring.ppc.Idle?)
    && (h.mode == Stopped ==> h.done)
    && (h.mode != Draining ==>
          h.ring.cpc.Idle? && |h.ring.received| == Count(h.ring.p, h.ring.c.seen))
  }

  lemma RingStepKeeps<T>(c: Config, input: seq<T>, h: Harness<T>, l: Label<T>)
    requires HInv(c, input, h) && HEnabled(c, input, h, Ring(l)) && Inv(c, Next(c, h.ring, l))
    ensures HInv(c, input, HNext(c, input, h, Ring(l)))
  {
    match l
    case CLoad(rf) => CLoadKeeps(c, h.ring, rf);
    case CRead(rf) =>
    case PLoad(rf) => LoadingCounts(h.ring.p, rf, h.ring.c.seen);
    case _ =>
  }

  /** Appending events does not change how many stores an earlier one stands for. */
  lemma LoadingCounts<T>(x: Side<T>, rf: Option<nat>, seen: Option<nat>)
    requires IsStoreAt(x, seen)
    ensures IsStoreAt(x.Loading(rf), seen) && Count(x.Loading(rf), seen) == Count(x, seen)
  {
  }

  lemma HStepKeeps<T>(c: Config, input: seq<T>, h: Harness<T>, l: HLabel<T>)
    requires HInv(c, input, h) && HEnabled(c, input, h, l)
    ensures HInv(c, input, HNext(c, input, h, l))
  {
    if l.Ring? {
      StepKeeps(c, h.ring, l.l);
      RingStepKeeps(c, input, h, l.l);
    }
  }

  lemma {:induction false} HRunKeeps<T>(c: Config, input: seq<T>, h: Harness<T>, ls: seq<HLabel<T>>, g: Harness<T>)
    requires HInv(c, input, h) && HRun(c, input, h, ls, g)
    ensures HInv(c, input, g)
    decreases |ls|
  {
    if ls == [] {
    } else {
      HStepKeeps(c, input, h, ls[0]);
      HRunKeeps(c, input, HNext(c, input, h, ls[0]), ls[1..], g);
    }
  }

  /** When the consumer has stopped it holds a prefix of the input, at most a
      capacity of values is left in the ring for `Drop`, and nothing is left exactly
      when its last head load, before the flag, had read the producer's final store. */
  lemma StoppedHarness<T>(c: Config, input: seq<T>, ls: seq<HLabel<T>>, g: Harness<T>)
    requires c.Valid() && StoppedRun(c, input, ls, g)
    ensures g.ring.sent == input
    ensures |g.ring.received| <= |input| <= |g.ring.received| + c.Cap()
    ensures forall n :: 0 <= n < |g.ring.received| ==> g.ring.received[n] == Some(input[n])
    ensures Queue(g.ring) == input[|g.ring.received|..]
    ensures |g.ring.received| == |input| <==> g.ring.c.seen == g.ring.p.Latest()
  {
    InitInv<T>(c);
    HRunKeeps(c, input, Start(c), ls, g);
    var p, seen := g.ring.p, g.ring.c.seen;
    LatestByCount(c, p, seen);
  }

  // ---------------------------------------------------------------- continuing a run

  /** The harness can come from `from` to `h`. */
  ghost predicate Reach<T(!new)>(c: Config, input: seq<T>, from: Harness<T>, h: Harness<T>) {
    HInv(c, input, h) && exists ls: seq<HLabel<T>> :: HRun(c, input, from, ls, h)
  }

  lemma ReachItself<T(!new)>(c: Config, input: seq<T>, h: Harness<T>)
    requires HInv(c, input, h)
    ensures Reach(c, input, h, h)
  {
    var none: seq<HLabel<T>> := [];
    assert HRun(c, input, h, none, h);
  }

  lemma {:induction false} HRunStep<T>(c: Config, input: seq<T>, h: Harness<T>, ls: seq<HLabel<T>>, m: Harness<T>,
                                       l: HLabel<T>)
    requires HRun(c, input, h, ls, m) && HEnabled(c, input, m, l)
    ensures HRun(c, input, h, ls + [l], HNext(c, input, m, l))
    decreases |ls|
  {
    if ls == [] {
      assert (ls + [l])[1..] == [];
    } else {
      assert (ls + [l])[1..] == ls[1..] + [l];
      HRunStep(c, input, HNext(c, input, h, ls[0]), ls[1..], m, l);
    }
  }

  lemma Take<T(!new)>(c: Config, input: seq<T>, from: Harness<T>, h: Harness<T>, l: HLabel<T>) returns (g: Harness<T>)
    requires Reach(c, input, from, h) && HEnabled(c, input, h, l)
    ensures Reach(c, input, from, g) && g == HNext(c, input, h, l)
  {
    g := HNext(c, input, h, l);
    HStepKeeps(c, input, h, l);
    var ls: seq<HLabel<T>> :| HRun(c, input, from, ls, h);
    HRunStep(c, input, from, ls, h, l);
  }

  /** Reached with `sent` values sent and `received` received, both actors between calls. */
  ghost predicate At<T(!new)>(c: Config, input: seq<T>, from: Harness<T>, h: Harness<T>, sent: nat, received: nat,
                              mode: Mode)
  {
    && Reach(c, input, from, h)
    && |h.ring.sent| == sent && |h.ring.received| == received
    && h.ring.ppc.Idle? && h.ring.cpc.Idle? && h.mode == mode
  }

  /** The producer's load of the latest tail. */
  lemma LoadTail<T(!new)>(c: Config, input: seq<T>, from: Harness<T>, h: Harness<T>) returns (g: Harness<T>)
    requires Reach(c, input, from, h) && h.ring.ppc.Loaded?
    ensures Reach(c, input, from, g) && g == h.(ring := g.ring)
    ensures g.ring.cpc == h.ring.cpc && g.ring.sent == h.ring.sent && g.ring.received == h.ring.received
    ensures if |h.ring.sent| - |h.ring.received| < c.Cap() then g.ring.ppc.Checked? else g.ring.ppc.Idle?
  {
    var rf := h.ring.c.Latest();
    LatestMayLoad(c, h.ring.p, h.ring.c);
    PLoadKeeps(c, h.ring, rf);
    g := Take(c, input, from, h, Ring(PLoad(rf)));
  }

  /** An admitted send completes. */
  lemma StoreHead<T(!new)>(c: Config, input: seq<T>, from: Harness<T>, h: Harness<T>) returns (g: Harness<T>)
    requires Reach(c, input, from, h) && (h.ring.ppc.Checked? || h.ring.ppc.Accessed?)
    ensures Reach(c, input, from, g) && g == h.(ring := g.ring)
    ensures g.ring.ppc.Idle? && g.ring.cpc == h.ring.cpc
    ensures |g.ring.sent| == |h.ring.sent| + 1 && g.ring.received == h.ring.received
  {
    g := h;
    if h.ring.ppc.Checked? {
      PWriteKeeps(c, h.ring);
      g := Take(c, input, from, h, Ring(PWrite));
    }
    g := Take(c, input, from, g, Ring(PStore));
  }

  /** With room, the producer can complete one send. */
  lemma SendNext<T(!new)>(c: Config, input: seq<T>, from: Harness<T>, h: Harness<T>, sent: nat, received: nat, mode: Mode)
    returns (g: Harness<T>)
    requires At(c, input, from, h, sent, received, mode) && sent < |input| && sent - received < c.Cap()
    ensures At(c, input, from, g, sent + 1, received, mode)
  {
    g := Take(c, input, from, h, Ring(PStart(input[sent])));
    g := LoadTail(c, input, from, g);
    g := StoreHead(c, input, from, g);
  }

  /** The consumer's load of the latest head. */
  lemma LoadHead<T(!new)>(c: Config, input: seq<T>, from: Harness<T>, h: Harness<T>) returns (g: Harness<T>)
    requires Reach(c, input, from, h) && h.ring.cpc.Loaded? && h.mode == Draining
    ensures Reach(c, input, from, g) && g.ring.ppc == h.ring.ppc && g.done == h.done
    ensures g.ring.sent == h.ring.sent && g.ring.received == h.ring.received
    ensures if |h.ring.sent| == |h.ring.received| then g.ring.cpc.Idle? && g.mode == AtFlag
            else g.ring.cpc.Checked? && g.mode == Draining
  {
    var rf := h.ring.p.Latest();
    LatestMayLoad(c, h.ring.c, h.ring.p);
    CLoadKeeps(c, h.ring, rf);
    g := Take(c, input, from, h, Ring(CLoad(rf)));
  }

  /** The read of the slot that the load admitted. */
  lemma ReadSlot<T(!new)>(c: Config, input: seq<T>, from: Harness<T>, h: Harness<T>) returns (g: Harness<T>)
    requires Reach(c, input, from, h) && h.ring.cpc.Checked?
    ensures Reach(c, input, from, g) && g == h.(ring := g.ring)
    ensures g.ring.cpc.Accessed? && g.ring.ppc == h.ring.ppc
    ensures g.ring.sent == h.ring.sent && g.ring.received == h.ring.received
  {
    ReadIsForced(c, h.ring, None);
    var rf := Some(h.ring.p.acc[|h.ring.received|]);
    ReadIsForced(c, h.ring, rf);
    g := Take(c, input, from, h, Ring(CRead(rf)));
  }

  /** An admitted receive completes. */
  lemma StoreTail<T(!new)>(c: Config, input: seq<T>, from: Harness<T>, h: Harness<T>) returns (g: Harness<T>)
    requires Reach(c, input, from, h) && (h.ring.cpc.Checked? || h.ring.cpc.Accessed?)
    ensures Reach(c, input, from, g) && g == h.(ring := g.ring)
    ensures g.ring.cpc.Idle? && g.ring.ppc == h.ring.ppc
    ensures g.ring.sent == h.ring.sent && |g.ring.received| == |h.ring.received| + 1
  {
    g := h;
    if h.ring.cpc.Checked? { g := ReadSlot(c, input, from, h); }
    g := Take(c, input, from, g, Ring(CStore));
  }

  /** From a non-empty ring, the consumer can complete one receive. */
  lemma ReceiveNext<T(!new)>(c: Config, input: seq<T>, from: Harness<T>, h: Harness<T>, sent: nat, received: nat)
    returns (g: Harness<T>)
    requires At(c, input, from, h, sent, received, Draining) && received < sent
    ensures At(c, input, from, g, sent, received + 1, Draining)
  {
    g := Take(c, input, from, h, Ring(CStart));
    g := LoadHead(c, input, from, g);
    g := StoreTail(c, input, from, g);
  }

  /** From an empty ring, the consumer can go to the flag. */
  lemma FindEmpty<T(!new)>(c: Config, input: seq<T>, from: Harness<T>, h: Harness<T>, n: nat) returns (g: Harness<T>)
    requires At(c, input, from, h, n, n, Draining)
    ensures At(c, input, from, g, n, n, AtFlag)
  {
    g := Take(c, input, from, h, Ring(CStart));
    g := LoadHead(c, input, from, g);
  }

  /** What is in the ring can be received value by value. */
  lemma {:induction false} ReceiveAll<T(!new)>(c: Config, input: seq<T>, from: Harness<T>, h: Harness<T>, sent: nat,
                                               received: nat) returns (g: Harness<T>)
    requires At(c, input, from, h, sent, received, Draining) && received <= sent
    ensures At(c, input, from, g, sent, sent, Draining)
    decreases sent - received
  {
    if received == sent {
      g := h;
    } else {
      g := ReceiveNext(c, input, from, h, sent, received);
      g := ReceiveAll(c, input, from, g, sent, received + 1);
    }
  }

  /** From an empty ring, the values up to number `n` can be passed over one by one. */
  lemma {:induction false} PassOver<T(!new)>(c: Config, input: seq<T>, from: Harness<T>, h: Harness<T>, start: nat,
                                             n: nat) returns (g: Harness<T>)
    requires At(c, input, from, h, start, start, Draining) && start <= n <= |input|
    ensures At(c, input, from, g, n, n, Draining)
    decreases n
  {
    if n == start {
      g := h;
    } else {
      g := PassOver(c, input, from, h, start, n - 1);
      g := SendNext(c, input, from, g, n - 1, n - 1, Draining);
      g := ReceiveNext(c, input, from, g, n, n - 1);
    }
  }

  /** While the consumer is on its way to the flag, the producer can fill the ring. */
  lemma {:induction false} SendMore<T(!new)>(c: Config, input: seq<T>, from: Harness<T>, h: Harness<T>, received: nat,
                                             more: nat) returns (g: Harness<T>)
    requires At(c, input, from, h, received, received, AtFlag) && received + more <= |input| && more <= c.Cap()
    ensures At(c, input, from, g, received + more, received, AtFlag)
  {
    if more == 0 {
      g := h;
    } else {
      g := SendMore(c, input, from, h, received, more - 1);
      g := SendNext(c, input, from, g, received + more - 1, received, AtFlag);
    }
  }

  /** Once everything is sent, a consumer on its way to the flag can stop. */
  lemma StopWith<T(!new)>(c: Config, input: seq<T>, from: Harness<T>, h: Harness<T>, n: nat) returns (g: Harness<T>)
    requires At(c, input, from, h, |input|, n, AtFlag)
    ensures At(c, input, from, g, |input|, n, Stopped)
  {
    g := Take(c, input, from, h, SetDone);
    g := Take(c, input, from, g, ReadFlag(true));
  }

  // ---------------------------------------------------------------- what may be left

  /** The harness can end with `n` values received. */
  ghost predicate MayStopWith<T(!new)>(c: Config, input: seq<T>, n: nat) {
    exists ls: seq<HLabel<T>>, g :: StoppedRun(c, input, ls, g) && |g.ring.received| == n
  }

  /** The harness can end with exactly `n` values received, for every `n` that leaves at
      most a capacity, and for no other. */
  lemma StoppedOutcomes<T(!new)>(c: Config, input: seq<T>, n: nat)
    requires c.Valid()
    ensures MayStopWith(c, input, n) <==> n <= |input| <= n + c.Cap()
  {
    if n <= |input| <= n + c.Cap() {
      var h: Harness<T> := Start(c);
      InitInv<T>(c);
      ReachItself(c, input, h);
      var g := PassOver(c, input, h, h, 0, n);
      g := FindEmpty(c, input, h, g, n);
      g := SendMore(c, input, h, g, n, |input| - n);
      g := StopWith(c, input, h, g, n);
      var ls: seq<HLabel<T>> :| HRun(c, input, h, ls, g);
      assert StoppedRun(c, input, ls, g);
    }
    if MayStopWith(c, input, n) {
      var ls: seq<HLabel<T>>, g :| StoppedRun(c, input, ls, g) && |g.ring.received| == n;
      StoppedHarness(c, input, ls, g);
    }
  }

  /** The harness is sure to receive everything exactly when there is nothing to send. */
  lemma ReceivesAllExactly<T(!new)>(c: Config, input: seq<T>)
    requires c.Valid()
    ensures (forall ls: seq<HLabel<T>>, g :: StoppedRun(c, input, ls, g) ==> |g.ring.received| == |input|)
            <==> input == []
  {
    if input == [] {
      forall ls: seq<HLabel<T>>, g | StoppedRun(c, input, ls, g)
        ensures |g.ring.received| == |input|
      {
        StoppedHarness(c, input, ls, g);
      }
    } else {
      StoppedOutcomes(c, input, |input| - 1);
      var ls: seq<HLabel<T>>, g :| StoppedRun(c, input, ls, g) && |g.ring.received| == |input| - 1;
    }
  }

  // ---------------------------------------------------------------- no state is a dead end

  /** Whatever the consumer is doing, it can come back to draining, between calls. */
  lemma SettleConsumer<T(!new)>(c: Config, input: seq<T>, from: Harness<T>, h: Harness<T>) returns (g: Harness<T>)
    requires Reach(c, input, from, h) && h.mode != Stopped
    ensures Reach(c, input, from, g) && g.mode == Draining && g.ring.cpc.Idle?
  {
    g := h;
    if g.ring.cpc.Loaded? { g := LoadHead(c, input, from, g); }
    if g.ring.cpc.Checked? || g.ring.cpc.Accessed? { g := StoreTail(c, input, from, g); }
    if g.mode == AtFlag { g := Take(c, input, from, g, ReadFlag(false)); }
  }

  /** Whatever the producer is doing, it can end its call. */
  lemma SettleProducer<T(!new)>(c: Config, input: seq<T>, from: Harness<T>, h: Harness<T>) returns (g: Harness<T>)
    requires Reach(c, input, from, h)
    ensures Reach(c, input, from, g) && g.mode == h.mode && g.ring.cpc == h.ring.cpc && g.ring.ppc.Idle?
  {
    g := h;
    if g.ring.ppc.Loaded? { g := LoadTail(c, input, from, g); }
    if g.ring.ppc.Checked? || g.ring.ppc.Accessed? { g := StoreHead(c, input, from, g); }
  }

  /** A consumer that has not stopped can still receive everything and stop, even one that
      is about to read a flag that is set: a relaxed load may still see it clear. */
  lemma CanReceiveAll<T(!new)>(c: Config, input: seq<T>, h: Harness<T>) returns (g: Harness<T>)
    requires HInv(c, input, h) && h.mode != Stopped
    ensures At(c, input, h, g, |input|, |input|, Stopped)
  {
    ReachItself(c, input, h);
    g := SettleConsumer(c, input, h, h);
    g := SettleProducer(c, input, h, g);
    var sent := |g.ring.sent|;
    g := ReceiveAll(c, input, h, g, sent, |g.ring.received|);
    g := PassOver(c, input, h, g, sent, |input|);
    g := FindEmpty(c, input, h, g, |input|);
    g := StopWith(c, input, h, g, |input|);
  }

  /** Every run of the harness can be continued to one that stops; and unless it has stopped
      already, to one that stops with everything received. */
  lemma HarnessCanFinish<T(!new)>(c: Config, input: seq<T>, ls: seq<HLabel<T>>, h: Harness<T>)
    requires c.Valid() && HRun(c, input, Start(c), ls, h)
    ensures exists ls', g ::
              && HRun(c, input, h, ls', g) && g.mode == Stopped
              && (h.mode != Stopped ==> |g.ring.received| == |input|)
  {
    InitInv<T>(c);
    HRunKeeps(c, input, Start(c), ls, h);
    if h.mode == Stopped {
      ReachItself(c, input, h);
    } else {
      var g := CanReceiveAll(c, input, h);
    }
  }
}
