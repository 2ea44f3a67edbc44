/** What the ring protocol guarantees over whole runs: it is an atomic bounded
    FIFO, its slot accesses never race, and its wrapped cursors behave as
    unbounded counters. */
module SpscRefinement {
  import opened Common
  import opened Words
  import opened SpscProtocol
  import opened SpscInvariant

  // ---------------------------------------------------------------- bounded FIFO

  /** The observable effect of a step.  `latest` says that a refused attempt had
      read the other cursor's most recent store. */
  datatype Op<T> =
    | Tau
    | Enqueue(v: T)
    | Dequeue(got: Option<T>)
    | Full(latest: bool)
    | Empty(latest: bool)

  /** An atomic queue of bounded capacity.  A refusal on the latest store is exact; one on
      an older store may be spurious, unless the queue is an `exact` one. */
  predicate Fifo<T(==)>(cap: nat, exact: bool, q: seq<T>, op: Op<T>, q': seq<T>) {
    match op
    case Tau => q' == q
    case Enqueue(v) => |q| < cap && q' == q + [v]
    case Dequeue(got) => q != [] && got == Some(q[0]) && q' == q[1..]
    case Full(latest) => q' == q && (exact || latest ==> |q| == cap)
    case Empty(latest) => q' == q && (exact || latest ==> q == [])
  }

  /** The queue between the two cursors. */
  ghost function Queue<T>(s: State<T>): seq<T>
    requires |s.received| <= |s.sent|
  {
    s.sent[|s.received|..]
  }

  /** Success takes effect at the cursor store, refusal at the load of the other cursor. */
  ghost function OpOf<T>(c: Config, s: State<T>, l: Label<T>): Op<T>
    requires Enabled(c, s, l)
  {
    match l
    case PStore => Enqueue(s.ppc.val.value)
    case CStore => Dequeue(s.cpc.val)
    case PLoad(rf) => if Next(c, s, l).ppc.Idle? then Full(rf == s.c.Latest()) else Tau
    case CLoad(rf) => if Next(c, s, l).cpc.Idle? then Empty(rf == s.p.Latest()) else Tau
    case _ => Tau
  }

  lemma LatestCount<T>(c: Config, x: Side<T>)
    requires LogOk(c, x)
    ensures IsStoreAt(x, x.Latest()) && Count(x, x.Latest()) == |x.st|
  {
    if x.st != [] { assert StoreAt(c, x, |x.st| - 1); }
  }

  /** The step's load, if it is one, reads the latest store. */
  ghost predicate ReadsLatest<T>(s: State<T>, l: Label<T>) {
    match l
    case PLoad(rf) => rf == s.c.Latest()
    case CLoad(rf) => rf == s.p.Latest()
    case _ => true
  }

  /** One protocol step is one queue step; of an exact queue, if it reads the latest store. */
  lemma StepIsFifo<T>(c: Config, s: State<T>, l: Label<T>)
    requires Inv(c, s) && Enabled(c, s, l)
    ensures Inv(c, Next(c, s, l))
    ensures Fifo(c.Cap(), ReadsLatest(s, l), Queue(s), OpOf(c, s, l), Queue(Next(c, s, l)))
  {
    StepKeeps(c, s, l);
    RefusalExactly(c, s, l);
  }

  lemma LatestByCount<T>(c: Config, x: Side<T>, rf: Option<nat>)
    requires LogOk(c, x) && IsStoreAt(x, rf)
    ensures Count(x, rf) == |x.st| <==> rf == x.Latest()
  {
    LatestCount(c, x);
    if rf.Some? { assert Indexed(x, rf.value); }
  }

  /** A refused send has found the queue full, and a refused receive has found it empty,
      exactly when its load read the latest store. */
  lemma RefusalExactly<T>(c: Config, s: State<T>, l: Label<T>)
    requires Inv(c, s) && Enabled(c, s, l)
    ensures OpOf(c, s, l).Full? ==> (|Queue(s)| == c.Cap() <==> ReadsLatest(s, l))
    ensures OpOf(c, s, l).Empty? ==> (Queue(s) == [] <==> ReadsLatest(s, l))
  {
    match l
    case PLoad(rf) =>
      PLoadKeeps(c, s, rf);
      LatestByCount(c, s.c, rf);
    case CLoad(rf) =>
      CLoadKeeps(c, s, rf);
      LatestByCount(c, s.p, rf);
    case _ =>
  }

  lemma {:induction false} RunStep<T>(c: Config, s: State<T>, ls: seq<Label<T>>, t: State<T>, l: Label<T>)
    requires Run(c, s, ls, t) && Enabled(c, t, l)
    ensures Run(c, s, ls + [l], Next(c, t, l))
    decreases |ls|
  {
    if ls == [] {
      assert (ls + [l])[1..] == [];
    } else {
      assert (ls + [l])[1..] == ls[1..] + [l];
      RunStep(c, Next(c, s, ls[0]), ls[1..], t, l);
    }
  }

  lemma OneAdmitted<T>(c: Config, v: T) returns (ls: seq<Label<T>>, s: State<T>)
    requires c.Valid()
    ensures Run(c, Init(c), ls, s) && Inv(c, s) && s.ppc.Checked? && s.ppc.val == Some(v)
    ensures s.sent == [] && s.received == [] && s.cpc.Idle? && s.c.seen.None?
  {
    InitInv<T>(c);
    var s0: State<T> := Init(c);
    PStartKeeps(c, s0, v);
    var s1 := Next(c, s0, PStart(v));
    PLoadKeeps(c, s1, None);
    s := Next(c, s1, PLoad(None));
    RunStep(c, s0, [], s0, PStart(v));
    RunStep(c, s0, [PStart(v)], s1, PLoad(None));
    ls := [PStart(v)] + [PLoad(None)];
  }

  /** The producer has sent one value, which the consumer has not looked for yet. */
  lemma OneSent<T>(c: Config, v: T) returns (ls: seq<Label<T>>, s: State<T>)
    requires c.Valid()
    ensures Run(c, Init(c), ls, s) && Inv(c, s)
    ensures s.sent == [v] && s.received == [] && s.cpc.Idle? && s.c.seen.None?
  {
    var ls1, s1 := OneAdmitted(c, v);
    PWriteKeeps(c, s1);
    var s2 := Next(c, s1, PWrite);
    PStoreKeeps(c, s2);
    s := Next(c, s2, PStore);
    RunStep(c, Init(c), ls1, s1, PWrite);
    RunStep(c, Init(c), ls1 + [PWrite], s2, PStore);
    ls := ls1 + [PWrite] + [PStore];
  }

  /** A receive may be refused although a value has been sent: a stale load is admissible,
      whatever the word size and the capacity. */
  lemma RefusalMayBeSpurious<T(!new)>(c: Config, v: T)
    requires c.Valid()
    ensures exists ls: seq<Label<T>>, s: State<T> ::
              && Run(c, Init(c), ls, s) && Enabled(c, s, CLoad(None)) && s.sent == [v] && s.received == []
              && Next(c, s, CLoad(None)).cpc.Idle?
  {
    var ls, s := OneSent(c, v);
    CStartKeeps(c, s);
    var t := Next(c, s, CStart);
    CLoadKeeps(c, t, None);
    RunStep(c, Init(c), ls, s, CStart);
  }

  ghost function Ops<T>(c: Config, s: State<T>, ls: seq<Label<T>>, t: State<T>): seq<Op<T>>
    requires Run(c, s, ls, t)
    decreases |ls|
  {
    if ls == [] then [] else [OpOf(c, s, ls[0])] + Ops(c, Next(c, s, ls[0]), ls[1..], t)
  }

  ghost predicate FifoRun<T(!new)>(cap: nat, exact: bool, q: seq<T>, ops: seq<Op<T>>, q': seq<T>)
    decreases |ops|
  {
    if ops == [] then q == q'
    else exists mid: seq<T> :: Fifo(cap, exact, q, ops[0], mid) && FifoRun(cap, exact, mid, ops[1..], q')
  }

  /** A sequentially consistent run reads the latest store at every load. */
  ghost predicate Consistent<T>(c: Config, s: State<T>, ls: seq<Label<T>>, t: State<T>)
    requires Run(c, s, ls, t)
    decreases |ls|
  {
    ls != [] ==> ReadsLatest(s, ls[0]) && Consistent(c, Next(c, s, ls[0]), ls[1..], t)
  }

  /** Every interleaving, with every admissible stale read, is a run of the atomic bounded
      FIFO on the same operations; a sequentially consistent one, of the exact FIFO. */
  lemma {:induction false} RunIsFifo<T(!new)>(c: Config, s: State<T>, ls: seq<Label<T>>, t: State<T>, exact: bool)
    requires Inv(c, s) && Run(c, s, ls, t) && (exact ==> Consistent(c, s, ls, t))
    ensures Inv(c, t)
    ensures FifoRun(c.Cap(), exact, Queue(s), Ops(c, s, ls, t), Queue(t))
    decreases |ls|
  {
    if ls == [] {
    } else {
      var s' := Next(c, s, ls[0]);
      StepIsFifo(c, s, ls[0]);
      RunIsFifo(c, s', ls[1..], t, exact);
      assert Ops(c, s, ls, t)[1..] == Ops(c, s', ls[1..], t);
      assert Fifo(c.Cap(), exact, Queue(s), OpOf(c, s, ls[0]), Queue(s'));
    }
  }

  function EnqueuedBy<T>(op: Op<T>): seq<T> { if op.Enqueue? then [op.v] else [] }

  function DequeuedBy<T>(op: Op<T>): seq<Option<T>> { if op.Dequeue? then [op.got] else [] }

  function Enqueued<T>(ops: seq<Op<T>>): seq<T> {
    if ops == [] then [] else EnqueuedBy(ops[0]) + Enqueued(ops[1..])
  }

  function Dequeued<T>(ops: seq<Op<T>>): seq<Option<T>> {
    if ops == [] then [] else DequeuedBy(ops[0]) + Dequeued(ops[1..])
  }

  lemma StepIsHistory<T>(c: Config, s: State<T>, l: Label<T>)
    requires Enabled(c, s, l)
    ensures Next(c, s, l).sent == s.sent + EnqueuedBy(OpOf(c, s, l))
    ensures Next(c, s, l).received == s.received + DequeuedBy(OpOf(c, s, l))
    ensures OpOf(c, s, l).Full? <==> l.PLoad? && Next(c, s, l).ppc.Idle?
    ensures OpOf(c, s, l).Empty? <==> l.CLoad? && Next(c, s, l).cpc.Idle?
  {
  }

  lemma {:induction false} OpsAreHistory<T>(c: Config, s: State<T>, ls: seq<Label<T>>, t: State<T>)
    requires Run(c, s, ls, t)
    ensures t.sent == s.sent + Enqueued(Ops(c, s, ls, t))
    ensures t.received == s.received + Dequeued(Ops(c, s, ls, t))
    decreases |ls|
  {
    if ls == [] {
    } else {
      var s', op := Next(c, s, ls[0]), OpOf(c, s, ls[0]);
      var rest := Ops(c, s', ls[1..], t);
      StepIsHistory(c, s, ls[0]);
      OpsAreHistory(c, s', ls[1..], t);
      assert ([op] + rest)[1..] == rest;
      Assoc(s.sent, EnqueuedBy(op), Enqueued(rest));
      Assoc(s.received, DequeuedBy(op), Dequeued(rest));
    }
  }

  /** From the empty ring: every run is a run of the bounded FIFO from the empty queue,
      whose enqueued values are those accepted by `try_send` and whose dequeued values are
      those returned by `try_recv`. */
  lemma RingIsFifo<T(!new)>(c: Config, ls: seq<Label<T>>, t: State<T>)
    requires c.Valid() && Run(c, Init(c), ls, t)
    ensures |t.received| <= |t.sent|
    ensures FifoRun(c.Cap(), false, [], Ops(c, Init(c), ls, t), Queue(t))
    ensures t.sent == Enqueued(Ops(c, Init(c), ls, t)) && t.received == Dequeued(Ops(c, Init(c), ls, t))
  {
    InitInv<T>(c);
    RunIsFifo(c, Init(c), ls, t, false);
    OpsAreHistory(c, Init(c), ls, t);
    assert Queue(Init<T>(c)) == [];
  }

  /** Under sequential consistency the ring is an exact bounded FIFO: every refused send
      finds the queue at capacity, and every refused receive finds it empty. */
  lemma ConsistentRingIsExact<T(!new)>(c: Config, ls: seq<Label<T>>, t: State<T>)
    requires c.Valid() && Run(c, Init(c), ls, t) && Consistent(c, Init(c), ls, t)
    ensures |t.received| <= |t.sent|
    ensures FifoRun(c.Cap(), true, [], Ops(c, Init(c), ls, t), Queue(t))
  {
    InitInv<T>(c);
    RunIsFifo(c, Init(c), ls, t, true);
    assert Queue(Init<T>(c)) == [];
  }

  // ---------------------------------------------------------------- race freedom

  ghost predicate SameSlot<T>(p: Side<T>, c: Side<T>, i: nat, j: nat) {
    && i < |p.log| && p.log[i].Access?
    && j < |c.log| && c.log[j].Access?
    && p.log[i].slot == c.log[j].slot
  }

  /** In every reachable state, each write and read of a common slot are ordered by
      happens-before: the read of a position no older than the write comes after it,
      and an overwrite comes after the read of the position it replaces. */
  lemma SlotAccessesOrdered<T>(c: Config, s: State<T>, i: nat, j: nat)
    requires Inv(c, s) && SameSlot(s.p, s.c, i, j)
    ensures s.p.log[i].n <= s.c.log[j].n ==>
              HappensBefore(s.p.log, s.c.log, Node(true, i), Node(false, j))
    ensures s.p.log[i].n > s.c.log[j].n ==>
              HappensBefore(s.p.log, s.c.log, Node(false, j), Node(true, i))
  {
    var m, n := s.p.log[i].n, s.c.log[j].n;
    assert Indexed(s.p, i) && Indexed(s.c, j);
    assert AccessAt(c, s.p, m) && AccessAt(c, s.c, n);
    if m <= n {
      assert AdmittedAt(s.c, s.p, 0, n);
      var load := s.c.ld[n];
      var store := s.c.log[load].rf.value;
      PublishedBefore(c, s.p, store, n);
      assert i <= s.p.acc[n] < store by { assert AccessAt(c, s.p, n); }
      Chain(s.p.log, s.c.log, Node(true, i), Node(true, store), Node(false, load), Node(false, j));
    } else {
      SameSlotGap(c, n, m);
      assert AdmittedAt(s.p, s.c, c.Cap(), m);
      var load := s.p.ld[m];
      var store := s.p.log[load].rf.value;
      PublishedBefore(c, s.c, store, m - c.Cap());
      assert j <= s.c.acc[m - c.Cap()] < store by { assert AccessAt(c, s.c, m - c.Cap()); }
      Chain(s.p.log, s.c.log, Node(false, j), Node(false, store), Node(true, load), Node(true, i));
    }
  }

  /** No two conflicting slot accesses race in any reachable state. */
  lemma NoRaces<T(!new)>(c: Config, s: State<T>)
    requires c.Valid() && Reachable(c, s)
    ensures forall i: nat, j: nat :: SameSlot(s.p, s.c, i, j) ==>
              || HappensBefore(s.p.log, s.c.log, Node(true, i), Node(false, j))
              || HappensBefore(s.p.log, s.c.log, Node(false, j), Node(true, i))
  {
    ReachableInv(c, s);
    forall i: nat, j: nat | SameSlot(s.p, s.c, i, j)
      ensures || HappensBefore(s.p.log, s.c.log, Node(true, i), Node(false, j))
              || HappensBefore(s.p.log, s.c.log, Node(false, j), Node(true, i))
    {
      SlotAccessesOrdered(c, s, i, j);
    }
  }

  // ---------------------------------------------------------------- exactly once

  /** In every reachable state the accepted values are those received, in order,
      followed by those still in the ring, each in its own slot; at most `cap` are
      left; and a pending write touches no slot that still holds an unread value. */
  lemma ExactlyOnce<T(!new)>(c: Config, s: State<T>)
    requires c.Valid() && Reachable(c, s)
    ensures |s.received| <= |s.sent| <= |s.received| + c.Cap()
    ensures forall n :: 0 <= n < |s.received| ==> s.received[n] == Some(s.sent[n])
    ensures forall n :: |s.received| <= n < |s.sent| ==>
              n % c.Cap() < |s.slots| && s.slots[n % c.Cap()] == Some(s.sent[n])
    ensures s.ppc.Checked? ==> forall n :: |s.received| <= n < |s.sent| ==>
              n % c.Cap() != BitAnd(s.ppc.own, c.Mask())
  {
    ReachableInv(c, s);
    forall n | |s.received| <= n < |s.sent|
      ensures n % c.Cap() < |s.slots| && s.slots[n % c.Cap()] == Some(s.sent[n])
    {
      assert SlotHolds(c, s, n);
    }
    if s.ppc.Checked? {
      SlotIndex(c, |s.sent|);
      forall n | |s.received| <= n < |s.sent| ensures n % c.Cap() != BitAnd(s.ppc.own, c.Mask()) {
        LiveSlotsDistinct(c, n, |s.sent|);
      }
    }
  }

  /** In every reachable state the code's wrapped tests decide the true counts: a
      pending load refuses a send exactly when the count it read is a whole capacity
      behind, and refuses a receive exactly when it read no unread position. */
  lemma WrappedTestsExact<T(!new)>(c: Config, s: State<T>, rf: Option<nat>)
    requires c.Valid() && Reachable(c, s)
    ensures Enabled(c, s, PLoad(rf)) ==>
              && IsStoreAt(s.c, rf)
              && (IsFull(c, s.ppc.own, LoadedWord(s.c, rf)) <==> |s.sent| - Count(s.c, rf) == c.Cap())
    ensures Enabled(c, s, CLoad(rf)) ==>
              && IsStoreAt(s.p, rf)
              && (s.cpc.own == LoadedWord(s.p, rf) <==> |s.received| == Count(s.p, rf))
  {
    ReachableInv(c, s);
    if Enabled(c, s, PLoad(rf)) { PLoadKeeps(c, s, rf); }
    if Enabled(c, s, CLoad(rf)) { CLoadKeeps(c, s, rf); }
  }
}
