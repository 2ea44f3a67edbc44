/** The inductive invariant of the ring protocol, kept by every step. */
module SpscInvariant {
  import opened Common
  import opened Words
  import opened SpscProtocol

  // ---------------------------------------------------------------- invariant

  /** Store number `n + 1` sits at `st[n]`, after access number `n`. */
  ghost predicate StoreAt<T>(c: Config, x: Side<T>, n: nat) {
    && n < |x.st| && n < |x.acc| && x.st[n] < |x.log|
    && x.log[x.st[n]] == Store(n + 1, c.Wrap(n + 1))
    && x.acc[n] < x.st[n]
  }

  /** Access number `n` sits at `acc[n]`, after the load that admitted it, on slot `n % cap`. */
  ghost predicate AccessAt<T>(c: Config, x: Side<T>, n: nat) {
    && n < |x.acc| && n < |x.ld| && x.ld[n] < x.acc[n] < |x.log|
    && x.log[x.acc[n]].Access?
    && x.log[x.acc[n]].n == n && x.log[x.acc[n]].slot == n % c.Cap()
  }

  /** The event at `i` is where the positions say it is. */
  ghost predicate Indexed<T>(x: Side<T>, i: nat) {
    && i < |x.log|
    && (x.log[i].Store? ==> 1 <= x.log[i].n <= |x.st| && x.st[x.log[i].n - 1] == i)
    && (x.log[i].Access? ==> x.log[i].n < |x.acc| && x.acc[x.log[i].n] == i)
  }

  ghost predicate Increasing(s: seq<nat>) {
    forall m, n :: 0 <= m < n < |s| ==> s[m] < s[n]
  }

  /** The log of one actor agrees with its positions and unbounded counts. */
  ghost predicate LogOk<T>(c: Config, x: Side<T>) {
    && |x.st| <= |x.acc| <= |x.st| + 1
    && |x.ld| == |x.acc|
    && x.cursor == c.Wrap(|x.st|)
    && (forall n: nat :: n < |x.st| ==> StoreAt(c, x, n))
    && (forall n: nat :: n < |x.acc| ==> AccessAt(c, x, n))
    && (forall i: nat :: i < |x.log| ==> Indexed(x, i))
    && Increasing(x.st) && Increasing(x.acc)
  }

  ghost predicate IsStoreAt<T>(x: Side<T>, rf: Option<nat>) {
    rf.Some? ==> rf.value < |x.log| && x.log[rf.value].Store?
  }

  /** How many stores of `x` had been made when `rf` was read. */
  ghost function Count<T>(x: Side<T>, rf: Option<nat>): nat
    requires IsStoreAt(x, rf)
  {
    if rf.None? then 0 else x.log[rf.value].n
  }

  /** Access `n` of `x` was admitted by a load that read a store of `other`
      made after its access `n - lag`. */
  ghost predicate AdmittedAt<T>(x: Side<T>, other: Side<T>, lag: nat, n: nat) {
    n >= lag ==>
      && n < |x.ld| && x.ld[n] < |x.log|
      && x.log[x.ld[n]].Load?
      && x.log[x.ld[n]].rf.Some?
      && IsStoreAt(other, x.log[x.ld[n]].rf)
      && Count(other, x.log[x.ld[n]].rf) > n - lag
  }

  ghost predicate Admitted<T>(x: Side<T>, other: Side<T>, lag: nat) {
    forall n: nat :: n < |x.acc| ==> AdmittedAt(x, other, lag, n)
  }

  ghost predicate PcOk<T>(c: Config, x: Side<T>, pc: Pc<T>) {
    && |x.acc| == |x.st| + (if pc.Accessed? then 1 else 0)
    && (!pc.Idle? ==> pc.own == c.Wrap(|x.st|))
    && (pc.Checked? ==> x.log != [] && x.log[|x.log| - 1] == Load(x.seen))
  }

  ghost predicate Counters<T>(c: Config, s: State<T>) {
    && IsStoreAt(s.c, s.p.seen) && IsStoreAt(s.p, s.c.seen)
    && var h, t, seenT, seenH := |s.p.st|, |s.c.st|, Count(s.c, s.p.seen), Count(s.p, s.c.seen);
    && seenT <= t <= seenH <= h <= seenT + c.Cap()
    && (s.ppc.Checked? || s.ppc.Accessed? ==> h < seenT + c.Cap())
    && (s.cpc.Checked? || s.cpc.Accessed? ==> t < seenH)
  }

  /** The value of the producer's write number `n`, published or not. */
  ghost function Written<T>(s: State<T>, n: nat): Option<T> {
    if n < |s.sent| then Some(s.sent[n]) else if s.ppc.Accessed? then s.ppc.val else None
  }

  ghost predicate WriteHolds<T>(s: State<T>, n: nat) {
    && n < |s.p.acc| && s.p.acc[n] < |s.p.log| && s.p.log[s.p.acc[n]].Access?
    && s.p.log[s.p.acc[n]].val == Written(s, n)
  }

  ghost predicate SlotHolds<T>(c: Config, s: State<T>, n: nat) {
    n % c.Cap() < |s.slots| && s.slots[n % c.Cap()] == Written(s, n)
  }

  ghost predicate Values<T>(c: Config, s: State<T>) {
    && |s.sent| == |s.p.st| && |s.received| == |s.c.st| <= |s.sent|
    && |s.slots| == c.Cap()
    && (!s.ppc.Idle? ==> s.ppc.val.Some?)
    && (forall n: nat :: n < |s.p.acc| ==> WriteHolds(s, n))
    && (forall n: nat :: |s.received| <= n < |s.p.acc| ==> SlotHolds(c, s, n))
    && (forall n :: 0 <= n < |s.received| ==> s.received[n] == Some(s.sent[n]))
    && (s.cpc.Accessed? ==> |s.received| < |s.sent| && s.cpc.val == Some(s.sent[|s.received|]))
  }

  ghost predicate Inv<T>(c: Config, s: State<T>) {
    && c.Valid()
    && LogOk(c, s.p) && LogOk(c, s.c)
    && PcOk(c, s.p, s.ppc) && PcOk(c, s.c, s.cpc)
    && Admitted(s.p, s.c, c.Cap()) && Admitted(s.c, s.p, 0)
    && Counters(c, s)
    && Values(c, s)
  }

  // ---------------------------------------------------------------- wrapped decisions

  lemma SlotIndex(c: Config, n: nat)
    requires c.Valid()
    ensures BitAnd(c.Wrap(n), c.Mask()) == n % c.Cap()
  {
    MaskIsMod(c.Wrap(n), c.k);
    if c.Machine? { ModOfMod(n, c.k, c.w); }
  }

  /** The code's full test on wrapped cursors is the test on true counts. */
  lemma FullIsExact(c: Config, h: nat, t: nat)
    requires c.Valid() && t <= h <= t + c.Cap()
    ensures IsFull(c, c.Wrap(h), c.Wrap(t)) <==> h - t == c.Cap()
  {
    if c.Machine? {
      Pow2Increasing(c.k, c.w);
      WrapDifference(h, t, Pow2(c.w));
    }
  }

  /** The code's empty test on wrapped cursors is the test on true counts. */
  lemma EmptyIsExact(c: Config, t: nat, h: nat)
    requires c.Valid() && t <= h <= t + c.Cap()
    ensures c.Wrap(t) == c.Wrap(h) <==> t == h
  {
    if c.Machine? {
      Pow2Increasing(c.k, c.w);
      if c.Wrap(t) == c.Wrap(h) { CloseCongruent(h, t, Pow2(c.w)); }
    }
  }

  lemma WrapNext(c: Config, n: nat)
    requires c.Valid()
    ensures c.Wrap(c.Wrap(n) + 1) == c.Wrap(n + 1)
  {
    if c.Machine? { WrapSucc(n, Pow2(c.w)); }
  }

  /** Live positions occupy distinct slots. */
  lemma LiveSlotsDistinct(c: Config, m: nat, n: nat)
    requires m < n < m + c.Cap()
    ensures m % c.Cap() != n % c.Cap()
  {
    if m % c.Cap() == n % c.Cap() { CloseCongruent(n, m, c.Cap()); }
  }

  /** Positions that share a slot are a whole capacity apart. */
  lemma SameSlotGap(c: Config, m: nat, n: nat)
    requires m < n && m % c.Cap() == n % c.Cap()
    ensures m + c.Cap() <= n
  {
    if n < m + c.Cap() { LiveSlotsDistinct(c, m, n); }
  }

  // ---------------------------------------------------------------- preservation

  /** Appending an event moves none of the earlier ones. */
  lemma Extends<T>(c: Config, x: Side<T>, y: Side<T>)
    requires LogOk(c, x)
    requires x.log <= y.log && x.st <= y.st && x.acc <= y.acc && x.ld <= y.ld
    ensures forall n: nat :: n < |x.st| ==> StoreAt(c, y, n)
    ensures forall n: nat :: n < |x.acc| ==> AccessAt(c, y, n)
    ensures forall i: nat :: i < |x.log| ==> Indexed(y, i)
  {
    forall n: nat | n < |x.st| ensures StoreAt(c, y, n) { assert StoreAt(c, x, n); }
    forall n: nat | n < |x.acc| ensures AccessAt(c, y, n) { assert AccessAt(c, x, n); }
    forall i: nat | i < |x.log| ensures Indexed(y, i) { assert Indexed(x, i); }
  }

  lemma LoadingKeeps<T>(c: Config, x: Side<T>, rf: Option<nat>)
    requires LogOk(c, x)
    ensures LogOk(c, x.Loading(rf))
  {
    var y := x.Loading(rf);
    Extends(c, x, y);
    assert Indexed(y, |x.log|);
  }

  lemma AccessingKeeps<T>(c: Config, x: Side<T>, slot: nat, val: Option<T>)
    requires LogOk(c, x) && |x.acc| == |x.st| && x.log != [] && slot == |x.acc| % c.Cap()
    ensures LogOk(c, x.Accessing(slot, val))
  {
    var y := x.Accessing(slot, val);
    Extends(c, x, y);
    assert Indexed(y, |x.log|) && AccessAt(c, y, |x.acc|);
    forall n: nat | n < |x.acc| ensures x.acc[n] < |x.log| { assert AccessAt(c, x, n); }
  }

  lemma StoringKeeps<T>(c: Config, x: Side<T>, word: nat)
    requires LogOk(c, x) && |x.acc| == |x.st| + 1 && word == c.Wrap(|x.st| + 1)
    ensures LogOk(c, x.Storing(word))
  {
    var y := x.Storing(word);
    Extends(c, x, y);
    assert AccessAt(c, x, |x.st|);
    assert Indexed(y, |x.log|) && StoreAt(c, y, |x.st|);
    forall n: nat | n < |x.st| ensures x.st[n] < |x.log| { assert StoreAt(c, x, n); }
  }

  lemma StoreOrder<T>(c: Config, x: Side<T>, i: nat, j: nat)
    requires LogOk(c, x) && i <= j < |x.log| && x.log[i].Store? && x.log[j].Store?
    ensures 1 <= x.log[i].n <= x.log[j].n <= |x.st|
    ensures x.log[j].word == c.Wrap(x.log[j].n)
  {
    assert Indexed(x, i) && Indexed(x, j) && StoreAt(c, x, x.log[j].n - 1);
  }

  /** A load sees at least what its actor saw before, and at most the present. */
  lemma LoadBounds<T>(c: Config, x: Side<T>, other: Side<T>, rf: Option<nat>)
    requires LogOk(c, other) && IsStoreAt(other, x.seen) && MayLoad(x, other, rf)
    ensures IsStoreAt(other, rf)
    ensures Count(other, x.seen) <= Count(other, rf) <= |other.st|
    ensures LoadedWord(other, rf) == c.Wrap(Count(other, rf))
  {
    if rf.Some? {
      StoreOrder(c, other, rf.value, rf.value);
      if x.seen.Some? { StoreOrder(c, other, x.seen.value, rf.value); }
    } else if c.Machine? {
      ModUnique(0, 0, 0, Pow2(c.w));
    }
  }

  // ---------------------------------------------------------------- one step

  /** Both cursors' histories only grow, so what was admitted stays admitted. */
  lemma AdmittedExtends<T>(x: Side<T>, y: Side<T>, other: Side<T>, other': Side<T>, lag: nat)
    requires Admitted(x, other, lag)
    requires x.log <= y.log && x.ld <= y.ld && other.log <= other'.log
    ensures forall n: nat :: n < |x.acc| ==> AdmittedAt(y, other', lag, n)
  {
    forall n: nat | n < |x.acc| ensures AdmittedAt(y, other', lag, n) {
      assert AdmittedAt(x, other, lag, n);
    }
  }

  lemma InitInv<T>(c: Config)
    requires c.Valid()
    ensures Inv<T>(c, Init(c))
  {
  }

  lemma PStartKeeps<T>(c: Config, s: State<T>, v: T)
    requires Inv(c, s) && s.ppc.Idle?
    ensures Inv(c, Next(c, s, PStart(v)))
  {
    var s' := Next(c, s, PStart(v));
    forall n: nat | n < |s.p.acc| ensures WriteHolds(s', n) { assert WriteHolds(s, n); }
    forall n: nat | |s.received| <= n < |s.p.acc| ensures SlotHolds(c, s', n) { assert SlotHolds(c, s, n); }
  }

  lemma PLoadKeeps<T>(c: Config, s: State<T>, rf: Option<nat>)
    requires Inv(c, s) && Enabled(c, s, PLoad(rf))
    ensures Inv(c, Next(c, s, PLoad(rf)))
    ensures Next(c, s, PLoad(rf)).ppc.Idle? <==> |s.p.st| - Count(s.c, rf) == c.Cap()
  {
    var s' := Next(c, s, PLoad(rf));
    LoadingKeeps(c, s.p, rf);
    LoadBounds(c, s.p, s.c, rf);
    FullIsExact(c, |s.p.st|, Count(s.c, rf));
    AdmittedExtends(s.p, s'.p, s.c, s.c, c.Cap());
    AdmittedExtends(s.c, s.c, s.p, s'.p, 0);
    forall n: nat | n < |s.p.acc| ensures WriteHolds(s', n) {
      assert WriteHolds(s, n) && AccessAt(c, s.p, n);
    }
    forall n: nat | |s.received| <= n < |s.p.acc| ensures SlotHolds(c, s', n) { assert SlotHolds(c, s, n); }
  }

  lemma PWriteKeeps<T>(c: Config, s: State<T>)
    requires Inv(c, s) && s.ppc.Checked?
    ensures Enabled(c, s, PWrite)
    ensures Inv(c, Next(c, s, PWrite))
  {
    var h := |s.p.st|;
    SlotIndex(c, h);
    var s' := Next(c, s, PWrite);
    AccessingKeeps(c, s.p, h % c.Cap(), s.ppc.val);
    AdmittedExtends(s.p, s'.p, s.c, s.c, c.Cap());
    AdmittedExtends(s.c, s.c, s.p, s'.p, 0);
    assert AdmittedAt(s'.p, s.c, c.Cap(), h);
    forall n: nat | n < |s'.p.acc| ensures WriteHolds(s', n) {
      if n < h { assert WriteHolds(s, n); }
    }
    forall n: nat | |s.received| <= n < |s'.p.acc| ensures SlotHolds(c, s', n) {
      if n < h {
        assert SlotHolds(c, s, n);
        LiveSlotsDistinct(c, n, h);
      }
    }
  }

  lemma PStoreKeeps<T>(c: Config, s: State<T>)
    requires Inv(c, s) && s.ppc.Accessed?
    ensures Enabled(c, s, PStore)
    ensures Inv(c, Next(c, s, PStore))
  {
    var s' := Next(c, s, PStore);
    WrapNext(c, |s.p.st|);
    StoringKeeps(c, s.p, c.Wrap(s.ppc.own + 1));
    AdmittedExtends(s.p, s'.p, s.c, s.c, c.Cap());
    AdmittedExtends(s.c, s.c, s.p, s'.p, 0);
    forall n: nat | n < |s.p.acc| ensures WriteHolds(s', n) { assert WriteHolds(s, n); }
    forall n: nat | |s.received| <= n < |s.p.acc| ensures SlotHolds(c, s', n) { assert SlotHolds(c, s, n); }
  }

  lemma CStartKeeps<T>(c: Config, s: State<T>)
    requires Inv(c, s) && s.cpc.Idle?
    ensures Inv(c, Next(c, s, CStart))
  {
    ConsumerKeepsValues(c, s, Next(c, s, CStart));
  }

  lemma ConsumerKeepsValues<T>(c: Config, s: State<T>, s': State<T>)
    requires Values(c, s)
    requires s'.p == s.p && s'.ppc == s.ppc && s'.slots == s.slots && s'.sent == s.sent
    requires |s.received| <= |s'.received|
    ensures forall n: nat :: n < |s.p.acc| ==> WriteHolds(s', n)
    ensures forall n: nat :: |s'.received| <= n < |s.p.acc| ==> SlotHolds(c, s', n)
  {
    forall n: nat | n < |s.p.acc| ensures WriteHolds(s', n) { assert WriteHolds(s, n); }
    forall n: nat | |s'.received| <= n < |s.p.acc| ensures SlotHolds(c, s', n) { assert SlotHolds(c, s, n); }
  }

  lemma CLoadKeeps<T>(c: Config, s: State<T>, rf: Option<nat>)
    requires Inv(c, s) && Enabled(c, s, CLoad(rf))
    ensures Inv(c, Next(c, s, CLoad(rf)))
    ensures Next(c, s, CLoad(rf)).cpc.Idle? <==> |s.c.st| == Count(s.p, rf)
  {
    var s' := Next(c, s, CLoad(rf));
    LoadingKeeps(c, s.c, rf);
    LoadBounds(c, s.c, s.p, rf);
    EmptyIsExact(c, |s.c.st|, Count(s.p, rf));
    AdmittedExtends(s.p, s.p, s.c, s'.c, c.Cap());
    AdmittedExtends(s.c, s'.c, s.p, s.p, 0);
    ConsumerKeepsValues(c, s, s');
  }

  lemma CStoreKeeps<T>(c: Config, s: State<T>)
    requires Inv(c, s) && s.cpc.Accessed?
    ensures Inv(c, Next(c, s, CStore))
  {
    var s' := Next(c, s, CStore);
    WrapNext(c, |s.c.st|);
    StoringKeeps(c, s.c, c.Wrap(s.cpc.own + 1));
    AdmittedExtends(s.p, s.p, s.c, s'.c, c.Cap());
    AdmittedExtends(s.c, s'.c, s.p, s.p, 0);
    ConsumerKeepsValues(c, s, s');
  }

  // ---------------------------------------------------------------- what a slot read returns

  lemma Chain<T>(p: seq<Event<T>>, c: seq<Event<T>>, a: Node, store: Node, load: Node, b: Node)
    requires Edge(p, c, a, store) && Edge(p, c, store, load) && Edge(p, c, load, b)
    ensures HappensBefore(p, c, a, b)
  {
    var path := [a, store, load, b];
    assert IsPath(p, c, path);
  }

  /** The write of position `n` happens before everything after a load that saw
      more than `n` published positions. */
  lemma PublishedBefore<T>(c: Config, x: Side<T>, r: nat, n: nat)
    requires LogOk(c, x) && r < |x.log| && x.log[r].Store? && x.log[r].n > n
    ensures n < |x.acc| && x.acc[n] < r
  {
    assert Indexed(x, r) && StoreAt(c, x, n);
    StoreOrder(c, x, r, r);
  }

  /** A slot read returns the one write it should: the consumer's next position.
      No other write to the slot, and no uninitialised memory, is visible. */
  lemma ReadIsForced<T>(c: Config, s: State<T>, rf: Option<nat>)
    requires Inv(c, s) && s.cpc.Checked?
    ensures |s.received| < |s.sent| && |s.received| < |s.p.acc|
    ensures Enabled(c, s, CRead(rf)) <==> rf == Some(s.p.acc[|s.received|])
    ensures ReadValue(s.p.log, Some(s.p.acc[|s.received|])) == Some(s.sent[|s.received|])
              == s.slots[BitAnd(s.cpc.own, c.Mask())]
  {
    var t := |s.received|;
    SlotIndex(c, t);
    var slot := t % c.Cap();
    var w := s.p.acc[t];
    var v := ReadValue(s.p.log, rf);
    var log := s.c.Accessing(slot, v).log;
    var here := Node(false, |log| - 1);
    var r := s.c.seen.value;
    assert AccessAt(c, s.p, t) && WriteHolds(s, t) && SlotHolds(c, s, t);
    PublishedBefore(c, s.p, r, t);
    Chain(s.p.log, log, Node(true, w), Node(true, r), Node(false, |s.c.log| - 1), here);
    forall i: nat | WritesSlot(s.p.log, i, slot) ensures i <= w {
      assert Indexed(s.p, i);
      var n := s.p.log[i].n;
      assert AccessAt(c, s.p, n);
      if n > t { SameSlotGap(c, t, n); }
    }
    assert WritesSlot(s.p.log, w, slot);
  }

  lemma CReadKeeps<T>(c: Config, s: State<T>, rf: Option<nat>)
    requires Inv(c, s) && Enabled(c, s, CRead(rf))
    ensures Inv(c, Next(c, s, CRead(rf)))
  {
    var s' := Next(c, s, CRead(rf));
    var t := |s.c.st|;
    ReadIsForced(c, s, rf);
    SlotIndex(c, t);
    AccessingKeeps(c, s.c, t % c.Cap(), ReadValue(s.p.log, rf));
    AdmittedExtends(s.p, s.p, s.c, s'.c, c.Cap());
    AdmittedExtends(s.c, s'.c, s.p, s.p, 0);
    assert AdmittedAt(s'.c, s.p, 0, t);
    ConsumerKeepsValues(c, s, s');
  }

  /** Every step of either actor keeps the invariant. */
  lemma StepKeeps<T>(c: Config, s: State<T>, l: Label<T>)
    requires Inv(c, s) && Enabled(c, s, l)
    ensures Inv(c, Next(c, s, l))
  {
    match l
    case PStart(v) => PStartKeeps(c, s, v);
    case PLoad(rf) => PLoadKeeps(c, s, rf);
    case PWrite => PWriteKeeps(c, s);
    case PStore => PStoreKeeps(c, s);
    case CStart => CStartKeeps(c, s);
    case CLoad(rf) => CLoadKeeps(c, s, rf);
    case CRead(rf) => CReadKeeps(c, s, rf);
    case CStore => CStoreKeeps(c, s);
  }

  /** The invariant holds at the end of every run. */
  lemma {:induction false} RunKeeps<T>(c: Config, s: State<T>, ls: seq<Label<T>>, t: State<T>)
    requires Inv(c, s) && Run(c, s, ls, t)
    ensures Inv(c, t)
    decreases |ls|
  {
    if ls == [] {
    } else {
      StepKeeps(c, s, ls[0]);
      RunKeeps(c, Next(c, s, ls[0]), ls[1..], t);
    }
  }

  lemma ReachableInv<T(!new)>(c: Config, s: State<T>)
    requires c.Valid() && Reachable(c, s)
    ensures Inv(c, s)
  {
    var ls: seq<Label<T>> :| Run(c, Init(c), ls, s);
    InitInv<T>(c);
    RunKeeps(c, Init(c), ls, s);
  }
}
