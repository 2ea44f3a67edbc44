/** The ring with cursors that wrap in a machine word refines the same program
    with cursors that count without bound. */
module SpscUnbounded {
  import opened Common
  import opened Words
  import opened SpscProtocol
  import opened SpscInvariant

  function Unwrap<T>(e: Event<T>): Event<T> {
    if e.Store? then Store(e.n, e.n) else e
  }

  function UnwrapLog<T>(log: seq<Event<T>>): seq<Event<T>> {
    seq(|log|, i requires 0 <= i < |log| => Unwrap(log[i]))
  }

  function UnwrapSide<T>(x: Side<T>): Side<T> {
    x.(cursor := |x.st|, log := UnwrapLog(x.log))
  }

  function UnwrapPc<T>(x: Side<T>, pc: Pc<T>): Pc<T> {
    match pc
    case Idle => Idle
    case Loaded(_, v) => Loaded(|x.st|, v)
    case Checked(_, v) => Checked(|x.st|, v)
    case Accessed(_, v) => Accessed(|x.st|, v)
  }

  /** The same state with every cursor value replaced by the count it stands for. */
  function UnwrapState<T>(s: State<T>): State<T> {
    s.(p := UnwrapSide(s.p), c := UnwrapSide(s.c),
       ppc := UnwrapPc(s.p, s.ppc), cpc := UnwrapPc(s.c, s.cpc))
  }

  lemma SideUnwraps<T>(x: Side<T>, rf: Option<nat>, slot: nat, val: Option<T>, word: nat)
    ensures UnwrapSide(x.Loading(rf)) == UnwrapSide(x).Loading(rf)
    ensures x.log != [] ==> UnwrapSide(x.Accessing(slot, val)) == UnwrapSide(x).Accessing(slot, val)
    ensures UnwrapSide(x.Storing(word)) == UnwrapSide(x).Storing(|x.st| + 1)
  {
  }

  lemma HappensBeforeUnwraps<T>(p: seq<Event<T>>, c: seq<Event<T>>, a: Node, b: Node)
    ensures HappensBefore(UnwrapLog(p), UnwrapLog(c), a, b) <==> HappensBefore(p, c, a, b)
  {
    assert forall x, y :: Edge(UnwrapLog(p), UnwrapLog(c), x, y) <==> Edge(p, c, x, y);
    forall path: seq<Node> ensures IsPath(UnwrapLog(p), UnwrapLog(c), path) <==> IsPath(p, c, path) {
    }
  }

  lemma MayReadFromUnwraps<T>(p: seq<Event<T>>, c: seq<Event<T>>, slot: nat, rf: Option<nat>)
    requires c != [] && MayReadFrom(p, c, slot, rf)
    ensures MayReadFrom(UnwrapLog(p), UnwrapLog(c), slot, rf)
  {
    forall i: nat
      ensures WritesSlot(UnwrapLog(p), i, slot) <==> WritesSlot(p, i, slot)
      ensures HappensBefore(UnwrapLog(p), UnwrapLog(c), Node(true, i), Node(false, |c| - 1))
         <==> HappensBefore(p, c, Node(true, i), Node(false, |c| - 1))
    {
      HappensBeforeUnwraps(p, c, Node(true, i), Node(false, |c| - 1));
    }
  }

  lemma LoadedWordUnwraps<T>(c: Config, x: Side<T>, other: Side<T>, rf: Option<nat>)
    requires LogOk(c, other) && IsStoreAt(other, x.seen) && MayLoad(x, other, rf)
    ensures MayLoad(UnwrapSide(x), UnwrapSide(other), rf)
    ensures IsStoreAt(other, rf) && LoadedWord(UnwrapSide(other), rf) == Count(other, rf)
  {
  }

  ghost predicate Unwraps<T>(c: Config, s: State<T>, l: Label<T>)
    requires Enabled(c, s, l)
  {
    && Enabled(Unbounded(c.k), UnwrapState(s), l)
    && Next(Unbounded(c.k), UnwrapState(s), l) == UnwrapState(Next(c, s, l))
  }

  lemma PLoadUnwraps<T>(c: Config, s: State<T>, rf: Option<nat>)
    requires Inv(c, s) && Enabled(c, s, PLoad(rf))
    ensures Unwraps(c, s, PLoad(rf))
  {
    LoadedWordUnwraps(c, s.p, s.c, rf);
    LoadBounds(c, s.p, s.c, rf);
    FullIsExact(c, |s.p.st|, Count(s.c, rf));
    FullIsExact(Unbounded(c.k), |s.p.st|, Count(s.c, rf));
    SideUnwraps(s.p, rf, 0, None, 0);
  }

  lemma CLoadUnwraps<T>(c: Config, s: State<T>, rf: Option<nat>)
    requires Inv(c, s) && Enabled(c, s, CLoad(rf))
    ensures Unwraps(c, s, CLoad(rf))
  {
    LoadedWordUnwraps(c, s.c, s.p, rf);
    LoadBounds(c, s.c, s.p, rf);
    EmptyIsExact(c, |s.c.st|, Count(s.p, rf));
    SideUnwraps(s.c, rf, 0, None, 0);
  }

  lemma PWriteUnwraps<T>(c: Config, s: State<T>)
    requires Inv(c, s) && Enabled(c, s, PWrite)
    ensures Unwraps(c, s, PWrite)
  {
    SlotIndex(c, |s.p.st|);
    SlotIndex(Unbounded(c.k), |s.p.st|);
    SideUnwraps(s.p, None, |s.p.st| % c.Cap(), s.ppc.val, 0);
  }

  lemma CReadUnwraps<T>(c: Config, s: State<T>, rf: Option<nat>)
    requires Inv(c, s) && Enabled(c, s, CRead(rf))
    ensures Unwraps(c, s, CRead(rf))
  {
    var slot, v := |s.c.st| % c.Cap(), ReadValue(s.p.log, rf);
    SlotIndex(c, |s.c.st|);
    SlotIndex(Unbounded(c.k), |s.c.st|);
    SideUnwraps(s.c, None, slot, v, 0);
    assert ReadValue(UnwrapLog(s.p.log), rf) == v;
    MayReadFromUnwraps(s.p.log, s.c.Accessing(slot, v).log, slot, rf);
  }

  lemma PStoreUnwraps<T>(c: Config, s: State<T>)
    requires Inv(c, s) && Enabled(c, s, PStore)
    ensures Unwraps(c, s, PStore)
  {
  }

  lemma CStoreUnwraps<T>(c: Config, s: State<T>)
    requires Inv(c, s) && Enabled(c, s, CStore)
    ensures Unwraps(c, s, CStore)
  {
  }

  /** Every step of the wrapping machine is the same step of the unbounded one. */
  lemma StepUnwraps<T>(c: Config, s: State<T>, l: Label<T>)
    requires Inv(c, s) && Enabled(c, s, l)
    ensures Unwraps(c, s, l)
  {
    match l
    case PStart(v) =>
    case PLoad(rf) => PLoadUnwraps(c, s, rf);
    case PWrite => PWriteUnwraps(c, s);
    case PStore => PStoreUnwraps(c, s);
    case CStart =>
    case CLoad(rf) => CLoadUnwraps(c, s, rf);
    case CRead(rf) => CReadUnwraps(c, s, rf);
    case CStore => CStoreUnwraps(c, s);
  }

  lemma {:induction false} RunUnwrapsFrom<T>(c: Config, s: State<T>, ls: seq<Label<T>>, t: State<T>)
    requires Inv(c, s) && Run(c, s, ls, t)
    ensures Run(Unbounded(c.k), UnwrapState(s), ls, UnwrapState(t))
    decreases |ls|
  {
    if ls == [] {
    } else {
      StepUnwraps(c, s, ls[0]);
      StepKeeps(c, s, ls[0]);
      RunUnwrapsFrom(c, Next(c, s, ls[0]), ls[1..], t);
    }
  }

  /** Every run of the wrapping machine, through any number of wraps, is a run of
      the unbounded machine with the same steps and the same values. */
  lemma RunUnwraps<T>(c: Config, ls: seq<Label<T>>, t: State<T>)
    requires c.Valid() && Run(c, Init(c), ls, t)
    ensures Run(Unbounded(c.k), Init(Unbounded(c.k)), ls, UnwrapState(t))
    ensures UnwrapState(t).sent == t.sent && UnwrapState(t).received == t.received
  {
    InitInv<T>(c);
    RunUnwrapsFrom(c, Init(c), ls, t);
    assert UnwrapState(Init<T>(c)) == Init<T>(Unbounded(c.k));
  }
}
