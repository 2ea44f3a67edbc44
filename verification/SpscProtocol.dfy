/** The shared-memory protocol of the single-producer single-consumer ring.

    Every atomic load, slot access and cursor store of `try_send` and `try_recv`
    is one step, and the two actors interleave arbitrarily.  Each actor keeps a
    log of its memory events, so an execution carries the program order and the
    reads-from edges from which happens-before is computed.

    An acquire load may return any store of the other cursor that is not older
    than the one this actor read last.  A slot read may return any write to the
    slot that is not hidden by a later write that happens before the read, and
    uninitialised memory if no write happens before it.

    Environment assumption: one actor at a time is inside `try_send`, and one at
    a time inside `try_recv`; each has a single program counter. */
module SpscProtocol {
  import opened Common
  import opened Words

  /** `Machine(w, k)` has cursors of `w` bits and `2^k` slots.  `Unbounded(k)` is
      the same program with cursors that never wrap. */
  datatype Config = Machine(w: nat, k: nat) | Unbounded(k: nat) {
    predicate Valid() { Machine? ==> k < w }

    function Cap(): nat { Pow2(k) }

    function Mask(): nat { Pow2(k) - 1 }

    function Wrap(x: nat): nat { if Machine? then x % Pow2(w) else x }

    function WrapSub(a: nat, b: nat): int { if Machine? then (a - b) % Pow2(w) else a - b }
  }

  /** A memory event of one actor.  `n` numbers the actor's accesses from 0 and
      its stores from 1; a slot access is a write by the producer and a read by
      the consumer.  `Load(rf)` reads from the store at index `rf` of the other
      actor's log, or the initial value. */
  datatype Event<T> =
    | Load(rf: Option<nat>)
    | Access(n: nat, slot: nat, val: Option<T>)
    | Store(n: nat, word: nat)

  /** One actor: its cursor in memory, its event log, the log positions of its
      accesses, of the loads that admitted them and of its stores, and the store
      its latest load read from. */
  datatype Side<T> = Side(
    cursor: nat,
    log: seq<Event<T>>,
    acc: seq<nat>,
    ld: seq<nat>,
    st: seq<nat>,
    seen: Option<nat>)
  {
    function Loading(rf: Option<nat>): Side<T> {
      this.(log := log + [Load(rf)], seen := rf)
    }

    function Accessing(slot: nat, val: Option<T>): Side<T>
      requires log != []
    {
      this.(log := log + [Access(|acc|, slot, val)], acc := acc + [|log|], ld := ld + [|log| - 1])
    }

    function Storing(word: nat): Side<T> {
      this.(cursor := word, log := log + [Store(|st| + 1, word)], st := st + [|log|])
    }

    /** The most recent store of this cursor. */
    function Latest(): Option<nat> { if st == [] then None else Some(st[|st| - 1]) }
  }

  datatype Pc<T> =
    | Idle
    | Loaded(own: nat, val: Option<T>)    // own cursor read
    | Checked(own: nat, val: Option<T>)   // other cursor read, not full / not empty
    | Accessed(own: nat, val: Option<T>)  // slot written / read

  datatype State<T> = State(
    p: Side<T>, c: Side<T>,
    ppc: Pc<T>, cpc: Pc<T>,
    slots: seq<Option<T>>,
    sent: seq<T>, received: seq<Option<T>>)

  datatype Label<T> =
    | PStart(v: T) | PLoad(rf: Option<nat>) | PWrite | PStore
    | CStart | CLoad(rf: Option<nat>) | CRead(rf: Option<nat>) | CStore

  function Init<T>(c: Config): State<T> {
    var side := Side(0, [], [], [], [], None);
    State(side, side, Idle, Idle, seq(c.Cap(), _ => None), [], [])
  }

  // ---------------------------------------------------------------- happens-before

  datatype Node = Node(producer: bool, i: nat)

  function LogOf<T>(p: seq<Event<T>>, c: seq<Event<T>>, producer: bool): seq<Event<T>> {
    if producer then p else c
  }

  /** Program order, or a release store read by an acquire load. */
  ghost predicate Edge<T>(p: seq<Event<T>>, c: seq<Event<T>>, a: Node, b: Node) {
    var la, lb := LogOf(p, c, a.producer), LogOf(p, c, b.producer);
    && a.i < |la| && b.i < |lb|
    && if a.producer == b.producer then a.i < b.i
       else la[a.i].Store? && lb[b.i] == Load(Some(a.i))
  }

  ghost predicate IsPath<T>(p: seq<Event<T>>, c: seq<Event<T>>, path: seq<Node>) {
    forall j :: 0 < j < |path| ==> Edge(p, c, path[j - 1], path[j])
  }

  ghost predicate HappensBefore<T>(p: seq<Event<T>>, c: seq<Event<T>>, a: Node, b: Node) {
    exists path: seq<Node> ::
      IsPath(p, c, path) && |path| >= 2 && path[0] == a && path[|path| - 1] == b
  }

  ghost predicate WritesSlot<T>(p: seq<Event<T>>, i: nat, slot: nat) {
    i < |p| && p[i].Access? && p[i].slot == slot
  }

  /** What a read of `slot` at the end of the consumer's log `c` may return. */
  ghost predicate MayReadFrom<T>(p: seq<Event<T>>, c: seq<Event<T>>, slot: nat, rf: Option<nat>)
    requires c != []
  {
    var here := Node(false, |c| - 1);
    match rf
    case None =>
      forall i: nat :: WritesSlot(p, i, slot) ==> !HappensBefore(p, c, Node(true, i), here)
    case Some(r) =>
      && WritesSlot(p, r, slot)
      && forall i: nat :: WritesSlot(p, i, slot) && r < i ==> !HappensBefore(p, c, Node(true, i), here)
  }

  // ---------------------------------------------------------------- steps

  /** Coherence: a load never goes back to an older store. */
  predicate MayLoad<T>(side: Side<T>, other: Side<T>, rf: Option<nat>) {
    match rf
    case None => side.seen.None?
    case Some(r) =>
      && r < |other.log| && other.log[r].Store?
      && (side.seen.Some? ==> side.seen.value <= r)
  }

  function LoadedWord<T>(other: Side<T>, rf: Option<nat>): nat {
    match rf
    case None => 0
    case Some(r) => if r < |other.log| && other.log[r].Store? then other.log[r].word else 0
  }

  predicate IsFull(c: Config, head: nat, tail: nat) { c.WrapSub(head, tail) > c.Mask() }

  function ReadValue<T>(p: seq<Event<T>>, rf: Option<nat>): Option<T> {
    if rf.Some? && rf.value < |p| && p[rf.value].Access? then p[rf.value].val else None
  }

  ghost predicate Enabled<T>(c: Config, s: State<T>, l: Label<T>) {
    match l
    case PStart(_) => s.ppc.Idle?
    case PLoad(rf) => s.ppc.Loaded? && MayLoad(s.p, s.c, rf)
    case PWrite => s.ppc.Checked? && s.p.log != [] && BitAnd(s.ppc.own, c.Mask()) < |s.slots|
    case PStore => s.ppc.Accessed? && s.ppc.val.Some?
    case CStart => s.cpc.Idle?
    case CLoad(rf) => s.cpc.Loaded? && MayLoad(s.c, s.p, rf)
    case CRead(rf) =>
      && s.cpc.Checked? && s.c.log != [] && BitAnd(s.cpc.own, c.Mask()) < |s.slots|
      && var slot := BitAnd(s.cpc.own, c.Mask());
      MayReadFrom(s.p.log, s.c.Accessing(slot, ReadValue(s.p.log, rf)).log, slot, rf)
    case CStore => s.cpc.Accessed?
  }

  ghost function Next<T>(c: Config, s: State<T>, l: Label<T>): State<T>
    requires Enabled(c, s, l)
  {
    match l
    case PStart(v) => s.(ppc := Loaded(s.p.cursor, Some(v)))
    case PLoad(rf) =>
      s.(p := s.p.Loading(rf),
         ppc := if IsFull(c, s.ppc.own, LoadedWord(s.c, rf)) then Idle else Checked(s.ppc.own, s.ppc.val))
    case PWrite =>
      var slot := BitAnd(s.ppc.own, c.Mask());
      s.(p := s.p.Accessing(slot, s.ppc.val), slots := s.slots[slot := s.ppc.val],
         ppc := Accessed(s.ppc.own, s.ppc.val))
    case PStore =>
      s.(p := s.p.Storing(c.Wrap(s.ppc.own + 1)), sent := s.sent + [s.ppc.val.value], ppc := Idle)
    case CStart => s.(cpc := Loaded(s.c.cursor, None))
    case CLoad(rf) =>
      s.(c := s.c.Loading(rf),
         cpc := if s.cpc.own == LoadedWord(s.p, rf) then Idle else Checked(s.cpc.own, None))
    case CRead(rf) =>
      var v := ReadValue(s.p.log, rf);
      s.(c := s.c.Accessing(BitAnd(s.cpc.own, c.Mask()), v), cpc := Accessed(s.cpc.own, v))
    case CStore =>
      s.(c := s.c.Storing(c.Wrap(s.cpc.own + 1)), received := s.received + [s.cpc.val], cpc := Idle)
  }

  /** `ls` is a run from `s` to `t`. */
  ghost predicate Run<T>(c: Config, s: State<T>, ls: seq<Label<T>>, t: State<T>)
    decreases |ls|
  {
    if ls == [] then s == t
    else Enabled(c, s, ls[0]) && Run(c, Next(c, s, ls[0]), ls[1..], t)
  }

  ghost predicate Reachable<T(!new)>(c: Config, s: State<T>) {
    exists ls: seq<Label<T>> :: Run(c, Init(c), ls, s)
  }
}
