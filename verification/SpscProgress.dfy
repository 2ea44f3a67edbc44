/** Blocking `send` and `recv`: the retry loops around the ring protocol never get stuck. */
module SpscProgress {
  import opened Common
  import opened Words
  import opened SpscProtocol
  import opened SpscInvariant
  import opened SpscRefinement

  // ---------------------------------------------------------------- blocking clients

  /** A producer that blocks until each value of `input` is sent, in order, and a
      consumer that blocks until it has as many.  A refused attempt is retried with
      the same value; both wait strategies are no steps at all. */
  ghost predicate Blocking<T>(input: seq<T>, s: State<T>, l: Label<T>) {
    match l
    case PStart(v) => |s.sent| < |input| && v == input[|s.sent|]
    case CStart => |s.received| < |input|
    case _ => true
  }

  /** A run of the two clients; with `latest`, one in which every load reads the latest store. */
  ghost predicate BlockingRun<T>(c: Config, input: seq<T>, latest: bool, s: State<T>, ls: seq<Label<T>>, t: State<T>)
    decreases |ls|
  {
    if ls == [] then s == t
    else
      && Enabled(c, s, ls[0]) && Blocking(input, s, ls[0]) && (latest ==> ReadsLatest(s, ls[0]))
      && BlockingRun(c, input, latest, Next(c, s, ls[0]), ls[1..], t)
  }

  ghost predicate Client<T>(c: Config, input: seq<T>, s: State<T>) {
    && Inv(c, s)
    && |s.sent| <= |input| && s.sent == input[..|s.sent|]
    && (!s.ppc.Idle? ==> |s.sent| < |input| && s.ppc.val == Some(input[|s.sent|]))
    && (!s.cpc.Idle? ==> |s.received| < |input|)
  }

  ghost predicate Finished<T>(input: seq<T>, s: State<T>) {
    && s.sent == input && s.ppc.Idle? && s.cpc.Idle?
    && |s.received| == |input| && forall n :: 0 <= n < |input| ==> s.received[n] == Some(input[n])
  }

  lemma ClientKeeps<T>(c: Config, input: seq<T>, s: State<T>, l: Label<T>)
    requires Client(c, input, s) && Enabled(c, s, l) && Blocking(input, s, l)
    ensures Client(c, input, Next(c, s, l))
  {
    StepKeeps(c, s, l);
    if l.CLoad? { CLoadKeeps(c, s, l.rf); }
  }

  lemma {:induction false} ClientRunKeeps<T>(c: Config, input: seq<T>, latest: bool, s: State<T>, ls: seq<Label<T>>,
                                             t: State<T>)
    requires Client(c, input, s) && BlockingRun(c, input, latest, s, ls, t)
    ensures Client(c, input, t) && |s.sent| <= |t.sent| && |s.received| <= |t.received|
    decreases |ls|
  {
    if ls == [] {
    } else {
      ClientKeeps(c, input, s, ls[0]);
      ClientRunKeeps(c, input, latest, Next(c, s, ls[0]), ls[1..], t);
    }
  }

  function Phase<T>(pc: Pc<T>): nat {
    match pc
    case Idle => 0
    case Loaded(_, _) => 1
    case Checked(_, _) => 2
    case Accessed(_, _) => 3
  }

  /** Four steps for every send and receive still outstanding, less those taken. */
  ghost function Remaining<T>(c: Config, input: seq<T>, s: State<T>): nat
    requires Client(c, input, s)
  {
    4 * (|input| - |s.sent|) - Phase(s.ppc) + 4 * (|input| - |s.received|) - Phase(s.cpc)
  }

  ghost predicate Advances<T>(c: Config, input: seq<T>, s: State<T>, l: Label<T>)
    requires Client(c, input, s)
  {
    && Enabled(c, s, l) && Blocking(input, s, l) && ReadsLatest(s, l)
    && Client(c, input, Next(c, s, l))
    && Remaining(c, input, Next(c, s, l)) == Remaining(c, input, s) - 1
  }

  lemma TailMove<T>(c: Config, input: seq<T>, s: State<T>) returns (l: Label<T>)
    requires Client(c, input, s) && s.ppc.Loaded? && |s.sent| - |s.received| < c.Cap()
    ensures Advances(c, input, s, l)
  {
    l := PLoad(s.c.Latest());
    LatestMayLoad(c, s.p, s.c);
    PLoadKeeps(c, s, s.c.Latest());
    ClientKeeps(c, input, s, l);
  }

  lemma HeadMove<T>(c: Config, input: seq<T>, s: State<T>) returns (l: Label<T>)
    requires Client(c, input, s) && s.cpc.Loaded? && |s.received| < |s.sent|
    ensures Advances(c, input, s, l)
  {
    l := CLoad(s.p.Latest());
    LatestMayLoad(c, s.c, s.p);
    CLoadKeeps(c, s, s.p.Latest());
    ClientKeeps(c, input, s, l);
  }

  lemma ProducerMove<T>(c: Config, input: seq<T>, s: State<T>) returns (l: Label<T>)
    requires Client(c, input, s)
    requires s.ppc.Checked? || s.ppc.Accessed? || (|s.sent| < |input| && |s.sent| - |s.received| < c.Cap())
    ensures Advances(c, input, s, l)
  {
    match s.ppc {
      case Idle => l := PStart(input[|s.sent|]);
      case Loaded(_, _) =>
        l := TailMove(c, input, s);
        return;
      case Checked(_, _) =>
        l := PWrite;
        PWriteKeeps(c, s);
      case Accessed(_, _) => l := PStore;
    }
    ClientKeeps(c, input, s, l);
  }

  lemma ConsumerMove<T>(c: Config, input: seq<T>, s: State<T>) returns (l: Label<T>)
    requires Client(c, input, s)
    requires |s.received| < |s.sent|
    ensures Advances(c, input, s, l)
  {
    match s.cpc {
      case Idle => l := CStart;
      case Loaded(_, _) =>
        l := HeadMove(c, input, s);
        return;
      case Checked(_, _) =>
        l := ReadMove(c, input, s);
        return;
      case Accessed(_, _) => l := CStore;
    }
    ClientKeeps(c, input, s, l);
  }

  lemma ReadMove<T>(c: Config, input: seq<T>, s: State<T>) returns (l: Label<T>)
    requires Client(c, input, s) && s.cpc.Checked?
    ensures Advances(c, input, s, l)
  {
    ReadIsForced(c, s, None);
    var rf := Some(s.p.acc[|s.received|]);
    ReadIsForced(c, s, rf);
    l := CRead(rf);
    ClientKeeps(c, input, s, l);
  }

  /** A side that must be able to move: the producer unless the queue is full or
      everything is sent, otherwise the consumer. */
  lemma NextMove<T>(c: Config, input: seq<T>, s: State<T>) returns (l: Label<T>)
    requires Client(c, input, s) && Remaining(c, input, s) > 0
    ensures Advances(c, input, s, l)
  {
    if s.ppc.Checked? || s.ppc.Accessed? || (|s.sent| < |input| && |s.sent| - |s.received| < c.Cap()) {
      l := ProducerMove(c, input, s);
    } else {
      l := ConsumerMove(c, input, s);
    }
  }

  lemma LatestMayLoad<T>(c: Config, x: Side<T>, other: Side<T>)
    requires LogOk(c, other) && IsStoreAt(other, x.seen)
    ensures MayLoad(x, other, other.Latest())
    ensures IsStoreAt(other, other.Latest()) && Count(other, other.Latest()) == |other.st|
  {
    LatestCount(c, other);
    if x.seen.Some? {
      var i := x.seen.value;
      StoreOrder(c, other, i, i);
      assert Indexed(other, i);
    }
  }

  /** From any state of any blocking run, `Remaining` further steps that read the latest
      stores deliver everything: no reachable state is stuck. */
  lemma {:induction false} NeverStuck<T(!new)>(c: Config, input: seq<T>, s: State<T>)
    requires Client(c, input, s)
    ensures exists ls: seq<Label<T>>, t: State<T> ::
              |ls| == Remaining(c, input, s) && BlockingRun(c, input, true, s, ls, t) && Finished(input, t)
    decreases Remaining(c, input, s)
  {
    if Remaining(c, input, s) == 0 {
      var none: seq<Label<T>> := [];
      assert BlockingRun(c, input, true, s, none, s);
      assert Finished(input, s);
    } else {
      var l := NextMove(c, input, s);
      var s' := Next(c, s, l);
      NeverStuck(c, input, s');
      var ls: seq<Label<T>>, t: State<T> :|
        |ls| == Remaining(c, input, s') && BlockingRun(c, input, true, s', ls, t) && Finished(input, t);
      var all := [l] + ls;
      assert all[1..] == ls;
      assert BlockingRun(c, input, true, s, all, t);
    }
  }

  /** From the initial state, any prefix of a blocking run can be completed. */
  lemma BlockingCompletes<T(!new)>(c: Config, input: seq<T>, ls: seq<Label<T>>, s: State<T>)
    requires c.Valid() && BlockingRun(c, input, false, Init(c), ls, s)
    ensures exists ls', t: State<T> :: BlockingRun(c, input, true, s, ls', t) && Finished(input, t)
  {
    InitInv<T>(c);
    ClientRunKeeps(c, input, false, Init(c), ls, s);
    NeverStuck(c, input, s);
  }

  /** When both sides read the latest cursors they cannot both be refused: a
      stretch of any run without a success has no exact "full" beside an exact "empty". */
  lemma {:induction false} NotBothRefused<T>(c: Config, s: State<T>, ls: seq<Label<T>>, t: State<T>)
    requires Inv(c, s) && Run(c, s, ls, t)
    requires forall op :: op in Ops(c, s, ls, t) ==> !op.Enqueue? && !op.Dequeue?
    ensures Inv(c, t) && Queue(t) == Queue(s)
    ensures Full(true) in Ops(c, s, ls, t) ==> |Queue(s)| == c.Cap()
    ensures Empty(true) in Ops(c, s, ls, t) ==> Queue(s) == []
    ensures !(Full(true) in Ops(c, s, ls, t) && Empty(true) in Ops(c, s, ls, t))
    decreases |ls|
  {
    if ls == [] {
    } else {
      var s' := Next(c, s, ls[0]);
      StepIsFifo(c, s, ls[0]);
      var rest := Ops(c, s', ls[1..], t);
      assert Ops(c, s, ls, t) == [OpOf(c, s, ls[0])] + rest;
      assert forall op :: op in rest ==> op in Ops(c, s, ls, t);
      assert OpOf(c, s, ls[0]) in Ops(c, s, ls, t);
      NotBothRefused(c, s', ls[1..], t);
    }
  }

  // ---------------------------------------------------------------- waits are bounded

  predicate OfProducer<T>(l: Label<T>) { l.PStart? || l.PLoad? || l.PWrite? || l.PStore? }

  /** The steps that one of the actors takes. */
  function Steps<T>(ls: seq<Label<T>>, producer: bool): nat {
    if ls == [] then 0
    else (if OfProducer(ls[0]) == producer then 1 else 0) + Steps(ls[1..], producer)
  }

  /** A step that reads the latest store and completes nothing advances its actor by one
      phase, or is an exact refusal. */
  lemma StalledStep<T>(c: Config, input: seq<T>, s: State<T>, l: Label<T>)
    requires Client(c, input, s) && Enabled(c, s, l) && Blocking(input, s, l) && ReadsLatest(s, l)
    requires |Next(c, s, l).sent| == |s.sent| && |Next(c, s, l).received| == |s.received|
    ensures || |s.sent| - |s.received| == c.Cap()
            || Phase(Next(c, s, l).ppc) == Phase(s.ppc) + Steps([l], true)
    ensures || |s.sent| == |s.received| < |input|
            || Phase(Next(c, s, l).cpc) == Phase(s.cpc) + Steps([l], false)
  {
    assert [l][1..] == [];
    match l
    case PLoad(rf) =>
      PLoadKeeps(c, s, rf);
      LatestCount(c, s.c);
    case CLoad(rf) =>
      CLoadKeeps(c, s, rf);
      LatestCount(c, s.p);
    case _ =>
  }

  /** A stretch without a success in which an actor is called on for a whole attempt has
      found the queue full, or empty. */
  lemma {:induction false} Stalled<T>(c: Config, input: seq<T>, s: State<T>, ls: seq<Label<T>>, t: State<T>)
    requires Client(c, input, s) && BlockingRun(c, input, true, s, ls, t)
    requires |t.sent| == |s.sent| && |t.received| == |s.received|
    ensures Steps(ls, true) + Phase(s.ppc) >= 4 ==> |s.sent| - |s.received| == c.Cap()
    ensures Steps(ls, false) + Phase(s.cpc) >= 4 ==> |s.sent| == |s.received| < |input|
    decreases |ls|
  {
    if ls == [] {
    } else {
      var s' := Next(c, s, ls[0]);
      ClientKeeps(c, input, s, ls[0]);
      ClientRunKeeps(c, input, true, s', ls[1..], t);
      assert [ls[0]][1..] == [];
      StalledStep(c, input, s, ls[0]);
      Stalled(c, input, s', ls[1..], t);
    }
  }

  /** A stretch of a blocking run that reads the latest cursors, in which each actor that
      is not through at the end takes at least four steps. */
  ghost predicate Window<T>(c: Config, input: seq<T>, s: State<T>, ls: seq<Label<T>>, t: State<T>) {
    && BlockingRun(c, input, true, s, ls, t)
    && (|t.sent| == |input| || Steps(ls, true) >= 4)
    && (|t.received| == |input| || Steps(ls, false) >= 4)
  }

  /** Every such stretch completes a send or a receive, unless all are done. */
  lemma WindowSucceeds<T>(c: Config, input: seq<T>, s: State<T>, ls: seq<Label<T>>, t: State<T>)
    requires Client(c, input, s) && Window(c, input, s, ls, t)
    ensures Client(c, input, t)
    ensures |t.sent| + |t.received| > |s.sent| + |s.received| || Finished(input, t)
  {
    ClientRunKeeps(c, input, true, s, ls, t);
    if |t.sent| + |t.received| == |s.sent| + |s.received| {
      Stalled(c, input, s, ls, t);
    }
  }

  ghost predicate Windows<T(!new)>(c: Config, input: seq<T>, s: State<T>, ws: seq<seq<Label<T>>>, t: State<T>)
    decreases |ws|
  {
    if ws == [] then s == t
    else exists mid: State<T> :: Window(c, input, s, ws[0], mid) && Windows(c, input, mid, ws[1..], t)
  }

  lemma {:induction false} WindowsAddUp<T(!new)>(c: Config, input: seq<T>, s: State<T>, ws: seq<seq<Label<T>>>,
                                                 t: State<T>)
    requires Client(c, input, s) && Windows(c, input, s, ws, t)
    requires |s.sent| + |s.received| + |ws| >= 2 * |input|
    ensures Finished(input, t)
    decreases |ws|
  {
    if ws == [] {
    } else {
      var mid: State<T> :| Window(c, input, s, ws[0], mid) && Windows(c, input, mid, ws[1..], t);
      WindowSucceeds(c, input, s, ws[0], mid);
      WindowsAddUp(c, input, mid, ws[1..], t);
    }
  }

  /** Waits are bounded: any blocking run that gives both actors four steps often enough,
      however they interleave, has delivered everything after `2 * |input|` such windows. */
  lemma WaitsAreBounded<T(!new)>(c: Config, input: seq<T>, ws: seq<seq<Label<T>>>, t: State<T>)
    requires c.Valid() && Windows(c, input, Init(c), ws, t) && |ws| >= 2 * |input|
    ensures Finished(input, t)
  {
    InitInv<T>(c);
    WindowsAddUp(c, input, Init(c), ws, t);
  }
}
