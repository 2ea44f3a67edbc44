/** The ring's calls in the code's own form, each run to completion: a slot array
    and two wrapping cursors updated in place, and the draining `Drop`. */
module SpscRing {
  import opened Common
  import opened Words
  import opened SpscProtocol
  import opened SpscInvariant
  import opened SpscRefinement

  /** The exponent of a power of two, if `n` is one. */
  function Exponent(n: nat): (r: Option<nat>)
    ensures r.Some? ==> Pow2(r.value) == n
    ensures r.None? ==> forall k: nat :: Pow2(k) != n
  {
    if n == 0 then None
    else if n == 1 then assert Pow2(0) == 1; Some(0)
    else if n % 2 == 1 then
      assert forall k: nat :: Pow2(k) == 1 || Pow2(k) % 2 == 0;
      None
    else
      var half := Exponent(n / 2);
      assert half.None? ==> forall k: nat :: Pow2(k) != n by {
        if half.None? {
          forall k: nat ensures Pow2(k) != n { if k > 0 { assert Pow2(k - 1) != n / 2; } }
        }
      }
      if half.Some? then assert Pow2(half.value + 1) == n; Some(half.value + 1) else None
  }

  class Ring<T> {
    const w: nat
    const k: nat
    const mask: nat
    const slots: array<Option<T>>
    var head: nat
    var tail: nat
    ghost var sent: seq<T>
    ghost var taken: nat

    ghost predicate Valid()
      reads this, slots
    {
      && k < w && slots.Length == Pow2(k) && mask == Pow2(k) - 1
      && head == |sent| % Pow2(w) && tail == taken % Pow2(w)
      && taken <= |sent| <= taken + Pow2(k)
      && forall n :: taken <= n < |sent| ==> slots[n % Pow2(k)] == Some(sent[n])
    }

    /** The values in the ring, oldest first. */
    ghost function Contents(): seq<T>
      reads this, slots
      requires Valid()
    {
      sent[taken..]
    }

    constructor (w: nat, k: nat)
      requires k < w
      ensures Valid() && fresh(slots) && Contents() == [] && this.k == k && this.w == w
    {
      this.w, this.k, mask := w, k, Pow2(k) - 1;
      slots := new Option<T>[Pow2(k)](_ => None);
      head, tail, sent, taken := 0, 0, [], 0;
      ModUnique(0, 0, 0, Pow2(w));
    }

    /** The ring as the last handle finds it after a run of the protocol: both actors
        are between calls, and only the two cursors and the slots remain. */
    constructor AfterRun(c: Config, s: State<T>)
      requires c.Machine? && Inv(c, s) && s.ppc.Idle? && s.cpc.Idle?
      ensures Valid() && fresh(slots) && Contents() == Queue(s)
    {
      w, k, mask := c.w, c.k, c.Mask();
      slots := new Option<T>[Pow2(c.k)](i requires 0 <= i < |s.slots| => s.slots[i]);
      head, tail, sent, taken := s.p.cursor, s.c.cursor, s.sent, |s.received|;
      new;
      forall n | taken <= n < |sent| ensures slots[n % Pow2(k)] == Some(sent[n]) {
        assert SlotHolds(c, s, n);
      }
    }

    /** Sends when there is room; otherwise hands the value back and changes nothing. */
    method TrySend(value: T) returns (r: Result<(), T>)
      requires Valid()
      modifies this, slots
      ensures Valid()
      ensures Fifo(Pow2(k), true, old(Contents()), if r.Ok? then Enqueue(value) else Full(true), Contents())
      ensures r.Err? ==> r.error == value && unchanged(this) && unchanged(slots)
    {
      ghost var c := Machine(w, k);
      var head0 := head;
      var tail0 := tail;
      FullIsExact(c, |sent|, taken);
      if (head0 - tail0) % Pow2(w) > mask {
        return Err(value);
      }
      SlotIndex(c, |sent|);
      forall n | taken <= n < |sent| ensures n % Pow2(k) != |sent| % Pow2(k) {
        LiveSlotsDistinct(c, n, |sent|);
      }
      slots[BitAnd(head0, mask)] := Some(value);
      WrapSucc(|sent|, Pow2(w));
      head := (head0 + 1) % Pow2(w);
      sent := sent + [value];
      return Ok(());
    }

    /** Takes the oldest value, or reports an empty ring and changes nothing. */
    method TryRecv() returns (r: Option<T>)
      requires Valid()
      modifies this
      ensures Valid()
      ensures Fifo(Pow2(k), true, old(Contents()), if r.Some? then Dequeue(r) else Empty(true), Contents())
      ensures r.None? ==> unchanged(this)
    {
      ghost var c := Machine(w, k);
      var tail0 := tail;
      var head0 := head;
      EmptyIsExact(c, taken, |sent|);
      if tail0 == head0 {
        return None;
      }
      SlotIndex(c, taken);
      r := slots[BitAnd(tail0, mask)];
      WrapSucc(taken, Pow2(w));
      tail := (tail0 + 1) % Pow2(w);
      taken := taken + 1;
    }

    /** Drops each unread value once, oldest first, in as many rounds as there are
        unread values, wherever the cursors stand in the word. */
    method Drop() returns (dropped: seq<T>, rounds: nat)
      requires Valid()
      ensures dropped == Contents() && rounds == |Contents()|
    {
      ghost var c := Machine(w, k);
      ghost var t := taken;
      var tail0 := tail;
      dropped, rounds := [], 0;
      EmptyIsExact(c, t, |sent|);
      while tail0 != head
        invariant taken <= t <= |sent|
        invariant tail0 == t % Pow2(w)
        invariant tail0 == head <==> t == |sent|
        invariant dropped == sent[taken..t] && rounds == t - taken
        decreases |sent| - t
      {
        SlotIndex(c, t);
        assert slots[t % Pow2(k)] == Some(sent[t]);
        dropped := dropped + [slots[BitAnd(tail0, mask)].value];
        WrapSucc(t, Pow2(w));
        tail0 := (tail0 + 1) % Pow2(w);
        t, rounds := t + 1, rounds + 1;
        EmptyIsExact(c, t, |sent|);
      }
    }
  }

  /** The values of a sequence whose every element is present. */
  function Present<T>(s: seq<Option<T>>): seq<T>
    requires forall n :: 0 <= n < |s| ==> s[n].Some?
  {
    seq(|s|, n requires 0 <= n < |s| => s[n].value)
  }

  /** A whole life of a ring: any run of the protocol from the empty ring that ends between
      calls, then `Drop`.  What `try_recv` returned followed by what `Drop` dropped is what
      `try_send` accepted, each value once and in order. */
  method RunThenDrop<T>(c: Config, ghost ls: seq<Label<T>>, t: State<T>) returns (dropped: seq<T>, rounds: nat)
    requires c.Machine? && c.Valid() && Run(c, Init(c), ls, t) && t.ppc.Idle? && t.cpc.Idle?
    ensures forall n :: 0 <= n < |t.received| ==> t.received[n].Some?
    ensures Present(t.received) + dropped == t.sent
    ensures rounds == |t.sent| - |t.received| <= c.Cap()
  {
    InitInv<T>(c);
    RunKeeps(c, Init(c), ls, t);
    var ring := new Ring.AfterRun(c, t);
    dropped, rounds := ring.Drop();
    assert Present(t.received) == t.sent[..|t.received|];
  }

  /** A ring is built exactly for the capacities that are powers of two. */
  method Spsc<T>(w: nat, capacity: nat) returns (r: Option<Ring<T>>)
    requires capacity < Pow2(w)
    ensures r.Some? <==> exists k: nat :: Pow2(k) == capacity
    ensures r.Some? ==> fresh(r.value) && fresh(r.value.slots) && r.value.Valid()
                        && r.value.Contents() == [] && r.value.slots.Length == capacity
  {
    var k := Exponent(capacity);
    if k.None? { return None; }
    if k.value >= w {
      if k.value > w { Pow2Increasing(w, k.value); }
      assert false;
    }
    assert Pow2(k.value) == capacity;
    var ring := new Ring<T>(w, k.value);
    return Some(ring);
  }
}
