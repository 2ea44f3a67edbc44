/** Whole runs of the writers: all three leave the same log, and the timed run of the
    benchmark ends durable. */
module LogRuns {
  import opened Common
  import opened Utf8
  import opened MessageCodec
  import opened LogFile
  import opened LogWriters

  /** Any of the writers, on a file that was empty when it was opened. */
  datatype Writer = Std(s: StdWriter) | Uring(u: UringWriter) | Fixed(f: UringFixedWriter) {
    function File(): File {
      match this
      case Std(s) => s.file
      case Uring(u) => u.file
      case Fixed(f) => f.file
    }

    ghost function Repr(): set<object> {
      match this
      case Std(s) => {s, s.file}
      case Uring(u) => {u, u.file}
      case Fixed(f) => {f, f.file, f.buf}
    }

    /** No error so far. */
    ghost predicate Ready()
      reads Repr()
    {
      match this
      case Std(s) => s.buf == []
      case Uring(u) => u.Clean() && u.start == []
      case Fixed(f) => f.Clean() && f.start == []
    }

    /** An io_uring writer without an error so far, opened on `start`, that has written `log`. */
    ghost predicate Follows(start: seq<byte>, log: seq<byte>)
      reads Repr()
    {
      match this
      case Std(s) => false
      case Uring(u) => u.Clean() && u.start == start && u.log == log
      case Fixed(f) => f.Clean() && f.start == start && f.log == log
    }

    /** The bytes a batch becomes. */
    function Encoded(msgs: seq<Message>): seq<byte> {
      match this
      case Fixed(f) => if f.capMsgs > 0 then FixedStream(msgs, f.capMsgs) else []
      case _ => Records(msgs)
    }

    /** The registered-buffer writer needs its chunks under 4 GiB. */
    predicate Fits(msgs: seq<Message>) {
      Fixed? ==> f.capMsgs > 0 && 64 * Min(f.capMsgs, |msgs|) < LEN_WORD
    }
  }

  lemma FromEmpty(log: seq<byte>)
    ensures PWrite([], 0, log) == log
  {
  }

  lemma Committed(before: seq<byte>, after: seq<byte>, file: seq<byte>)
    requires before <= after && |after| <= |file| && file[..|after|] == after
    ensures before <= file
  {
  }

  method WriteBatch(w: Writer, msgs: seq<Message>) returns (r: Result<nat, IoError>)
    requires w.Ready()
    modifies w.Repr()
    ensures w.File().durable == old(w.File().durable) && old(w.File().bytes) <= w.File().bytes
    ensures r.Ok? <==> w.File().faults == old(w.File().faults)
    ensures r.Ok? ==> w.Ready() && r.value == |msgs| && w.File().bytes == old(w.File().bytes) + w.Encoded(msgs)
  {
    assert msgs[..|msgs|] == msgs;
    match w
    case Std(s) =>
      assert s.Stream() == s.file.bytes;
      var res, _ := s.WriteBatch(msgs);
      assert res.Ok? ==> s.Stream() == s.file.bytes;
      r := res;
    case Uring(u) =>
      FromEmpty(u.log);
      ghost var log := u.log;
      var res, _ := u.WriteBatch(msgs);
      FromEmpty(u.log);
      Committed(log, u.log, u.file.bytes);
      r := res;
    case Fixed(f) =>
      FromEmpty(f.log);
      ghost var log := f.log;
      var res, _ := f.WriteBatch(msgs);
      FromEmpty(f.log);
      Committed(log, f.log, f.file.bytes);
      r := res;
  }

  method Sync(w: Writer) returns (ok: bool)
    requires w.Ready()
    modifies w.File()`durable, w.File()`faults
    ensures ok <==> w.File().faults == old(w.File().faults)
    ensures w.Ready() && w.File().bytes == old(w.File().bytes)
    ensures w.File().durable == if ok then |w.File().bytes| else old(w.File().durable)
  {
    match w
    case Std(s) => ok := s.Sync();
    case Uring(u) => ok := u.Sync();
    case Fixed(f) => ok := f.Sync();
  }

  // ---------------------------------------------------------------- equivalence

  function Join(batches: seq<seq<Message>>): seq<Message> {
    if batches == [] then [] else Join(batches[..|batches| - 1]) + batches[|batches| - 1]
  }

  /** Writes a sequence of batches, stopping at the first error.  Success leaves every
      writer's file with the same bytes: the records of all messages in order. */
  method WriteAll(w: Writer, batches: seq<seq<Message>>) returns (ok: bool)
    requires w.Ready() && forall i :: 0 <= i < |batches| ==> w.Fits(batches[i])
    modifies w.Repr()
    ensures ok <==> w.File().faults == old(w.File().faults)
    ensures ok ==> w.Ready() && w.File().bytes == old(w.File().bytes) + Records(Join(batches))
  {
    var i := 0;
    while i < |batches|
      invariant 0 <= i <= |batches| && w.Ready() && w.File().faults == old(w.File().faults)
      invariant w.File().bytes == old(w.File().bytes) + Records(Join(batches[..i]))
    {
      BatchStep(w, batches, i);
      Assoc(old(w.File().bytes), Records(Join(batches[..i])), Records(batches[i]));
      var r := WriteBatch(w, batches[i]);
      if r.Err? { return false; }
      i := i + 1;
    }
    assert batches[..i] == batches;
    return true;
  }

  lemma BatchStep(w: Writer, batches: seq<seq<Message>>, i: nat)
    requires i < |batches| && w.Fits(batches[i])
    ensures w.Encoded(batches[i]) == Records(batches[i])
    ensures Records(Join(batches[..i + 1])) == Records(Join(batches[..i])) + Records(batches[i])
  {
    if w.Fixed? { FixedStreamExact(batches[i], w.f.capMsgs); }
    assert batches[..i + 1][..i] == batches[..i];
    RecordsConcat(Join(batches[..i]), batches[i]);
  }

  /** One batch of an io_uring writer on any file: it lands at the writer's own offset. */
  method UringBatch(w: Writer, msgs: seq<Message>, ghost start: seq<byte>, ghost log: seq<byte>) returns (ok: bool)
    requires w.Fits(msgs) && w.Follows(start, log)
    modifies w.Repr()
    ensures ok <==> w.File().faults == old(w.File().faults)
    ensures ok ==> w.Follows(start, log + Records(msgs))
  {
    assert msgs[..|msgs|] == msgs;
    match w
    case Uring(u) =>
      var res, _ := u.WriteBatch(msgs);
      ok := res.Ok?;
    case Fixed(f) =>
      FixedStreamExact(msgs, f.capMsgs);
      var res, _ := f.WriteBatch(msgs);
      ok := res.Ok?;
  }

  /** A newly opened io_uring writer starts at offset 0 without truncating: on a file that
      already has content, a successful run leaves the records over its first bytes, which
      is an append exactly when the file was empty or nothing is written. */
  method RunOnExisting(w: Writer, batches: seq<seq<Message>>) returns (ok: bool)
    requires w.Follows(w.File().bytes, []) && forall i :: 0 <= i < |batches| ==> w.Fits(batches[i])
    modifies w.Repr()
    ensures ok <==> w.File().faults == old(w.File().faults)
    ensures ok ==> w.File().bytes == PWrite(old(w.File().bytes), 0, Records(Join(batches)))
    ensures ok ==> (w.File().bytes == old(w.File().bytes) + Records(Join(batches))
                    <==> old(w.File().bytes) == [] || Join(batches) == [])
  {
    ghost var start := w.File().bytes;
    var i := 0;
    while i < |batches|
      invariant 0 <= i <= |batches| && w.Follows(start, Records(Join(batches[..i])))
      invariant w.File().faults == old(w.File().faults)
    {
      BatchStep(w, batches, i);
      ok := UringBatch(w, batches[i], start, Records(Join(batches[..i])));
      if !ok { return; }
      i := i + 1;
    }
    assert batches[..i] == batches;
    OverwriteIsAppend(start, Records(Join(batches)));
    ok := true;
  }

  // ---------------------------------------------------------------- timed run

  function BenchTopic(): seq<byte> {
    [112, 101, 114, 115, 105, 115, 116, 46, 98, 101, 110, 99, 104]
  }

  function BenchBatch(n: nat): (b: seq<Message>)
    ensures |b| == n
  {
    seq(n, i requires 0 <= i < n => New(BenchTopic(), LeBytes(i, 8)))
  }

  /** The messages of a batch are numbered in their payloads. */
  lemma BenchBatchAt(n: nat, i: nat)
    requires i < n && i < 0x1_0000_0000_0000_0000
    ensures BenchBatch(n)[i].topic[..13] == BenchTopic() && LeValue(BenchBatch(n)[i].payload[..8]) == i
  {
    Pow256Eight();
    LeRoundTrip(i, 8);
    assert BenchBatch(n)[i].payload[..8] == LeBytes(i, 8);
  }

  function Times(n: nat, b: nat): nat { if n == 0 then 0 else Times(n - 1, b) + b }

  lemma {:induction false} TimesIsProduct(n: nat, b: nat)
    ensures Times(n, b) == n * b
  {
    if n == 0 {
    } else {
      TimesIsProduct(n - 1, b);
      assert n * b == (n - 1) * b + b;
    }
  }

  lemma {:induction false} TimesScales(n: nat, b: nat)
    ensures Times(n, 64 * b) == 64 * Times(n, b)
  {
    if n == 0 {
    } else {
      TimesScales(n - 1, b);
    }
  }

  function Rounds(b: seq<byte>, n: nat): (r: seq<byte>)
    ensures |r| == Times(n, |b|)
  {
    if n == 0 then [] else Rounds(b, n - 1) + b
  }

  /** The least multiple of `batch` that reaches `count`. */
  predicate LeastMultiple(total: nat, batch: nat, count: nat) {
    WholeChunks(total, batch) && total >= count && (total > 0 ==> total < count + batch)
  }

  /** One iteration of the timed loop.  A failure makes nothing durable and loses nothing. */
  method OneRound(w: Writer, msgs: seq<Message>, perBatch: bool) returns (ok: bool, n: nat)
    requires w.Ready()
    modifies w.Repr()
    ensures old(w.File().bytes) <= w.File().bytes
    ensures ok <==> w.File().faults == old(w.File().faults)
    ensures ok ==> w.Ready() && n == |msgs| && w.File().bytes == old(w.File().bytes) + w.Encoded(msgs)
    ensures w.File().durable == if ok && perBatch then |w.File().bytes| else old(w.File().durable)
  {
    ok, n := false, 0;
    var r := WriteBatch(w, msgs);
    if r.Err? { return; }
    if perBatch {
      var synced := Sync(w);
      if !synced { return; }
    }
    ok, n := true, r.value;
  }

  /** The state of the timed run after `rounds` batches. */
  ghost predicate Written(w: Writer, start: seq<byte>, msgs: seq<Message>, total: nat, rounds: nat)
    reads w.File()
  {
    && total == Times(rounds, |msgs|) && WholeChunks(total, |msgs|)
    && w.File().bytes == start + Rounds(w.Encoded(msgs), rounds)
  }

  /** The completed rounds are in the file, whatever has followed, and when each was synced
      they are what is durable. */
  ghost predicate Kept(w: Writer, start: seq<byte>, durable0: nat, msgs: seq<Message>, perBatch: bool, rounds: nat)
    reads w.File()
  {
    && start + Rounds(w.Encoded(msgs), rounds) <= w.File().bytes
    && w.File().durable ==
         if perBatch && rounds > 0 then |start| + |Rounds(w.Encoded(msgs), rounds)| else durable0
  }

  lemma RoundWritten(start: seq<byte>, e: seq<byte>, before: seq<byte>, after: seq<byte>, n: nat)
    requires before == start + Rounds(e, n) && after == before + e
    ensures after == start + Rounds(e, n + 1) && |after| == |start| + |Rounds(e, n + 1)|
  {
  }

  method TimedLoop(w: Writer, msgs: seq<Message>, perBatch: bool, count: nat)
    returns (ok: bool, total: nat, rounds: nat)
    requires w.Ready() && (msgs != [] || count == 0)
    modifies w.Repr()
    ensures Kept(w, old(w.File().bytes), old(w.File().durable), msgs, perBatch, rounds)
    ensures ok <==> w.File().faults == old(w.File().faults)
    ensures ok ==> w.Ready() && Written(w, old(w.File().bytes), msgs, total, rounds)
    ensures ok ==> LeastMultiple(total, |msgs|, count)
  {
    ghost var start, durable0 := w.File().bytes, w.File().durable;
    total, rounds, ok := 0, 0, true;
    while total < count
      invariant ok && w.File().faults == old(w.File().faults)
      invariant w.Ready() && Written(w, start, msgs, total, rounds)
      invariant Kept(w, start, durable0, msgs, perBatch, rounds)
      invariant total > 0 ==> total < count + |msgs|
    {
      ghost var before := w.File().bytes;
      var n: nat;
      ok, n := OneRound(w, msgs, perBatch);
      if !ok { return; }
      RoundWritten(start, w.Encoded(msgs), before, w.File().bytes, rounds);
      total := total + n;
      rounds := rounds + 1;
    }
  }

  /** Writes batches until `count` messages are in, syncing after each when asked, and once
      at the end.  A failing call panics, and even then the completed rounds are in the file
      and, with per-batch syncs, exactly they are durable.  Otherwise the total is the least
      multiple of the batch size that reaches the count, and everything written is durable. */
  method TimeWriter(w: Writer, batch: nat, perBatch: bool, count: nat)
    returns (panicked: bool, total: nat, rounds: nat)
    requires w.Ready() && (batch > 0 || count == 0)
    modifies w.Repr()
    ensures panicked <==> w.File().faults != old(w.File().faults)
    ensures old(w.File().bytes) + Rounds(w.Encoded(BenchBatch(batch)), rounds) <= w.File().bytes
    ensures perBatch && rounds > 0 ==>
      w.File().durable == |old(w.File().bytes)| + |Rounds(w.Encoded(BenchBatch(batch)), rounds)|
    ensures panicked && !(perBatch && rounds > 0) ==> w.File().durable == old(w.File().durable)
    ensures !panicked ==>
      && LeastMultiple(total, batch, count) && total == rounds * batch
      && w.File().bytes == old(w.File().bytes) + Rounds(w.Encoded(BenchBatch(batch)), rounds)
      && w.File().durable == |w.File().bytes|
      && (w.Fits(BenchBatch(batch)) ==> |w.File().bytes| == |old(w.File().bytes)| + 64 * total)
  {
    var msgs := BenchBatch(batch);
    panicked := true;
    var ok;
    ok, total, rounds := TimedLoop(w, msgs, perBatch, count);
    if !ok { return; }
    ok := Sync(w);
    if !ok { return; }
    RoundsLength(w, msgs, rounds, total);
    panicked := false;
  }

  lemma RoundsLength(w: Writer, msgs: seq<Message>, rounds: nat, total: nat)
    requires total == Times(rounds, |msgs|)
    ensures total == rounds * |msgs|
    ensures w.Fits(msgs) ==> |Rounds(w.Encoded(msgs), rounds)| == 64 * total
  {
    TimesIsProduct(rounds, |msgs|);
    if w.Fits(msgs) {
      if w.Fixed? { FixedStreamExact(msgs, w.f.capMsgs); }
      TimesScales(rounds, |msgs|);
    }
  }
}
