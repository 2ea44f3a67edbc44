/** The three log writers in the code's own form.  The kernel is a contract: a
    submitted group of positioned writes completes in any order; a non-negative
    completion means the whole length was written; a failed one may have written
    any first part of its own range. */
module LogWriters {
  import opened Common
  import opened Utf8
  import opened MessageCodec
  import opened LogFile

  datatype IoError = IoError

  datatype Op = Op(off: nat, data: seq<byte>, userData: nat)

  /** An open file; the first `durable` bytes are known to be on disk.  `faults` counts the
      failures that the kernel has reported, and `calls` the writes and submissions made. */
  class File {
    var bytes: seq<byte>
    var durable: nat
    ghost var faults: nat
    ghost var calls: nat

    constructor ()
      ensures bytes == [] && durable == 0
    {
      bytes, durable, faults, calls := [], 0, 0, 0;
    }

    /** `sync_data`: on success everything written so far is durable. */
    method Sync() returns (ok: bool)
      modifies `durable, `faults
      ensures durable == if ok then |bytes| else old(durable)
      ensures faults == old(faults) + (if ok then 0 else 1)
    {
      ok := *;
      if ok { durable := |bytes|; } else { faults := faults + 1; }
    }

    /** `write_all` in append mode; on failure a first part may have been written. */
    method Append(d: seq<byte>) returns (ok: bool, n: nat)
      modifies `bytes, `faults, `calls
      ensures n <= |d| && bytes == old(bytes) + d[..n] && (ok ==> n == |d|)
      ensures faults == old(faults) + (if ok then 0 else 1) && calls == old(calls) + 1
    {
      ok := *;
      n :| 0 <= n <= |d| && (ok ==> n == |d|);
      bytes, calls := bytes + d[..n], calls + 1;
      if !ok { faults := faults + 1; }
    }

    /** One positioned write of a submitted group; on failure a first part may have been written. */
    method WriteAt(off: nat, d: seq<byte>) returns (res: int, part: nat)
      modifies `bytes, `faults
      ensures part <= |d| && bytes == PWrite(old(bytes), off, d[..part]) && (res >= 0 ==> part == |d|)
      ensures faults == old(faults) + (if res < 0 then 1 else 0)
    {
      res := *;
      part :| 0 <= part <= |d| && (res >= 0 ==> part == |d|);
      bytes := PWrite(bytes, off, d[..part]);
      if res < 0 { faults := faults + 1; }
    }

    /** `submit_and_wait`: it may fail whatever the kernel has done of the group. */
    method Submit() returns (ok: bool)
      modifies `faults, `calls
      ensures faults == old(faults) + (if ok then 0 else 1) && calls == old(calls) + 1
    {
      ok, calls := *, calls + 1;
      if !ok { faults := faults + 1; }
    }
  }

  function Payloads(ops: seq<Op>): seq<seq<byte>> {
    seq(|ops|, i requires 0 <= i < |ops| => ops[i].data)
  }

  /** Consecutive 64-byte writes from `base`. */
  ghost predicate Consecutive(ops: seq<Op>, base: nat) {
    forall i :: 0 <= i < |ops| ==> ops[i].off == base + 64 * i && |ops[i].data| == 64
  }

  function Range(n: nat): (r: set<nat>)
    ensures |r| == n && forall i: nat :: i in r <==> i < n
  {
    if n == 0 then {} else Range(n - 1) + {n - 1}
  }

  ghost predicate NoErrors(cqes: seq<int>) { forall k :: 0 <= k < |cqes| ==> cqes[k] >= 0 }

  lemma NoErrorsAppend(cqes: seq<int>, res: int)
    ensures NoErrors(cqes + [res]) <==> NoErrors(cqes) && res >= 0
  {
    var all := cqes + [res];
    assert all[|cqes|] == res && forall k :: 0 <= k < |cqes| ==> all[k] == cqes[k];
  }

  /** One completion of a submitted group. */
  method CompleteOne(file: File, ops: seq<Op>, j: nat, ghost base: nat, ghost f: seq<byte>, ghost landed: set<nat>)
    returns (res: int, ghost landed': set<nat>)
    requires j < |ops| && Consecutive(ops, base) && base <= |f| && j !in landed
    requires Landed(f, file.bytes, base, Payloads(ops), landed)
    modifies file`bytes, file`faults
    ensures Landed(f, file.bytes, base, Payloads(ops), landed')
    ensures file.faults == old(file.faults) + (if res < 0 then 1 else 0)
    ensures landed <= landed' <= landed + {j} && (res >= 0 ==> j in landed')
  {
    ghost var g := file.bytes;
    var part: nat;
    res, part := file.WriteAt(ops[j].off, ops[j].data);
    LandedStep(f, g, base, Payloads(ops), landed, j, part);
    landed' := if part == 64 then landed + {j} else landed;
  }

  /** The kernel completes a submitted group, in an order of its choosing. */
  method Complete(file: File, ops: seq<Op>, ghost base: nat) returns (cqes: seq<int>, ghost landed: set<nat>)
    requires Consecutive(ops, base) && base <= |file.bytes|
    modifies file`bytes, file`faults
    ensures |cqes| == |ops| && old(file.faults) <= file.faults
    ensures NoErrors(cqes) <==> file.faults == old(file.faults)
    ensures Landed(old(file.bytes), file.bytes, base, Payloads(ops), landed)
    ensures NoErrors(cqes) ==> Range(|ops|) <= landed
  {
    var pending := Range(|ops|);
    ghost var f := file.bytes;
    cqes, landed := [], {};
    while pending != {}
      invariant pending <= Range(|ops|) && |cqes| + |pending| == |ops|
      invariant Landed(f, file.bytes, base, Payloads(ops), landed) && pending !! landed
      invariant NoErrors(cqes) ==> Range(|ops|) <= pending + landed
      invariant old(file.faults) <= file.faults
      invariant NoErrors(cqes) <==> file.faults == old(file.faults)
      decreases pending
    {
      var j :| j in pending;
      ghost var before := cqes;
      var res, landed' := CompleteOne(file, ops, j, base, f, landed);
      cqes := cqes + [res];
      NoErrorsAppend(before, res);
      pending, landed := pending - {j}, landed';
    }
  }

  /** Draining the completion queue stops at the first error. */
  method Reap(cqes: seq<int>) returns (ok: bool)
    ensures ok <==> NoErrors(cqes)
  {
    for k := 0 to |cqes|
      invariant forall q :: 0 <= q < k ==> cqes[q] >= 0
    {
      if cqes[k] < 0 { return false; }
    }
    return true;
  }

  // ---------------------------------------------------------------- io_uring, one write per record

  /** `done` is a whole number of chunks. */
  predicate WholeChunks(done: nat, size: nat) {
    done == 0 || (0 < size <= done && WholeChunks(done - size, size))
  }

  /** The number of chunks of size `size` that cover `n`. */
  function Chunks(n: nat, size: nat): nat
    requires size > 0
  {
    if n == 0 then 0 else 1 + Chunks(n - Min(size, n), size)
  }

  /** A further chunk after whole chunks is one more. */
  lemma {:induction false} ChunksStep(k: nat, n: nat, size: nat)
    requires WholeChunks(k, size) && 1 <= n <= size
    ensures Chunks(k + n, size) == Chunks(k, size) + 1
  {
    if k == 0 {
      assert Chunks(n - Min(size, n), size) == 0;
    } else {
      ChunksStep(k - size, n, size);
    }
  }

  /** The number of chunks is the quotient rounded up. */
  lemma {:induction false} ChunksIsCeiling(n: nat, size: nat)
    requires size > 0
    ensures (Chunks(n, size) - 1) * size < n <= Chunks(n, size) * size || n == Chunks(n, size) == 0
  {
    if n == 0 {
    } else {
      var q := Chunks(n - Min(size, n), size);
      ChunksIsCeiling(n - Min(size, n), size);
      assert (q + 1) * size == q * size + size && (q - 1) * size == q * size - size;
    }
  }

  lemma RecordsUpTo(msgs: seq<Message>, k: nat, n: nat)
    requires k + n <= |msgs|
    ensures Records(msgs[..k + n]) == Records(msgs[..k]) + Records(msgs[k..k + n])
  {
    RecordsConcat(msgs[..k], msgs[k..k + n]);
    assert msgs[..k] + msgs[k..k + n] == msgs[..k + n];
  }

  /** Writing at the committed length extends the committed prefix. */
  lemma AppendCommits(start: seq<byte>, f: seq<byte>, log: seq<byte>, more: seq<byte>)
    requires f == PWrite(start, 0, log)
    ensures var g := PWrite(f, |log|, more);
            && g == PWrite(start, 0, log + more)
            && |log + more| <= |g| && g[..|log + more|] == log + more
  {
  }

  class UringWriter {
    const file: File
    const depth: nat
    const entries: nat // submission queue slots, at least the requested depth
    var offset: nat
    var sq: seq<Op>
    ghost const start: seq<byte>
    ghost var log: seq<byte>

    /** The bytes below `offset` are exactly the committed records. */
    ghost predicate Valid()
      reads this, file
    {
      && 1 <= depth <= entries
      && offset == |log| <= |file.bytes| && file.bytes[..offset] == log
    }

    /** No error so far: nothing is in flight and nothing else has been written. */
    ghost predicate Clean()
      reads this, file
    {
      Valid() && sq == [] && file.bytes == PWrite(start, 0, log)
    }

    constructor (file: File, depth: nat, entries: nat)
      requires 1 <= depth <= entries
      ensures Clean() && log == [] && this.file == file && start == file.bytes && this.depth == depth
    {
      this.file, this.depth, this.entries := file, depth, entries;
      offset, sq := 0, [];
      start, log := file.bytes, [];
    }

    method Push(op: Op)
      requires |sq| < entries // a full queue would panic
      modifies `sq
      ensures sq == old(sq) + [op]
    {
      sq := sq + [op];
    }

    method Queue(chunk: seq<Message>)
      requires sq == [] && |chunk| <= entries
      modifies `sq
      ensures |sq| == |chunk| && Consecutive(sq, offset)
      ensures forall k :: 0 <= k < |chunk| ==> sq[k].data == ToBytes(chunk[k])
    {
      for i := 0 to |chunk|
        invariant |sq| == i && Consecutive(sq, offset)
        invariant forall k :: 0 <= k < i ==> sq[k].data == ToBytes(chunk[k])
      {
        Push(Op(offset + i * 64, ToBytes(chunk[i]), i));
      }
    }

    /** One chunk: queue a write per record, submit, reap every completion. */
    method WriteChunk(chunk: seq<Message>) returns (ok: bool)
      requires Clean() && |chunk| <= depth
      modifies `offset, `sq, `log, file`bytes, file`faults, file`calls
      ensures Valid() && file.calls == old(file.calls) + 1
      ensures ok <==> file.faults == old(file.faults)
      ensures ok ==> Clean() && log == old(log) + Records(chunk)
      ensures !ok ==> log == old(log) && offset == old(offset)
    {
      ghost var f := file.bytes;
      Queue(chunk);
      var ops := sq;
      var cqes, landed := Complete(file, ops, offset);
      assert file.bytes[..offset] == log;
      var submitted := file.Submit();
      if !submitted { return false; }
      sq := [];
      ok := Reap(cqes);
      if !ok { return; }
      PayloadsAreRecords(ops, chunk);
      AllLanded(f, file.bytes, offset, Payloads(ops), landed);
      AppendCommits(start, f, log, Records(chunk));
      log := log + Records(chunk);
      offset := offset + |chunk| * 64;
    }

    /** The chunk after the first `done` messages. */
    method WriteNext(msgs: seq<Message>, done: nat, ghost base: seq<byte>) returns (ok: bool, n: nat)
      requires Clean() && done < |msgs| && WholeChunks(done, depth) && log == base + Records(msgs[..done])
      modifies `offset, `sq, `log, file`bytes, file`faults, file`calls
      ensures Valid() && 1 <= n && done + n <= |msgs| && (WholeChunks(done + n, depth) || done + n == |msgs|)
      ensures ok <==> file.faults == old(file.faults)
      ensures ok ==> Clean() && log == base + Records(msgs[..done + n])
      ensures !ok ==> log == old(log)
      ensures file.calls - Chunks(done + n, depth) == old(file.calls) - Chunks(done, depth)
    {
      n := Min(depth, |msgs| - done);
      var chunk := msgs[done..done + n];
      RecordsUpTo(msgs, done, n);
      Assoc(base, Records(msgs[..done]), Records(chunk));
      ok := WriteChunk(chunk);
      ChunksStep(done, n, depth);
    }

    /** Appends the batch at `offset`, in one submission for every chunk.  It fails exactly when
        the kernel reports a failure; then the chunks before the failing one are committed, and
        nothing below their end has been touched. */
    method WriteBatch(msgs: seq<Message>) returns (r: Result<nat, IoError>, ghost done: nat)
      requires Clean()
      modifies `offset, `sq, `log, file`bytes, file`faults, file`calls
      ensures Valid() && done <= |msgs| && log == old(log) + Records(msgs[..done])
      ensures r.Ok? <==> file.faults == old(file.faults)
      ensures r.Ok? ==> Clean() && r.value == |msgs| == done
      ensures r.Ok? ==> file.calls == old(file.calls) + Chunks(|msgs|, depth)
      ensures r.Err? ==> WholeChunks(done, depth)
    {
      ghost var base := log;
      var written := 0;
      done := 0;
      assert base + Records(msgs[..done]) == base;
      while written < |msgs|
        invariant written == done <= |msgs| && Clean() && log == base + Records(msgs[..done])
        invariant WholeChunks(done, depth) || done == |msgs|
        invariant file.faults == old(file.faults) && file.calls == old(file.calls) + Chunks(done, depth)
      {
        var ok, n := WriteNext(msgs, written, base);
        if !ok { return Err(IoError), done; }
        written := written + n;
        done := written;
      }
      return Ok(written), done;
    }

    method Sync() returns (ok: bool)
      modifies file`durable, file`faults
      ensures file.durable == if ok then |file.bytes| else old(file.durable)
      ensures ok <==> file.faults == old(file.faults)
    {
      ok := file.Sync();
    }
  }

  lemma {:induction false} PayloadsAreRecords(ops: seq<Op>, chunk: seq<Message>)
    requires |ops| == |chunk| && forall k :: 0 <= k < |ops| ==> ops[k].data == ToBytes(chunk[k])
    ensures forall i :: 0 <= i < |ops| ==> |Payloads(ops)[i]| == 64
    ensures Flatten(Payloads(ops)) == Records(chunk)
  {
    if ops == [] {
    } else {
      PayloadsAreRecords(ops[1..], chunk[1..]);
      assert Payloads(ops)[1..] == Payloads(ops[1..]);
    }
  }

  // ---------------------------------------------------------------- io_uring, one registered buffer

  const LEN_WORD: nat := 0x1_0000_0000

  /** The records of a chunk as far as their length survives the cast to 32 bits. */
  function Cut(chunk: seq<Message>): seq<byte> { Records(chunk)[..64 * |chunk| % LEN_WORD] }

  /** What the writer hands to the kernel for a batch: chunk by chunk. */
  function FixedStream(msgs: seq<Message>, cap: nat): seq<byte>
    requires cap > 0
    decreases |msgs|
  {
    if msgs == [] then []
    else
      var n := Min(cap, |msgs|);
      Cut(msgs[..n]) + FixedStream(msgs[n..], cap)
  }

  class UringFixedWriter {
    const file: File
    const capMsgs: nat
    const buf: array<byte>
    var offset: nat
    ghost const start: seq<byte>
    ghost var log: seq<byte>

    ghost predicate Valid()
      reads this, file
    {
      && capMsgs > 0 && buf.Length == capMsgs * 64
      && offset == |log| <= |file.bytes| && file.bytes[..offset] == log
    }

    ghost predicate Clean()
      reads this, file
    {
      Valid() && file.bytes == PWrite(start, 0, log)
    }

    constructor (file: File, capMsgs: nat)
      requires capMsgs > 0
      ensures Clean() && fresh(buf) && log == [] && this.file == file && start == file.bytes && this.capMsgs == capMsgs
    {
      this.file, this.capMsgs := file, capMsgs;
      buf := new byte[capMsgs * 64](_ => 0);
      offset := 0;
      start, log := file.bytes, [];
    }

    /** Packs a chunk into the front of the registered buffer; what an earlier, longer
        chunk left behind it stays there. */
    method Pack(chunk: seq<Message>)
      requires |chunk| * 64 <= buf.Length
      modifies buf
      ensures buf[..64 * |chunk|] == Records(chunk)
      ensures buf[64 * |chunk|..] == old(buf[64 * |chunk|..])
    {
      var i := 0;
      assert chunk[..0] == [];
      while i < |chunk|
        invariant 0 <= i <= |chunk|
        invariant buf[..64 * i] == Records(chunk[..i])
        invariant buf[64 * |chunk|..] == old(buf[64 * |chunk|..])
      {
        var rec := ToBytes(chunk[i]);
        ghost var before := buf[..64 * i];
        forall p | 0 <= p < 64 { buf[64 * i + p] := rec[p]; }
        assert buf[..64 * i] == before;
        assert buf[64 * i..64 * (i + 1)] == rec;
        assert buf[..64 * (i + 1)] == buf[..64 * i] + buf[64 * i..64 * (i + 1)];
        RecordsConcat(chunk[..i], [chunk[i]]);
        assert chunk[..i] + [chunk[i]] == chunk[..i + 1];
        assert Records([chunk[i]]) == rec;
        i := i + 1;
      }
      assert chunk[..i] == chunk;
    }

    method WriteChunk(chunk: seq<Message>) returns (ok: bool)
      requires Clean() && 1 <= |chunk| <= capMsgs
      modifies `offset, `log, file`bytes, file`faults, file`calls, buf
      ensures Valid() && file.calls == old(file.calls) + 1
      ensures ok <==> file.faults == old(file.faults)
      ensures ok ==> Clean() && log == old(log) + Cut(chunk)
      ensures !ok ==> log == old(log)
    {
      Pack(chunk);
      var len := 64 * |chunk| % LEN_WORD;
      ghost var f := file.bytes;
      var data := buf[..len];
      assert data == Records(chunk)[..len] by { assert data == buf[..64 * |chunk|][..len]; }
      var res, part := file.WriteAt(offset, data);
      PWriteFacts(f, offset, data[..part]);
      assert file.bytes[..offset] == log;
      var submitted := file.Submit();
      if !submitted || res < 0 { return false; }
      assert data[..part] == data;
      AppendCommits(start, f, log, data);
      log := log + data;
      offset := offset + len;
      return true;
    }

    /** The chunk after the first `done` messages. */
    method WriteNext(msgs: seq<Message>, done: nat, ghost base: seq<byte>) returns (ok: bool, n: nat)
      requires Clean() && done < |msgs| && WholeChunks(done, capMsgs) && log == base + FixedStream(msgs[..done], capMsgs)
      modifies `offset, `log, file`bytes, file`faults, file`calls, buf
      ensures Valid() && 1 <= n && done + n <= |msgs| && (WholeChunks(done + n, capMsgs) || done + n == |msgs|)
      ensures ok <==> file.faults == old(file.faults)
      ensures ok ==> Clean() && log == base + FixedStream(msgs[..done + n], capMsgs)
      ensures !ok ==> log == old(log)
      ensures file.calls - Chunks(done + n, capMsgs) == old(file.calls) - Chunks(done, capMsgs)
    {
      n := Min(capMsgs, |msgs| - done);
      var chunk := msgs[done..done + n];
      FixedStreamUpTo(msgs, done, n, capMsgs);
      Assoc(base, FixedStream(msgs[..done], capMsgs), Cut(chunk));
      ok := WriteChunk(chunk);
      ChunksStep(done, n, capMsgs);
    }

    /** Appends the batch at `offset`, in one submission for every chunk. */
    method WriteBatch(msgs: seq<Message>) returns (r: Result<nat, IoError>, ghost done: nat)
      requires Clean()
      modifies `offset, `log, file`bytes, file`faults, file`calls, buf
      ensures Valid() && done <= |msgs| && log == old(log) + FixedStream(msgs[..done], capMsgs)
      ensures r.Ok? <==> file.faults == old(file.faults)
      ensures r.Ok? ==> Clean() && r.value == |msgs| == done
      ensures r.Ok? ==> file.calls == old(file.calls) + Chunks(|msgs|, capMsgs)
      ensures r.Err? ==> WholeChunks(done, capMsgs)
    {
      ghost var base := log;
      var written := 0;
      done := 0;
      assert base + FixedStream(msgs[..done], capMsgs) == base;
      while written < |msgs|
        invariant written == done <= |msgs| && Clean() && log == base + FixedStream(msgs[..done], capMsgs)
        invariant WholeChunks(done, capMsgs) || done == |msgs|
        invariant file.faults == old(file.faults) && file.calls == old(file.calls) + Chunks(done, capMsgs)
      {
        var ok, n := WriteNext(msgs, written, base);
        if !ok { return Err(IoError), done; }
        written := written + n;
        done := written;
      }
      return Ok(written), done;
    }

    method Sync() returns (ok: bool)
      modifies file`durable, file`faults
      ensures file.durable == if ok then |file.bytes| else old(file.durable)
      ensures ok <==> file.faults == old(file.faults)
    {
      ok := file.Sync();
    }
  }

  /** A further chunk after whole chunks extends the stream. */
  lemma {:induction false} FixedStreamStep(a: seq<Message>, chunk: seq<Message>, cap: nat)
    requires cap > 0 && WholeChunks(|a|, cap) && 1 <= |chunk| <= cap
    ensures FixedStream(a + chunk, cap) == FixedStream(a, cap) + Cut(chunk)
    decreases |a|
  {
    if a == [] {
      assert a + chunk == chunk && chunk[..|chunk|] == chunk && chunk[|chunk|..] == [];
    } else {
      assert (a + chunk)[..cap] == a[..cap] && (a + chunk)[cap..] == a[cap..] + chunk;
      FixedStreamStep(a[cap..], chunk, cap);
    }
  }

  lemma FixedStreamUpTo(msgs: seq<Message>, k: nat, n: nat, cap: nat)
    requires k + n <= |msgs| && 1 <= n <= cap && WholeChunks(k, cap)
    ensures FixedStream(msgs[..k + n], cap)
              == FixedStream(msgs[..k], cap) + Cut(msgs[k..k + n])
  {
    var whole, chunk := msgs[..k], msgs[k..k + n];
    assert msgs[..k + n] == whole + chunk;
    FixedStreamStep(whole, chunk, cap);
  }

  lemma {:induction false} FixedStreamLength(msgs: seq<Message>, cap: nat)
    requires cap > 0
    ensures |FixedStream(msgs, cap)| <= 64 * |msgs|
    decreases |msgs|
  {
    if msgs == [] {
    } else {
      FixedStreamLength(msgs[Min(cap, |msgs|)..], cap);
    }
  }

  lemma CastLength(n: nat)
    ensures if n < LEN_WORD then n % LEN_WORD == n else n % LEN_WORD < n
  {
  }

  lemma CutIsWhole(chunk: seq<Message>)
    ensures 64 * |chunk| < LEN_WORD ==> Cut(chunk) == Records(chunk)
    ensures 64 * |chunk| >= LEN_WORD ==> |Cut(chunk)| < 64 * |chunk|
  {
    var r := Records(chunk);
    CastLength(|r|);
    assert r[..|r|] == r;
  }

  /** The registered-buffer writer hands over all of a batch exactly when its largest chunk
      is under 4 GiB: a longer one is cut by the cast of its length to 32 bits.  What is
      handed over is in the file because the kernel makes no short write. */
  lemma {:induction false} FixedStreamExact(msgs: seq<Message>, cap: nat)
    requires cap > 0
    ensures FixedStream(msgs, cap) == Records(msgs) <==> 64 * Min(cap, |msgs|) < LEN_WORD
    decreases |msgs|
  {
    if msgs == [] {
    } else {
      var n := Min(cap, |msgs|);
      var rest := msgs[n..];
      assert msgs == msgs[..n] + rest;
      RecordsConcat(msgs[..n], rest);
      CutIsWhole(msgs[..n]);
      if 64 * n < LEN_WORD {
        FixedStreamExact(rest, cap);
      } else {
        FixedStreamLength(rest, cap);
        assert |FixedStream(msgs, cap)| < 64 * |msgs|;
      }
    }
  }

  // ---------------------------------------------------------------- buffered writer

  const STD_BUF_CAP: nat := 524288
  const STD_BUF_RECORDS: nat := 8192

  /** After `i` records, `spills` full buffers have been written and `held` bytes are held. */
  ghost predicate Spilled(i: nat, spills: nat, held: nat) {
    && held == 64 * (i - STD_BUF_RECORDS * spills)
    && (if i == 0 then spills == 0 else 0 < held <= STD_BUF_CAP)
  }

  lemma RecordsOneMore(base: seq<byte>, msgs: seq<Message>, i: nat)
    requires i < |msgs|
    ensures base + Records(msgs[..i]) + ToBytes(msgs[i]) == base + Records(msgs[..i + 1])
  {
    RecordsConcat(msgs[..i], [msgs[i]]);
    assert msgs[..i] + [msgs[i]] == msgs[..i + 1] && Records([msgs[i]]) == ToBytes(msgs[i]);
    Assoc(base, Records(msgs[..i]), ToBytes(msgs[i]));
  }

  lemma SpillsAreChunks(i: nat, spills: nat, held: nat)
    requires Spilled(i, spills, held)
    ensures Chunks(i, STD_BUF_RECORDS) == spills + (if held == 0 then 0 else 1)
  {
    ChunksIsCeiling(i, STD_BUF_RECORDS);
  }

  class StdWriter {
    const file: File
    var buf: seq<byte>

    constructor (file: File)
      ensures this.file == file && buf == []
    {
      this.file := file;
      buf := [];
    }

    /** Everything accepted so far, written or still buffered. */
    ghost function Stream(): seq<byte>
      reads this, file
    {
      file.bytes + buf
    }

    /** Writes out what is buffered, in one call, or makes none when there is nothing. */
    method Flush() returns (ok: bool)
      modifies `buf, file`bytes, file`faults, file`calls
      ensures Stream() == old(Stream()) && old(file.bytes) <= file.bytes && |buf| <= |old(buf)|
      ensures ok ==> buf == []
      ensures ok <==> file.faults == old(file.faults)
      ensures file.calls == old(file.calls) + (if old(buf) == [] then 0 else 1)
    {
      if buf == [] { return true; }
      ghost var f, b := file.bytes, buf;
      var done, n := file.Append(buf);
      buf := buf[n..];
      assert f + b == (f + b[..n]) + b[n..];
      ok := done;
    }

    /** `write_all`: spill first if the record does not fit behind what is buffered. */
    method WriteAll(rec: seq<byte>) returns (ok: bool)
      requires |rec| < STD_BUF_CAP
      modifies `buf, file`bytes, file`faults, file`calls
      ensures Stream() == old(Stream()) + (if ok then rec else [])
      ensures old(file.bytes) <= file.bytes
      ensures ok <==> file.faults == old(file.faults)
      ensures |old(buf)| + |rec| <= STD_BUF_CAP ==>
                ok && |buf| == |old(buf)| + |rec| && file.calls == old(file.calls)
      ensures |old(buf)| + |rec| > STD_BUF_CAP && ok ==> |buf| == |rec| && file.calls == old(file.calls) + 1
    {
      if |rec| > STD_BUF_CAP - |buf| {
        var done := Flush();
        if !done { return false; }
      }
      ghost var before := Stream();
      buf := buf + rec;
      assert Stream() == before + rec;
      return true;
    }

    /** Buffers the records and flushes.  Success leaves the buffer empty; on an error the
        stream of accepted bytes still grows only by whole records.  A batch that starts on
        an empty buffer costs one call for every full buffer or part of one. */
    method WriteBatch(msgs: seq<Message>) returns (r: Result<nat, IoError>, ghost accepted: nat)
      modifies `buf, file`bytes, file`faults, file`calls
      ensures old(file.bytes) <= file.bytes && accepted <= |msgs|
      ensures Stream() == old(Stream()) + Records(msgs[..accepted])
      ensures r.Ok? ==> r.value == |msgs| == accepted && buf == []
      ensures r.Ok? <==> file.faults == old(file.faults)
      ensures r.Ok? && old(buf) == [] ==> file.calls == old(file.calls) + Chunks(|msgs|, STD_BUF_RECORDS)
    {
      accepted := 0;
      var i := 0;
      ghost var spills := 0;
      assert msgs[..0] == [];
      while i < |msgs|
        invariant 0 <= i == accepted <= |msgs| && old(file.bytes) <= file.bytes
        invariant Stream() == old(Stream()) + Records(msgs[..i])
        invariant file.faults == old(file.faults)
        invariant old(buf) == [] ==> Spilled(i, spills, |buf|) && file.calls == old(file.calls) + spills
      {
        RecordsOneMore(old(Stream()), msgs, i);
        spills := if |buf| + 64 > STD_BUF_CAP then spills + 1 else spills;
        var ok := WriteAll(ToBytes(msgs[i]));
        if !ok { return Err(IoError), accepted; }
        i := i + 1;
        accepted := i;
      }
      if old(buf) == [] { SpillsAreChunks(|msgs|, spills, |buf|); }
      var ok := Flush();
      if !ok { return Err(IoError), accepted; }
      return Ok(|msgs|), accepted;
    }

    /** `sync` does not flush: it makes durable only what has reached the file. */
    method Sync() returns (ok: bool)
      modifies file`durable, file`faults
      ensures file.durable == if ok then |file.bytes| else old(file.durable)
      ensures ok <==> file.faults == old(file.faults)
    {
      ok := file.Sync();
    }
  }
}
