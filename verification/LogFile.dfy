/** The log as bytes: records, positioned writes, and what a group of positioned
    writes leaves behind when they complete in any order. */
module LogFile {
  import opened Utf8
  import opened MessageCodec

  /** The concatenated records of a batch. */
  function Records(msgs: seq<Message>): (r: seq<byte>)
    ensures |r| == 64 * |msgs|
  {
    if msgs == [] then [] else ToBytes(msgs[0]) + Records(msgs[1..])
  }

  lemma {:induction false} RecordsConcat(a: seq<Message>, b: seq<Message>)
    ensures Records(a + b) == Records(a) + Records(b)
  {
    if a == [] {
      assert a + b == b;
    } else {
      assert (a + b)[1..] == a[1..] + b;
      RecordsConcat(a[1..], b);
      assert Records(a + b) == ToBytes(a[0]) + (Records(a[1..]) + Records(b));
    }
  }

  /** Record `i` of a log is the 64 bytes at `64 * i`. */
  lemma {:induction false} RecordAt(msgs: seq<Message>, i: nat)
    requires i < |msgs|
    ensures Records(msgs)[64 * i..64 * i + 64] == ToBytes(msgs[i])
  {
    if i > 0 {
      RecordAt(msgs[1..], i - 1);
      assert Records(msgs)[64 * i..64 * i + 64] == Records(msgs[1..])[64 * (i - 1)..64 * (i - 1) + 64];
    }
  }

  /** Every record of a log is laid out as its message, and decodes to it. */
  lemma RecordDecodes(msgs: seq<Message>, i: nat)
    requires i < |msgs|
    ensures IsRecord(Records(msgs)[64 * i..64 * i + 64], msgs[i])
    ensures FromBytes(Records(msgs)[64 * i..64 * i + 64]) == msgs[i]
  {
    RecordAt(msgs, i);
    RecordLayout(msgs[i]);
    DecodeEncode(msgs[i]);
  }

  function Max(a: nat, b: nat): nat { if a >= b then a else b }

  /** A positioned write: bytes past the end are created, a gap is filled with zeros. */
  function PWrite(f: seq<byte>, off: nat, d: seq<byte>): (r: seq<byte>)
    ensures |r| == if d == [] then |f| else Max(|f|, off + |d|)
  {
    if d == [] then f
    else if off >= |f| then f + Zeros(off - |f|) + d
    else f[..off] + d + (if off + |d| < |f| then f[off + |d|..] else [])
  }

  lemma PWriteFacts(f: seq<byte>, off: nat, d: seq<byte>)
    ensures var r := PWrite(f, off, d);
            && (forall p :: 0 <= p < |d| ==> r[off + p] == d[p])
            && (forall p :: 0 <= p < |f| && p < off ==> r[p] == f[p])
            && (forall p :: off + |d| <= p < |f| ==> r[p] == f[p])
  {
  }

  /** A write that leaves no gap, byte by byte. */
  lemma PWriteAt(f: seq<byte>, off: nat, d: seq<byte>, p: nat)
    requires off <= |f| && p < |PWrite(f, off, d)|
    ensures !(off <= p < off + |d|) ==> p < |f|
    ensures PWrite(f, off, d)[p] == if off <= p < off + |d| then d[p - off] else f[p]
  {
  }

  /** `g` is what a group of 64-byte writes at consecutive positions from `base`
      leaves of `f`: bytes outside the group's range are untouched, and the records
      in `ok` have landed; the others may have left anything in their own place. */
  ghost predicate Landed(f: seq<byte>, g: seq<byte>, base: nat, recs: seq<seq<byte>>, ok: set<nat>) {
    && |f| <= |g| <= Max(|f|, base + 64 * |recs|)
    && (forall p :: 0 <= p < base && p < |f| ==> g[p] == f[p])
    && (forall p :: base + 64 * |recs| <= p < |f| ==> g[p] == f[p])
    && (forall i: nat :: i in ok && i < |recs| ==> SlotHas(g, base, recs, i))
  }

  ghost predicate SlotHas(g: seq<byte>, base: nat, recs: seq<seq<byte>>, i: nat) {
    i < |recs| && |recs[i]| == 64 && base + 64 * i + 64 <= |g| && g[base + 64 * i..base + 64 * i + 64] == recs[i]
  }

  /** One more completion, in whatever order: all of record `j`, or on failure some
      first part of it. */
  lemma LandedStep(f: seq<byte>, g: seq<byte>, base: nat, recs: seq<seq<byte>>, ok: set<nat>, j: nat, part: nat)
    requires Landed(f, g, base, recs, ok) && base <= |f|
    requires j < |recs| && |recs[j]| == 64 && part <= 64 && j !in ok
    ensures var g' := PWrite(g, base + 64 * j, recs[j][..part]);
            Landed(f, g', base, recs, if part == 64 then ok + {j} else ok)
  {
    var d := recs[j][..part];
    var g' := PWrite(g, base + 64 * j, d);
    PWriteFacts(g, base + 64 * j, d);
    forall i: nat | i in ok && i < |recs| ensures SlotHas(g', base, recs, i) {
      assert SlotHas(g, base, recs, i);
      forall p | base + 64 * i <= p < base + 64 * i + 64 ensures g'[p] == g[p] {
        if i < j { assert p < base + 64 * j; } else { assert p >= base + 64 * j + 64; }
      }
    }
    if part == 64 {
      assert d == recs[j];
      assert g'[base + 64 * j..base + 64 * j + 64] == recs[j];
    }
  }

  function Flatten(recs: seq<seq<byte>>): (r: seq<byte>)
    requires forall i :: 0 <= i < |recs| ==> |recs[i]| == 64
    ensures |r| == 64 * |recs|
  {
    if recs == [] then [] else recs[0] + Flatten(recs[1..])
  }

  lemma {:induction false} FlattenAt(recs: seq<seq<byte>>, i: nat, p: nat)
    requires forall j :: 0 <= j < |recs| ==> |recs[j]| == 64
    requires i < |recs| && p < 64
    ensures Flatten(recs)[64 * i + p] == recs[i][p]
  {
    if i > 0 { FlattenAt(recs[1..], i - 1, p); }
  }

  /** When every write of the group has completed, in any order, the effect is that of
      one write of the concatenated records. */
  lemma AllLanded(f: seq<byte>, g: seq<byte>, base: nat, recs: seq<seq<byte>>, ok: set<nat>)
    requires forall i :: 0 <= i < |recs| ==> |recs[i]| == 64
    requires Landed(f, g, base, recs, ok) && base <= |f|
    requires forall i: nat :: i < |recs| ==> i in ok
    ensures g == PWrite(f, base, Flatten(recs))
  {
    var d := Flatten(recs);
    var r := PWrite(f, base, d);
    if recs != [] { assert SlotHas(g, base, recs, |recs| - 1); }
    forall p: nat | p < |g| ensures g[p] == r[p] {
      PWriteAt(f, base, d, p);
      if base <= p < base + 64 * |recs| {
        var i := (p - base) / 64;
        var q := p - base - 64 * i;
        assert SlotHas(g, base, recs, i);
        FlattenAt(recs, i, q);
        assert g[base + 64 * i..base + 64 * i + 64][q] == g[p];
      }
    }
  }

  /** Writing from position 0 is appending exactly when there was nothing there, or
      nothing is written. */
  lemma OverwriteIsAppend(f: seq<byte>, log: seq<byte>)
    ensures PWrite(f, 0, log) == f + log <==> f == [] || log == []
  {
  }
}
