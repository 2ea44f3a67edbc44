/** Bytes and UTF-8 validity (section 4 of RFC 3629). */
module Utf8 {

  type byte = b: int | 0 <= b < 256

  predicate Tail(b: byte) { 0x80 <= b <= 0xBF }

  /** Bytes announced by a lead byte; 0 if no sequence starts with it. */
  function Announced(b: byte): nat {
    if b <= 0x7F then 1
    else if 0xC2 <= b <= 0xDF then 2
    else if 0xE0 <= b <= 0xEF then 3
    else if 0xF0 <= b <= 0xF4 then 4
    else 0
  }

  /** The second byte of a sequence is a tail, further limited after some leads. */
  predicate SecondOk(lead: byte, b: byte) {
    && Tail(b)
    && (lead == 0xE0 ==> b >= 0xA0)
    && (lead == 0xED ==> b <= 0x9F)
    && (lead == 0xF0 ==> b >= 0x90)
    && (lead == 0xF4 ==> b <= 0x8F)
  }

  /** Length of the well-formed character at the start of `s`; 0 if there is none. */
  function CharLen(s: seq<byte>): (n: nat)
    ensures n <= |s|
  {
    if s == [] then 0
    else
      var n := Announced(s[0]);
      if n > |s| || (n >= 2 && !SecondOk(s[0], s[1])) || (n >= 3 && !Tail(s[2])) || (n >= 4 && !Tail(s[3]))
      then 0 else n
  }

  predicate Valid(s: seq<byte>) {
    s == [] || (CharLen(s) > 0 && Valid(s[CharLen(s)..]))
  }

  /** `str::is_char_boundary`: no character straddles position `e`. */
  predicate IsBoundary(s: seq<byte>, e: nat)
    requires e <= |s|
  {
    e == |s| || !Tail(s[e])
  }

  /** Cutting a valid string leaves a valid string exactly at character boundaries. */
  lemma {:induction false} PrefixValid(s: seq<byte>, e: nat)
    requires Valid(s) && e <= |s|
    ensures Valid(s[..e]) <==> IsBoundary(s, e)
    decreases |s|
  {
    if e > 0 {
      var n := CharLen(s);
      if e < n {
        assert CharLen(s[..e]) == 0;
      } else {
        assert CharLen(s[..e]) == n;
        assert s[..e][n..] == s[n..][..e - n];
        PrefixValid(s[n..], e - n);
      }
    }
  }

  // ---------------------------------------------------------------- against the encoder

  /** A Unicode scalar value. */
  type Scalar = c: nat | c < 0xD800 || 0xE000 <= c <= 0x10FFFF

  /** The encoding of one character (section 3 of RFC 3629). */
  function EncodeChar(c: Scalar): (r: seq<byte>)
    ensures 1 <= |r| <= 4
  {
    if c < 0x80 then [c]
    else if c < 0x800 then [0xC0 + c / 64, 0x80 + c % 64]
    else if c < 0x10000 then [0xE0 + c / 64 / 64, 0x80 + c / 64 % 64, 0x80 + c % 64]
    else [0xF0 + c / 64 / 64 / 64, 0x80 + c / 64 / 64 % 64, 0x80 + c / 64 % 64, 0x80 + c % 64]
  }

  function EncodeText(cs: seq<Scalar>): seq<byte> {
    if cs == [] then [] else EncodeChar(cs[0]) + EncodeText(cs[1..])
  }

  lemma EncodedLength(c: Scalar, rest: seq<byte>)
    ensures CharLen(EncodeChar(c) + rest) == |EncodeChar(c)|
  {
  }

  /** The six bits of a tail byte. */
  function Low(b: byte): int { b - 0x80 }

  lemma Digits(high: nat, low: nat)
    requires low < 64
    ensures (high * 64 + low) / 64 == high && (high * 64 + low) % 64 == low
  {
  }

  /** The character that a well-formed sequence encodes. */
  lemma Encoded(s: seq<byte>) returns (c: Scalar)
    requires CharLen(s) > 0
    ensures EncodeChar(c) == s[..CharLen(s)]
  {
    var n := CharLen(s);
    var lead: int := s[0];
    if n == 1 {
      c := lead;
    } else if n == 2 {
      c := (lead - 0xC0) * 64 + Low(s[1]);
    } else if n == 3 {
      var x := (lead - 0xE0) * 64 + Low(s[1]);
      c := x * 64 + Low(s[2]);
      Digits(lead - 0xE0, Low(s[1]));
      Digits(x, Low(s[2]));
    } else {
      var x := (lead - 0xF0) * 64 + Low(s[1]);
      var y := x * 64 + Low(s[2]);
      c := y * 64 + Low(s[3]);
      Digits(lead - 0xF0, Low(s[1]));
      Digits(x, Low(s[2]));
      Digits(y, Low(s[3]));
    }
  }

  lemma {:induction false} EncodedIsValid(cs: seq<Scalar>)
    ensures Valid(EncodeText(cs))
  {
    if cs == [] {
    } else {
      EncodedIsValid(cs[1..]);
      EncodedLength(cs[0], EncodeText(cs[1..]));
    }
  }

  lemma {:induction false} ValidIsEncoded(s: seq<byte>) returns (cs: seq<Scalar>)
    requires Valid(s)
    ensures EncodeText(cs) == s
    decreases |s|
  {
    if s == [] {
      cs := [];
    } else {
      var n := CharLen(s);
      var c := Encoded(s);
      cs := ValidIsEncoded(s[n..]);
      assert s == s[..n] + s[n..] && ([c] + cs)[1..] == cs;
      cs := [c] + cs;
    }
  }

  /** The byte test accepts exactly the encodings of sequences of scalar values. */
  lemma ValidExactly(s: seq<byte>)
    ensures Valid(s) <==> exists cs :: EncodeText(cs) == s
  {
    if Valid(s) { var cs := ValidIsEncoded(s); }
    if exists cs :: EncodeText(cs) == s {
      var cs :| EncodeText(cs) == s;
      EncodedIsValid(cs);
    }
  }
}

/** The 64-byte message: its record codec and its topic and payload views. */
module MessageCodec {
  import opened Words
  import opened Utf8

  datatype RawMessage = RawMessage(timestamp: nat, topic: seq<byte>, payload: seq<byte>) {
    predicate Fits() { timestamp < 0x1_0000_0000_0000_0000 && |topic| == 32 && |payload| == 24 }
  }

  function Zeros(n: nat): (z: seq<byte>)
    ensures |z| == n && forall i :: 0 <= i < n ==> z[i] == 0
  {
    seq(n, _ => 0)
  }

  type Message = m: RawMessage | m.Fits()
    ghost witness RawMessage(0, Zeros(32), Zeros(24))

  function Min(a: nat, b: nat): nat { if a <= b then a else b }

  /** `s` cut or zero-padded to `n` bytes. */
  function Fixed(s: seq<byte>, n: nat): (r: seq<byte>)
    ensures |r| == n
  {
    s[..Min(|s|, n)] + Zeros(n - Min(|s|, n))
  }

  function New(topic: seq<byte>, payload: seq<byte>): Message {
    RawMessage(0, Fixed(topic, 32), Fixed(payload, 24))
  }

  /** Index of the first zero byte, or the length. */
  function FirstZero(s: seq<byte>): (r: nat)
    ensures r <= |s|
    ensures forall i :: 0 <= i < r ==> s[i] != 0
    ensures r < |s| ==> s[r] == 0
  {
    if s == [] || s[0] == 0 then 0 else 1 + FirstZero(s[1..])
  }

  /** Length without trailing zero bytes. */
  function TrimmedLength(s: seq<byte>): (r: nat)
    ensures r <= |s|
    ensures r > 0 ==> s[r - 1] != 0
    ensures forall i :: r <= i < |s| ==> s[i] == 0
  {
    if s == [] then 0
    else if s[|s| - 1] != 0 then |s|
    else TrimmedLength(s[..|s| - 1])
  }

  function TopicStr(m: Message): (t: seq<byte>)
    ensures Valid(t) && |t| <= 32
  {
    var text := m.topic[..FirstZero(m.topic)];
    if Valid(text) then text else []
  }

  function PayloadBytes(m: Message): seq<byte> { m.payload[..TrimmedLength(m.payload)] }

  // ---------------------------------------------------------------- record codec

  function LeBytes(x: nat, n: nat): (r: seq<byte>)
    ensures |r| == n
  {
    if n == 0 then [] else [x % 256] + LeBytes(x / 256, n - 1)
  }

  function LeValue(s: seq<byte>): nat {
    if s == [] then 0 else s[0] + 256 * LeValue(s[1..])
  }

  function Pow256(n: nat): nat { if n == 0 then 1 else 256 * Pow256(n - 1) }

  lemma {:induction false} LeRoundTrip(x: nat, n: nat)
    requires x < Pow256(n)
    ensures LeValue(LeBytes(x, n)) == x
  {
    if n == 0 {
    } else {
      LeRoundTrip(x / 256, n - 1);
      assert LeBytes(x, n)[1..] == LeBytes(x / 256, n - 1);
    }
  }

  lemma DivDiv(x: nat, p: nat)
    requires p > 0
    ensures x / 256 / p == x / (256 * p)
  {
    var u := x / 256;
    var q, r := u / p, u % p;
    DivMod(u, p);
    assert q * (256 * p) == 256 * (q * p);
    ModUnique(x, q, 256 * r + x % 256, 256 * p);
  }

  /** Little-endian: byte `i` is the digit of weight `256^i`. */
  lemma {:induction false} LeByteAt(x: nat, n: nat, i: nat)
    requires i < n
    ensures Pow256(i) > 0 && LeBytes(x, n)[i] == x / Pow256(i) % 256
  {
    if i == 0 {
    } else {
      LeByteAt(x / 256, n - 1, i - 1);
      DivDiv(x, Pow256(i - 1));
    }
  }

  lemma FirstByte(b: byte, v: nat)
    ensures (b + 256 * v) % 256 == b && (b + 256 * v) / 256 == v
  {
  }

  lemma {:induction false} LeUnique(s: seq<byte>)
    ensures LeValue(s) < Pow256(|s|) && LeBytes(LeValue(s), |s|) == s
  {
    if s == [] {
    } else {
      LeUnique(s[1..]);
      FirstByte(s[0], LeValue(s[1..]));
      assert s == [s[0]] + s[1..];
    }
  }

  lemma Pow256Eight()
    ensures Pow256(8) == 0x1_0000_0000_0000_0000
  {
  }

  function ToBytes(m: Message): (r: seq<byte>)
    ensures |r| == 64
  {
    LeBytes(m.timestamp, 8) + m.topic + m.payload
  }

  function FromBytes(b: seq<byte>): Message
    requires |b| == 64
  {
    LeUnique(b[..8]); Pow256Eight();
    RawMessage(LeValue(b[..8]), b[8..40], b[40..64])
  }

  /** The layout of a record, byte by byte: the timestamp's digits from the least significant
      one, then the topic, then the payload. */
  ghost predicate IsRecord(r: seq<byte>, m: Message) {
    && |r| == 64
    && (forall i :: 0 <= i < 8 ==> Pow256(i) > 0 && r[i] == m.timestamp / Pow256(i) % 256)
    && (forall i :: 0 <= i < 32 ==> r[8 + i] == m.topic[i])
    && (forall i :: 0 <= i < 24 ==> r[40 + i] == m.payload[i])
  }

  lemma RecordLayout(m: Message)
    ensures IsRecord(ToBytes(m), m)
  {
    var r := ToBytes(m);
    forall i | 0 <= i < 8 ensures Pow256(i) > 0 && r[i] == m.timestamp / Pow256(i) % 256 {
      LeByteAt(m.timestamp, 8, i);
    }
  }

  /** Decoding undoes encoding, for every message. */
  lemma DecodeEncode(m: Message)
    ensures FromBytes(ToBytes(m)) == m
  {
    var b := ToBytes(m);
    Pow256Eight();
    LeRoundTrip(m.timestamp, 8);
    assert b[..8] == LeBytes(m.timestamp, 8) && b[8..40] == m.topic && b[40..64] == m.payload;
  }

  /** Encoding undoes decoding, for every 64-byte record. */
  lemma EncodeDecode(b: seq<byte>)
    requires |b| == 64
    ensures ToBytes(FromBytes(b)) == b
  {
    LeUnique(b[..8]);
    assert b == b[..8] + b[8..40] + b[40..64];
  }

  /** `new`: two zeroed arrays, each filled from the front. */
  method NewMessage(topic: seq<byte>, payload: seq<byte>) returns (m: Message)
    ensures m == New(topic, payload) && m.timestamp == 0
    ensures forall i :: 0 <= i < 32 ==> m.topic[i] == if i < |topic| then topic[i] else 0
    ensures forall i :: 0 <= i < 24 ==> m.payload[i] == if i < |payload| then payload[i] else 0
  {
    var t := new byte[32](_ => 0);
    var tlen := Min(|topic|, 32);
    forall i | 0 <= i < tlen { t[i] := topic[i]; }
    var p := new byte[24](_ => 0);
    var plen := Min(|payload|, 24);
    forall i | 0 <= i < plen { p[i] := payload[i]; }
    assert t[..] == Fixed(topic, 32);
    assert p[..] == Fixed(payload, 24);
    m := RawMessage(0, t[..], p[..]);
  }

  /** `to_bytes`: a zeroed record filled field by field. */
  method Encode(m: Message) returns (out: array<byte>)
    ensures fresh(out) && out[..] == ToBytes(m) && IsRecord(out[..], m)
  {
    out := new byte[64](_ => 0);
    var le := LeBytes(m.timestamp, 8);
    forall i | 0 <= i < 8 { out[i] := le[i]; }
    forall i | 0 <= i < 32 { out[8 + i] := m.topic[i]; }
    forall i | 0 <= i < 24 { out[40 + i] := m.payload[i]; }
    assert out[..8] == le && out[8..40] == m.topic && out[40..64] == m.payload;
    assert out[..] == out[..8] + out[8..40] + out[40..64];
    RecordLayout(m);
  }

  // ---------------------------------------------------------------- views

  lemma FirstZeroUnique(s: seq<byte>, r: nat)
    requires r <= |s|
    requires forall i :: 0 <= i < r ==> s[i] != 0
    requires r < |s| ==> s[r] == 0
    ensures FirstZero(s) == r
  {
  }

  /** Where the topic of a message built from `t` ends. */
  function TopicEnd(t: seq<byte>): (e: nat)
    ensures e <= |t| && e <= 32
  {
    Min(FirstZero(t), 32)
  }

  /** The topic view of a new message is the given text up to its first NUL or 32
      bytes, unless that cut splits a character: then it is empty. */
  lemma TopicOfNew(t: seq<byte>, payload: seq<byte>)
    requires Valid(t)
    ensures TopicStr(New(t, payload)) == if IsBoundary(t, TopicEnd(t)) then t[..TopicEnd(t)] else []
  {
    StoredTopic(t);
    PrefixValid(t, TopicEnd(t));
  }

  lemma StoredTopic(t: seq<byte>)
    ensures FirstZero(Fixed(t, 32)) == TopicEnd(t) && Fixed(t, 32)[..TopicEnd(t)] == t[..TopicEnd(t)]
  {
    FirstZeroUnique(Fixed(t, 32), TopicEnd(t));
  }

  /** Only the 32-byte cut can split a character; a NUL or the end never does. */
  lemma TopicLostOnlyByCut(t: seq<byte>, payload: seq<byte>)
    requires Valid(t)
    ensures TopicStr(New(t, payload)) != t[..TopicEnd(t)] <==>
              FirstZero(t) > 32 && Tail(t[32])
  {
    TopicOfNew(t, payload);
    if TopicEnd(t) == 0 && t != [] {
      assert CharLen(t) > 0;
    }
  }

  lemma TrimmedLengthUnique(s: seq<byte>, r: nat)
    requires r <= |s|
    requires r > 0 ==> s[r - 1] != 0
    requires forall i :: r <= i < |s| ==> s[i] == 0
    ensures TrimmedLength(s) == r
  {
  }

  /** Rebuilding from the payload view restores the payload array of any message. */
  lemma PayloadRebuilds(m: Message, topic: seq<byte>)
    ensures New(topic, PayloadBytes(m)).payload == m.payload
  {
  }

  /** The payload view returns what was given exactly when that fits and does not
      end in a zero byte. */
  lemma PayloadOfNew(topic: seq<byte>, p: seq<byte>)
    ensures PayloadBytes(New(topic, p)) == p <==> |p| <= 24 && (p == [] || p[|p| - 1] != 0)
  {
    var q := Fixed(p, 24);
    if |p| <= 24 && (p == [] || p[|p| - 1] != 0) {
      TrimmedLengthUnique(q, |p|);
    }
  }
}
