/** The base64 encoder of the histogram export: the code's table and bit operations
    against the encoding of section 4 of RFC 4648, and that encoding against a
    strict decoder. */
module Base64 {
  import opened Common
  import opened Words
  import opened Utf8

  // ---------------------------------------------------------------- RFC 4648

  /** The base64 alphabet. */
  function Letter(i: nat): char
    requires i < 64
  {
    if i < 26 then ('A' as int + i) as char
    else if i < 52 then ('a' as int + (i - 26)) as char
    else if i < 62 then ('0' as int + (i - 52)) as char
    else if i == 62 then '+' else '/'
  }

  function Quantum(s: seq<byte>): (q: string)
    requires 1 <= |s| <= 3
    ensures |q| == 4
  {
    if |s| == 1 then [Letter(s[0] / 4), Letter(s[0] % 4 * 16), '=', '=']
    else if |s| == 2 then [Letter(s[0] / 4), Letter(s[0] % 4 * 16 + s[1] / 16), Letter(s[1] % 16 * 4), '=']
    else [Letter(s[0] / 4), Letter(s[0] % 4 * 16 + s[1] / 16),
          Letter(s[1] % 16 * 4 + s[2] / 64), Letter(s[2] % 64)]
  }

  function ChunkLen(s: seq<byte>): nat { if |s| < 3 then |s| else 3 }

  function Encode(s: seq<byte>): string {
    if s == [] then [] else Quantum(s[..ChunkLen(s)]) + Encode(s[ChunkLen(s)..])
  }

  function Value(c: char): (r: Option<nat>)
    ensures r.Some? ==> r.value < 64 && Letter(r.value) == c
  {
    if 'A' <= c <= 'Z' then Some(c as int - 'A' as int)
    else if 'a' <= c <= 'z' then Some(c as int - 'a' as int + 26)
    else if '0' <= c <= '9' then Some(c as int - '0' as int + 52)
    else if c == '+' then Some(62)
    else if c == '/' then Some(63)
    else None
  }

  /** One quantum; padding is accepted only in the last one, with zero pad bits. */
  function DecodeQuantum(q: string, last: bool): (r: Option<seq<byte>>)
    requires |q| == 4
    ensures r.Some? ==> 1 <= |r.value| <= 3 && (!last ==> |r.value| == 3)
  {
    var (v0, v1, v2, v3) := (Value(q[0]), Value(q[1]), Value(q[2]), Value(q[3]));
    if v0.None? || v1.None? then None
    else if last && q[2] == '=' && q[3] == '=' then
      if v1.value % 16 == 0 then Some([v0.value * 4 + v1.value / 16]) else None
    else if v2.None? then None
    else if last && q[3] == '=' then
      if v2.value % 4 == 0
      then Some([v0.value * 4 + v1.value / 16, v1.value % 16 * 16 + v2.value / 4]) else None
    else if v3.None? then None
    else Some([v0.value * 4 + v1.value / 16, v1.value % 16 * 16 + v2.value / 4, v2.value % 4 * 64 + v3.value])
  }

  function Decode(t: string): Option<seq<byte>> {
    if t == [] then Some([])
    else if |t| < 4 then None
    else
      var head, rest := DecodeQuantum(t[..4], |t| == 4), Decode(t[4..]);
      if head.None? || rest.None? then None else Some(head.value + rest.value)
  }

  lemma LetterValue(i: nat)
    requires i < 64
    ensures Value(Letter(i)) == Some(i) && Letter(i) != '='
  {
  }

  /** Sextets and bytes determine each other. */
  lemma Regroup(b0: byte, b1: byte, b2: byte)
    ensures b0 / 4 * 4 + (b0 % 4 * 16 + b1 / 16) / 16 == b0
    ensures (b0 % 4 * 16 + b1 / 16) % 16 * 16 + (b1 % 16 * 4 + b2 / 64) / 4 == b1
    ensures (b1 % 16 * 4 + b2 / 64) % 4 * 64 + b2 % 64 == b2
    ensures b0 % 4 * 16 % 16 == 0 && b1 % 16 * 4 % 4 == 0
  {
  }

  lemma OneDecodes(a: byte)
    ensures DecodeQuantum(Quantum([a]), true) == Some([a])
  {
  }

  lemma TwoDecode(a: byte, b: byte)
    ensures DecodeQuantum(Quantum([a, b]), true) == Some([a, b])
  {
    LetterValue(a / 4);
    LetterValue(a % 4 * 16 + b / 16);
    LetterValue(b % 16 * 4);
    Regroup(a, b, 0);
  }

  lemma ThreeDecode(a: byte, b: byte, c: byte, last: bool)
    ensures DecodeQuantum(Quantum([a, b, c]), last) == Some([a, b, c])
  {
    LetterValue(a / 4);
    LetterValue(a % 4 * 16 + b / 16);
    LetterValue(b % 16 * 4 + c / 64);
    LetterValue(c % 64);
    Regroup(a, b, c);
  }

  lemma QuantumDecodes(s: seq<byte>, last: bool)
    requires 1 <= |s| <= 3 && (last || |s| == 3)
    ensures DecodeQuantum(Quantum(s), last) == Some(s)
  {
    if |s| == 1 {
      assert s == [s[0]];
      OneDecodes(s[0]);
    } else if |s| == 2 {
      assert s == [s[0], s[1]];
      TwoDecode(s[0], s[1]);
    } else {
      assert s == [s[0], s[1], s[2]];
      ThreeDecode(s[0], s[1], s[2], last);
    }
  }

  lemma EncodeGrows(s: seq<byte>)
    requires s != []
    ensures |Encode(s)| == 4 + |Encode(s[ChunkLen(s)..])|
  {
  }

  lemma Thirds(n: nat)
    ensures (n + 3 + 2) / 3 == (n + 2) / 3 + 1 && (0 + 2) / 3 == 0 && (1 + 2) / 3 == 1 && (2 + 2) / 3 == 1
  {
  }

  lemma {:induction false} EncodeLength(s: seq<byte>)
    ensures |Encode(s)| == 4 * ((|s| + 2) / 3)
  {
    if s == [] {
    } else {
      EncodeGrows(s);
      EncodeLength(s[ChunkLen(s)..]);
      Thirds(if |s| >= 3 then |s| - 3 else 0);
    }
  }

  /** The decoder inverts the encoder on every byte sequence. */
  lemma {:induction false} DecodeEncode(s: seq<byte>)
    ensures Decode(Encode(s)) == Some(s)
  {
    if s == [] {
    } else {
      var k := ChunkLen(s);
      var q, rest := Quantum(s[..k]), Encode(s[k..]);
      assert (q + rest)[..4] == q && (q + rest)[4..] == rest;
      EncodeLength(s[k..]);
      QuantumDecodes(s[..k], rest == []);
      DecodeEncode(s[k..]);
      assert s == s[..k] + s[k..];
    }
  }

  /** The decoder accepts nothing but encodings, and returns what was encoded. */
  lemma {:induction false} EncodeDecode(t: string)
    requires Decode(t).Some?
    ensures Encode(Decode(t).value) == t
    decreases |t|
  {
    if t == [] {
    } else {
      var head, rest := DecodeQuantum(t[..4], |t| == 4).value, Decode(t[4..]).value;
      QuantumEncodes(t[..4], |t| == 4);
      EncodeDecode(t[4..]);
      var s := head + rest;
      assert s[..ChunkLen(s)] == head && s[ChunkLen(s)..] == rest;
      assert t == t[..4] + t[4..];
    }
  }

  /** Bytes and sextets determine each other, the other way. */
  lemma Resplit(v0: nat, v1: nat, v2: nat, v3: nat)
    requires v0 < 64 && v1 < 64 && v2 < 64 && v3 < 64
    ensures (v0 * 4 + v1 / 16) / 4 == v0 && (v0 * 4 + v1 / 16) % 4 == v1 / 16
    ensures (v1 % 16 * 16 + v2 / 4) / 16 == v1 % 16 && (v1 % 16 * 16 + v2 / 4) % 16 == v2 / 4
    ensures (v2 % 4 * 64 + v3) / 64 == v2 % 4 && (v2 % 4 * 64 + v3) % 64 == v3
  {
  }

  lemma ThreeRegroup(v0: nat, v1: nat, v2: nat, v3: nat)
    requires v0 < 64 && v1 < 64 && v2 < 64 && v3 < 64
    ensures Quantum([v0 * 4 + v1 / 16, v1 % 16 * 16 + v2 / 4, v2 % 4 * 64 + v3])
              == [Letter(v0), Letter(v1), Letter(v2), Letter(v3)]
  {
    Resplit(v0, v1, v2, v3);
  }

  lemma OneEncodes(q: string, last: bool)
    requires |q| == 4 && DecodeQuantum(q, last).Some? && |DecodeQuantum(q, last).value| == 1
    ensures Quantum(DecodeQuantum(q, last).value) == q
  {
    Resplit(Value(q[0]).value, Value(q[1]).value, 0, 0);
  }

  lemma TwoRegroup(v0: nat, v1: nat, v2: nat)
    requires v0 < 64 && v1 < 64 && v2 < 64 && v2 % 4 == 0
    ensures Quantum([v0 * 4 + v1 / 16, v1 % 16 * 16 + v2 / 4]) == [Letter(v0), Letter(v1), Letter(v2), '=']
  {
    Resplit(v0, v1, v2, 0);
  }

  lemma TwoLetters(q: string, last: bool)
    requires |q| == 4 && DecodeQuantum(q, last).Some? && |DecodeQuantum(q, last).value| == 2
    ensures Value(q[0]).Some? && Value(q[1]).Some? && Value(q[2]).Some?
    ensures var v0, v1, v2 := Value(q[0]).value, Value(q[1]).value, Value(q[2]).value;
            && q == [Letter(v0), Letter(v1), Letter(v2), '='] && v2 % 4 == 0
            && DecodeQuantum(q, last).value == [v0 * 4 + v1 / 16, v1 % 16 * 16 + v2 / 4]
  {
    assert q == [q[0], q[1], q[2], q[3]];
  }

  lemma TwoEncode(q: string, last: bool)
    requires |q| == 4 && DecodeQuantum(q, last).Some? && |DecodeQuantum(q, last).value| == 2
    ensures Quantum(DecodeQuantum(q, last).value) == q
  {
    TwoLetters(q, last);
    TwoRegroup(Value(q[0]).value, Value(q[1]).value, Value(q[2]).value);
  }

  lemma ThreeLetters(q: string, last: bool)
    requires |q| == 4 && DecodeQuantum(q, last).Some? && |DecodeQuantum(q, last).value| == 3
    ensures Value(q[0]).Some? && Value(q[1]).Some? && Value(q[2]).Some? && Value(q[3]).Some?
    ensures var v0, v1, v2, v3 := Value(q[0]).value, Value(q[1]).value, Value(q[2]).value, Value(q[3]).value;
            && q == [Letter(v0), Letter(v1), Letter(v2), Letter(v3)]
            && DecodeQuantum(q, last).value == [v0 * 4 + v1 / 16, v1 % 16 * 16 + v2 / 4, v2 % 4 * 64 + v3]
  {
    assert q == [q[0], q[1], q[2], q[3]];
  }

  lemma ThreeEncode(q: string, last: bool)
    requires |q| == 4 && DecodeQuantum(q, last).Some? && |DecodeQuantum(q, last).value| == 3
    ensures Quantum(DecodeQuantum(q, last).value) == q
  {
    ThreeLetters(q, last);
    ThreeRegroup(Value(q[0]).value, Value(q[1]).value, Value(q[2]).value, Value(q[3]).value);
  }

  lemma QuantumEncodes(q: string, last: bool)
    requires |q| == 4 && DecodeQuantum(q, last).Some?
    ensures Quantum(DecodeQuantum(q, last).value) == q
  {
    var n := |DecodeQuantum(q, last).value|;
    if n == 1 { OneEncodes(q, last); } else if n == 2 { TwoEncode(q, last); } else { ThreeEncode(q, last); }
  }

  /** The encoder is injective. */
  lemma Injective(a: seq<byte>, b: seq<byte>)
    requires Encode(a) == Encode(b)
    ensures a == b
  {
    DecodeEncode(a);
    DecodeEncode(b);
  }

  lemma QuantumPadding(s: seq<byte>, i: nat)
    requires 1 <= |s| <= 3 && i < 4
    ensures Quantum(s)[i] == '=' <==> i > |s|
  {
  }

  function PadLen(n: nat): nat { (3 - n % 3) % 3 }

  lemma PadLenSteps(n: nat)
    ensures PadLen(n + 3) == PadLen(n) && PadLen(1) == 2 && PadLen(2) == 1 && PadLen(0) == 0
  {
  }

  /** Padding is exactly the last `(3 - |s| % 3) % 3` characters. */
  lemma {:induction false} Padding(s: seq<byte>, i: nat)
    requires i < |Encode(s)|
    ensures Encode(s)[i] == '=' <==> i >= |Encode(s)| - PadLen(|s|)
  {
    if s == [] {
    } else {
      var k := ChunkLen(s);
      var q, rest := Quantum(s[..k]), Encode(s[k..]);
      assert Encode(s) == q + rest;
      EncodeLength(s[k..]);
      PadLenSteps(if |s| >= 3 then |s| - 3 else 0);
      if i < 4 {
        QuantumPadding(s[..k], i);
      } else {
        Padding(s[k..], i - 4);
      }
    }
  }

  /** The digit a character stands for; padding stands for zero. */
  function Digit(c: char): nat { if Value(c).Some? then Value(c).value else 0 }

  function ByteOr0(s: seq<byte>, i: nat): byte { if i < |s| then s[i] else 0 }

  lemma QuantumDigits(s: seq<byte>)
    requires 1 <= |s| <= 3
    ensures var q, b0, b1, b2 := Quantum(s), ByteOr0(s, 0), ByteOr0(s, 1), ByteOr0(s, 2);
            && Digit(q[0]) == b0 / 4 && Digit(q[1]) == b0 % 4 * 16 + b1 / 16
            && Digit(q[2]) == b1 % 16 * 4 + b2 / 64 && Digit(q[3]) == b2 % 64
  {
    var b0, b1, b2 := ByteOr0(s, 0), ByteOr0(s, 1), ByteOr0(s, 2);
    LetterValue(b0 / 4);
    LetterValue(b0 % 4 * 16 + b1 / 16);
    LetterValue(b1 % 16 * 4 + b2 / 64);
    LetterValue(b2 % 64);
  }

  function Number(q: string): nat
    requires |q| == 4
  {
    Digit(q[0]) * 262144 + Digit(q[1]) * 4096 + Digit(q[2]) * 64 + Digit(q[3])
  }

  /** Four characters are the digits, most significant first, of the number whose bytes they
      encode, missing bytes taken as zero. */
  lemma QuantumIsNumber(s: seq<byte>)
    requires 1 <= |s| <= 3
    ensures Number(Quantum(s)) == ByteOr0(s, 0) * 65536 + ByteOr0(s, 1) * 256 + ByteOr0(s, 2)
  {
    QuantumDigits(s);
    SameNumber(ByteOr0(s, 0), ByteOr0(s, 1), ByteOr0(s, 2));
  }

  lemma SameNumber(b0: byte, b1: byte, b2: byte)
    ensures b0 / 4 * 262144 + (b0 % 4 * 16 + b1 / 16) * 4096 + (b1 % 16 * 4 + b2 / 64) * 64 + b2 % 64
              == b0 * 65536 + b1 * 256 + b2
  {
  }

  lemma LastLetters()
    ensures Encode([251, 239, 190]) == "++++" && Encode([255, 255, 255]) == "////"
  {
  }

  /** Test vectors of section 10 of RFC 4648. */
  lemma Vectors()
    ensures Encode([102]) == "Zg==" && Encode([102, 111]) == "Zm8=" && Encode([102, 111, 111]) == "Zm9v"
    ensures Encode([102, 111, 111, 98, 97, 114]) == "Zm9vYmFy"
  {
    var s: seq<byte> := [102, 111, 111, 98, 97, 114];
    assert s[..3] == [102, 111, 111] && s[3..] == [98, 97, 114];
    assert Encode([98, 97, 114]) == "YmFy";
  }

  // ---------------------------------------------------------------- the code's table and shifts

  const UPPER1: string := "ABCDEFGHIJKLM"
  const UPPER2: string := "NOPQRSTUVWXYZ"
  const LOWER1: string := "abcdefghijklm"
  const LOWER2: string := "nopqrstuvwxyz"
  const DIGITS: string := "0123456789"
  const TABLE: string := UPPER1 + UPPER2 + LOWER1 + LOWER2 + DIGITS + "+/"

  /** The code's table is the alphabet. */
  lemma TableIsAlphabet(i: nat)
    requires i < 64
    ensures |TABLE| == 64 && TABLE[i] == Letter(i)
  {
  }

  lemma OrBits(x: nat, b: nat)
    ensures BitOr(2 * x, b) == 2 * BitOr(x, b / 2) + b % 2
  {
  }

  /** Or-ing a value into bits that are clear adds it. */
  lemma {:induction false} OrDisjoint(a: nat, b: nat, k: nat)
    requires b < Pow2(k)
    ensures BitOr(a * Pow2(k), b) == a * Pow2(k) + b
  {
    if k > 0 {
      var m := Pow2(k - 1);
      DoubleProduct(a, m);
      Halves(a * m, b);
      Halves(a * m, 0);
      OrDisjoint(a, b / 2, k - 1);
      OrBits(a * m, b);
    }
  }

  lemma Powers()
    ensures Pow2(0) == 1 && Pow2(6) == 64 && Pow2(8) == 256
    ensures Pow2(12) == 4096 && Pow2(16) == 65536 && Pow2(18) == 262144
  {
  }

  lemma GroupValue(b0: byte, b1: byte, b2: byte)
    ensures BitOr(BitOr(Shl(b0, 16), Shl(b1, 8)), b2) == b0 * 65536 + b1 * 256 + b2
  {
    Powers();
    OrDisjoint(b0, b1 * 256, 16);
    OrDisjoint(b0 * 256 + b1, b2, 8);
    assert (b0 * 256 + b1) * 256 == b0 * 65536 + b1 * 256;
  }

  /** A six-bit field of the group, looked up in the table. */
  method Symbol(n: nat, shift: nat, ghost high: nat, ghost i: nat, ghost low: nat) returns (c: char)
    requires n == (high * 64 + i) * Pow2(shift) + low && i < 64 && low < Pow2(shift)
    ensures c == Letter(i)
  {
    Powers();
    ShrField(high * 64 + i, low, shift);
    MaskIsMod(Shr(n, shift), 6);
    ModUnique(high * 64 + i, high, i, 64);
    TableIsAlphabet(i);
    c := TABLE[BitAnd(Shr(n, shift), 0x3F)];
  }

  method Group(b0: byte, b1: byte, b2: byte) returns (n: nat)
    ensures n == b0 * 65536 + b1 * 256 + b2
  {
    GroupValue(b0, b1, b2);
    n := BitOr(BitOr(Shl(b0, 16), Shl(b1, 8)), b2);
  }

  function At(s: seq<byte>, i: nat): byte { if i < |s| then s[i] else 0 }

  /** The four sextets of three bytes, each where its shift finds it. */
  lemma Sextets(b0: byte, b1: byte, b2: byte, n: nat)
    requires n == b0 * 65536 + b1 * 256 + b2
    ensures n == (0 * 64 + b0 / 4) * 262144 + (b0 % 4 * 65536 + b1 * 256 + b2)
    ensures b0 % 4 * 65536 + b1 * 256 + b2 < 262144
    ensures n == (b0 / 4 * 64 + (b0 % 4 * 16 + b1 / 16)) * 4096 + (b1 % 16 * 256 + b2)
    ensures b1 % 16 * 256 + b2 < 4096
    ensures n == ((b0 * 16 + b1 / 16) * 64 + (b1 % 16 * 4 + b2 / 64)) * 64 + b2 % 64
    ensures n == (b0 * 1024 + b1 * 4 + b2 / 64) * 64 + b2 % 64
  {
  }

  lemma QuantumIs(s: seq<byte>)
    requires 1 <= |s| <= 3
    ensures Quantum(s) == [Letter(s[0] / 4), Letter(s[0] % 4 * 16 + At(s, 1) / 16),
                           if |s| > 1 then Letter(At(s, 1) % 16 * 4 + At(s, 2) / 64) else '=',
                           if |s| > 2 then Letter(At(s, 2) % 64) else '=']
  {
  }

  method PushQuantum(chunk: seq<byte>, before: string) returns (out: string)
    requires 1 <= |chunk| <= 3
    ensures out == before + Quantum(chunk)
  {
    var b0: nat, b1: nat, b2: nat := At(chunk, 0), At(chunk, 1), At(chunk, 2);
    var n := Group(b0, b1, b2);
    Powers();
    Sextets(b0, b1, b2, n);
    var c0 := Symbol(n, 18, 0, b0 / 4, b0 % 4 * 65536 + b1 * 256 + b2);
    var c1 := Symbol(n, 12, b0 / 4, b0 % 4 * 16 + b1 / 16, b1 % 16 * 256 + b2);
    var c2 := Symbol(n, 6, b0 * 16 + b1 / 16, b1 % 16 * 4 + b2 / 64, b2 % 64);
    var c3 := Symbol(n, 0, b0 * 1024 + b1 * 4 + b2 / 64, b2 % 64, 0);
    QuantumIs(chunk);
    out := before + [c0];
    out := out + [c1];
    out := out + [if |chunk| > 1 then c2 else '='];
    out := out + [if |chunk| > 2 then c3 else '='];
  }

  /** `base64_encode`: three bytes at a time, the last group padded. */
  method Base64Encode(input: seq<byte>) returns (out: string)
    ensures out == Encode(input)
  {
    out := [];
    var i := 0;
    while i < |input|
      invariant 0 <= i <= |input|
      invariant out + Encode(input[i..]) == Encode(input)
    {
      var k := ChunkLen(input[i..]);
      var chunk := input[i..][..k];
      ghost var before, rest := out, Encode(input[i + k..]);
      out := PushQuantum(chunk, out);
      assert input[i..][k..] == input[i + k..];
      Assoc(before, Quantum(chunk), rest);
      i := i + k;
    }
    assert input[i..] == [] && out + [] == out;
  }
}
