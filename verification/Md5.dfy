/**
  Streaming MD5: deps/common/math/md5.cpp.  The block transformation is a parameter; what is proved
  is that the context follows RFC 1321 whatever the pieces in which the message arrives.
 */
module Md5 {
  type byte = x: int | 0 <= x < 256
  type word = x: int | 0 <= x < 0x1_0000_0000

  const WORD: int := 0x1_0000_0000

  type State = s: seq<word> | |s| == 4 witness [0, 0, 0, 0]

  /** The block function, from four words and 64 bytes to four words. */
  type Transform = (State, seq<byte>) -> State

  const Start: State := [0x67452301, 0xefcdab89, 0x98badcfe, 0x10325476]

  // --- Words and bytes, low-order byte first ---

  function EncodeWord(x: word): (r: seq<byte>)
    ensures |r| == 4
  {
    [x % 256, x / 256 % 256, x / 65536 % 256, x / 16777216 % 256]
  }

  function DecodeWord(b: seq<byte>): word
    requires |b| == 4
  {
    var b0: int, b1: int, b2: int, b3: int := b[0], b[1], b[2], b[3];
    b0 + 256 * b1 + 65536 * b2 + 16777216 * b3
  }

  function EncodeAll(ws: seq<word>): (r: seq<byte>)
    ensures |r| == 4 * |ws|
  {
    if ws == [] then [] else EncodeAll(ws[..|ws| - 1]) + EncodeWord(ws[|ws| - 1])
  }

  function DecodeAll(bs: seq<byte>): (r: seq<word>)
    requires |bs| % 4 == 0
    ensures |r| == |bs| / 4
  {
    if bs == [] then [] else DecodeAll(bs[..|bs| - 4]) + [DecodeWord(bs[|bs| - 4..])]
  }

  function Power(j: nat): (p: nat)
    ensures p > 0
  {
    if j == 0 then 1 else 256 * Power(j - 1)
  }

  /** Byte `j` of a number, counted from the low-order end. */
  function Digit(x: nat, j: nat): byte {
    x / Power(j) % 256
  }

  lemma Powers()
    ensures Power(0) == 1 && Power(1) == 256 && Power(2) == 65536 && Power(3) == 16777216
  {
    assert Power(1) == 256 * Power(0) && Power(2) == 256 * Power(1) && Power(3) == 256 * Power(2);
  }

  /** The low-order byte comes first. */
  lemma {:induction false} EncodedBytes(ws: seq<word>, i: nat, j: nat)
    requires i < |ws| && j < 4
    ensures EncodeAll(ws)[4 * i + j] == Digit(ws[i], j)
  {
    var n := |ws| - 1;
    if i < n {
      EncodedBytes(ws[..n], i, j);
      assert EncodeAll(ws)[4 * i + j] == EncodeAll(ws[..n])[4 * i + j];
    } else {
      Powers();
      assert EncodeAll(ws)[4 * n + j] == EncodeWord(ws[n])[j];
    }
  }

  lemma WordRoundTrip(x: word)
    ensures DecodeWord(EncodeWord(x)) == x
  {
    var a, b := x / 256, x / 65536;
    assert a / 256 == b && b / 256 == x / 16777216;
    assert x == 256 * a + x % 256 && a == 256 * b + a % 256 && b == 256 * (b / 256) + b % 256;
  }

  lemma BytesRoundTrip(s: seq<byte>)
    requires |s| == 4
    ensures EncodeWord(DecodeWord(s)) == s
  {
    var x: int, s0: int, s1: int, s2: int, s3: int := DecodeWord(s), s[0], s[1], s[2], s[3];
    var a, b := x / 256, x / 65536;
    assert x == 256 * (s1 + 256 * s2 + 65536 * s3) + s0;
    assert a == s1 + 256 * s2 + 65536 * s3 && x % 256 == s0;
    assert a == 256 * (s2 + 256 * s3) + s1;
    assert b == a / 256 == s2 + 256 * s3 && a % 256 == s1;
    assert x / 16777216 == b / 256 == s3 && b % 256 == s2;
  }

  lemma DecodeSnoc(a: seq<byte>, w: seq<byte>)
    requires |a| % 4 == 0 && |w| == 4
    ensures |a + w| % 4 == 0 && DecodeAll(a + w) == DecodeAll(a) + [DecodeWord(w)]
  {
    var s := a + w;
    assert s[..|s| - 4] == a && s[|s| - 4..] == w;
  }

  lemma DecodePrefix(s: seq<byte>, i: nat)
    requires 4 * i + 4 <= |s|
    ensures DecodeAll(s[..4 * i + 4]) == DecodeAll(s[..4 * i]) + [DecodeWord(s[4 * i..4 * i + 4])]
  {
    DecodeSnoc(s[..4 * i], s[4 * i..4 * i + 4]);
    assert s[..4 * i] + s[4 * i..4 * i + 4] == s[..4 * i + 4];
  }

  lemma {:induction false} EncodeDecode(ws: seq<word>)
    ensures DecodeAll(EncodeAll(ws)) == ws
  {
    if ws != [] {
      var n := |ws| - 1;
      EncodeDecode(ws[..n]);
      WordRoundTrip(ws[n]);
      DecodeSnoc(EncodeAll(ws[..n]), EncodeWord(ws[n]));
    }
  }

  lemma {:induction false} DecodeEncode(bs: seq<byte>)
    requires |bs| % 4 == 0
    ensures EncodeAll(DecodeAll(bs)) == bs
  {
    if bs != [] {
      var n := |bs| - 4;
      DecodeEncode(bs[..n]);
      BytesRoundTrip(bs[n..]);
      var d := DecodeAll(bs);
      assert d[..|d| - 1] == DecodeAll(bs[..n]) && d[|d| - 1] == DecodeWord(bs[n..]);
      assert bs == bs[..n] + bs[n..];
    }
  }

  /** A word's digits are its four bytes, the low-order one first. */
  lemma DecodedWords(bs: seq<byte>, i: nat, j: nat)
    requires |bs| % 4 == 0 && 4 * i + 4 <= |bs| && j < 4
    ensures Digit(DecodeAll(bs)[i], j) == bs[4 * i + j]
  {
    DecodeEncode(bs);
    EncodedBytes(DecodeAll(bs), i, j);
  }

  lemma DecodedAll(input: seq<byte>, len: nat, output: seq<word>)
    requires len % 4 == 0 && len <= |input| && output == DecodeAll(input[..len])
    ensures forall k, d :: 0 <= k < len / 4 && 0 <= d < 4 ==> Digit(output[k], d) == input[4 * k + d]
  {
    forall k, d | 0 <= k < len / 4 && 0 <= d < 4 ensures Digit(output[k], d) == input[4 * k + d] {
      DecodedWords(input[..len], k, d);
    }
  }

  lemma EncodedAll(ws: seq<word>, output: seq<byte>)
    requires output == EncodeAll(ws)
    ensures forall k, d :: 0 <= k < |ws| && 0 <= d < 4 ==> output[4 * k + d] == Digit(ws[k], d)
  {
    forall k, d | 0 <= k < |ws| && 0 <= d < 4 ensures output[4 * k + d] == Digit(ws[k], d) {
      EncodedBytes(ws, k, d);
    }
  }

  method Encode(input: seq<word>, len: nat) returns (output: seq<byte>)
    requires len % 4 == 0 && len <= 4 * |input|
    ensures output == EncodeAll(input[..len / 4])
    ensures forall k, d :: 0 <= k < len / 4 && 0 <= d < 4 ==> output[4 * k + d] == Digit(input[k], d)
  {
    output := [];
    var i, j := 0, 0;
    while j < len
      invariant j == 4 * i <= len && output == EncodeAll(input[..i])
    {
      assert input[..i + 1][..i] == input[..i];
      output := output + EncodeWord(input[i]);
      i, j := i + 1, j + 4;
    }
    EncodedAll(input[..len / 4], output);
  }

  method Decode(input: seq<byte>, len: nat) returns (output: seq<word>)
    requires len % 4 == 0 && len <= |input|
    ensures output == DecodeAll(input[..len])
    ensures forall k, d :: 0 <= k < len / 4 && 0 <= d < 4 ==> Digit(output[k], d) == input[4 * k + d]
  {
    output := [];
    var i, j := 0, 0;
    ghost var n := len / 4;
    while j < len
      invariant 0 <= i <= n && j == 4 * i && output == DecodeAll(input[..4 * i])
    {
      DecodePrefix(input, i);
      output := output + [DecodeWord(input[j..j + 4])];
      i, j := i + 1, j + 4;
      assert 4 * i == 4 * (i - 1) + 4;
    }
    assert 4 * i == len;
    DecodedAll(input, len, output);
  }

  // --- RFC 1321 ---

  /** The state after the blocks of `bs`, from `state` on. */
  function Blocks(f: Transform, state: State, bs: seq<byte>): State
    requires |bs| % 64 == 0
  {
    if bs == [] then state else f(Blocks(f, state, bs[..|bs| - 64]), bs[|bs| - 64..])
  }

  /** Section 3.1 of RFC 1321: how many zero bytes follow the byte 0x80. */
  function Zeros(n: nat): (z: nat)
    ensures (n + 1 + z) % 64 == 56 && (n + 1 + z + 8) % 64 == 0 && z < 64
  {
    assert n == 64 * (n / 64) + n % 64;
    (119 - n % 64) % 64
  }

  /** Section 3.2: the length in bits as two words, low-order word first. */
  function Bits(n: nat): (r: seq<byte>)
    ensures |r| == 8
  {
    EncodeAll([8 * n % WORD, 8 * n / WORD % WORD])
  }

  function Repeat(b: byte, n: nat): (r: seq<byte>)
    ensures |r| == n && forall i :: 0 <= i < n ==> r[i] == b
  {
    seq(n, _ => b)
  }

  function Padded(m: seq<byte>): (r: seq<byte>)
    ensures |r| % 64 == 0
  {
    var r := m + ([0x80] + Repeat(0, Zeros(|m|))) + Bits(|m|);
    assert |r| == |m| + 1 + Zeros(|m|) + 8;
    r
  }

  function Digest(f: Transform, m: seq<byte>): seq<byte> {
    EncodeAll(Blocks(f, Start, Padded(m)))
  }

  /** Section 3.3: the four words, each with its low-order byte first. */
  lemma StartBytes()
    ensures EncodeAll(Start) == [0x01, 0x23, 0x45, 0x67, 0x89, 0xab, 0xcd, 0xef, 0xfe, 0xdc, 0xba, 0x98, 0x76, 0x54, 0x32, 0x10]
  {
    EncodeFour(Start[0], Start[1], Start[2], Start[3]);
    assert Start == [Start[0], Start[1], Start[2], Start[3]];
    assert EncodeWord(Start[0]) == [0x01, 0x23, 0x45, 0x67] && EncodeWord(Start[1]) == [0x89, 0xab, 0xcd, 0xef];
    assert EncodeWord(Start[2]) == [0xfe, 0xdc, 0xba, 0x98] && EncodeWord(Start[3]) == [0x76, 0x54, 0x32, 0x10];
  }

  lemma EncodeFour(a: word, b: word, c: word, d: word)
    ensures EncodeAll([a, b, c, d]) == EncodeWord(a) + EncodeWord(b) + EncodeWord(c) + EncodeWord(d)
  {
    assert [a, b, c, d][..3] == [a, b, c] && [a, b, c][..2] == [a, b] && [a, b][..1] == [a] && [a][..0] == [];
    assert EncodeAll([a, b, c]) == EncodeAll([a, b]) + EncodeWord(c) && EncodeAll([a, b]) == EncodeAll([a]) + EncodeWord(b);
    assert EncodeAll([a]) == [] + EncodeWord(a);
  }

  lemma HighPowers()
    ensures Power(4) == WORD && Power(5) == 256 * WORD && Power(6) == 65536 * WORD && Power(7) == 16777216 * WORD
  {
    Powers();
    assert Power(4) == 256 * Power(3) && Power(5) == 256 * Power(4) && Power(6) == 256 * Power(5) && Power(7) == 256 * Power(6);
  }

  /** The digits from the fourth on are those of the quotient. */
  lemma HighDigit(x: nat, d: nat)
    requires d < 4
    ensures Digit(x, d + 4) == Digit(x / WORD, d)
  {
    var q := x / WORD;
    Powers();
    HighPowers();
    if d == 1 { assert x / (256 * WORD) == q / 256; }
    else if d == 2 { assert x / (65536 * WORD) == q / 65536; }
    else if d == 3 { assert x / (16777216 * WORD) == q / 16777216; }
  }

  /** The digits below the fourth do not see what is above. */
  lemma LowDigit(x: nat, d: nat)
    requires d < 4
    ensures Digit(x % WORD, d) == Digit(x, d)
  {
    Powers();
    var q, r := x / WORD, x % WORD;
    assert x == WORD * q + r;
    if d == 0 { LowPart(x, r, 16777216 * q); }
    else if d == 1 { assert x / 256 == 16777216 * q + r / 256; LowPart(x / 256, r / 256, 65536 * q); }
    else if d == 2 { assert x / 65536 == 65536 * q + r / 65536; LowPart(x / 65536, r / 65536, 256 * q); }
    else { assert x / 16777216 == 256 * q + r / 16777216; LowPart(x / 16777216, r / 16777216, q); }
  }

  lemma LowPart(x: nat, r: nat, q: nat)
    requires x == 256 * q + r
    ensures x % 256 == r % 256
  {
  }

  /** Section 3.2: the last eight bytes are the number of bits modulo 2^64, low-order byte first. */
  lemma LengthBytes(n: nat, j: nat)
    requires j < 8
    ensures Bits(n)[j] == Digit(8 * n, j)
  {
    var ws: seq<word> := [8 * n % WORD, 8 * n / WORD % WORD];
    if j < 4 {
      EncodedBytes(ws, 0, j);
      LowDigit(8 * n, j);
    } else {
      EncodedBytes(ws, 1, j - 4);
      LowDigit(8 * n / WORD, j - 4);
      HighDigit(8 * n, j - 4);
    }
  }

  /** The padded message: the message, the byte 0x80, zeros, and the length. */
  lemma PaddedShape(m: seq<byte>)
    ensures var r, z := Padded(m), Zeros(|m|);
      && |r| == |m| + 1 + z + 8 && m <= r && r[|m|] == 0x80
      && (forall i :: |m| < i <= |m| + z ==> r[i] == 0)
      && (forall j :: 0 <= j < 8 ==> r[|m| + 1 + z + j] == Digit(8 * |m|, j))
  {
    forall j | 0 <= j < 8 ensures Padded(m)[|m| + 1 + Zeros(|m|) + j] == Digit(8 * |m|, j) { LengthBytes(|m|, j); }
  }

  // --- The bit count ---

  /** What `MD5Update` does to the two words of the count. */
  function CountLow(low: word, len: word): word {
    (low + len * 8 % WORD) % WORD
  }

  function CountHigh(low: word, high: word, len: word): word {
    var carried := if CountLow(low, len) < len * 8 % WORD then (high + 1) % WORD else high;
    (carried + len / 0x2000_0000) % WORD
  }

  lemma ModWord(a: int, k: int)
    ensures (a + WORD * k) % WORD == a % WORD
  {
  }

  /** Adding in two halves: the sum's quotient and remainder by 2^32. */
  lemma AddHalves(q: nat, low: word, h: nat, b: word)
    ensures var c := if low + b >= WORD then 1 else 0;
      var t := (WORD * q + low) + (WORD * h + b);
      t / WORD == q + h + c && t % WORD == low + b - WORD * c && (t % WORD < b <==> c == 1)
  {
    var c := if low + b >= WORD then 1 else 0;
    assert (WORD * q + low) + (WORD * h + b) == WORD * (q + h + c) + (low + b - WORD * c);
  }

  /** The two words count bits modulo 2^64. */
  lemma CountAdds(low: word, high: word, len: word, n: nat)
    requires low == 8 * n % WORD && high == 8 * n / WORD % WORD
    ensures CountLow(low, len) == 8 * (n + len) % WORD
    ensures CountHigh(low, high, len) == 8 * (n + len) / WORD % WORD
  {
    var q, b, h := 8 * n / WORD, len * 8 % WORD, len / 0x2000_0000;
    AddHalves(q, low, h, b);
    var c := if low + b >= WORD then 1 else 0;
    assert 8 * (n + len) == (WORD * q + low) + (WORD * h + b);
    assert CountLow(low, len) == low + b - WORD * c;
    ModWord(high + c + h, q / WORD);
    assert high + c + h + WORD * (q / WORD) == q + h + c;
    assert ((high + c) % WORD + h) % WORD == (high + c + h) % WORD by {
      if high + c >= WORD { ModWord(h, 1); }
    }
  }

  lemma IndexOfCount(n: nat)
    ensures (8 * n % WORD) / 8 % 64 == n % 64
  {
    var q, r := 8 * n / WORD, 8 * n % WORD;
    var m := n - 0x2000_0000 * q;
    assert 8 * n == WORD * q + r;
    assert r == 8 * m && r / 8 == m;
    Mod64(n, -0x80_0000 * q);
  }

  lemma Mod64(a: int, k: int)
    ensures (a + 64 * k) % 64 == a % 64
  {
  }

  // --- The context ---

  /** The whole blocks of a message, and what is left over. */
  function Whole(m: seq<byte>): (r: seq<byte>)
    ensures |r| % 64 == 0
  {
    m[..|m| - |m| % 64]
  }

  function Rest(m: seq<byte>): (r: seq<byte>)
    ensures |r| == |m| % 64
  {
    m[|m| - |m| % 64..]
  }

  lemma BlocksSnoc(f: Transform, state: State, a: seq<byte>, b: seq<byte>)
    requires |a| % 64 == 0 && |b| == 64
    ensures |a + b| % 64 == 0 && Blocks(f, state, a + b) == f(Blocks(f, state, a), b)
  {
    var s := a + b;
    assert s[..|s| - 64] == a && s[|s| - 64..] == b;
  }

  /** Filling up the last block. */
  lemma Joined(m: seq<byte>, data: seq<byte>, block: seq<byte>)
    requires |data| == 64 - |m| % 64 && |block| == 64 && block[..64] == Rest(m) + data
    ensures |m + data| % 64 == 0 && Whole(m) + block == m + data
  {
    assert block == block[..64];
    assert m == Whole(m) + Rest(m);
  }

  lemma NextBlock(m: seq<byte>, data: seq<byte>, i: nat)
    requires i + 64 <= |data|
    ensures (m + data[..i]) + data[i..i + 64] == m + data[..i + 64]
  {
  }

  lemma SplitLong(m: seq<byte>, data: seq<byte>, i: nat)
    requires i <= |data| < i + 64 && (|m| + i) % 64 == 0
    ensures Whole(m + data) == m + data[..i] && Rest(m + data) == data[i..]
  {
    assert |m + data| % 64 == |data| - i;
  }

  lemma SplitShort(m: seq<byte>, data: seq<byte>)
    requires |data| < 64 - |m| % 64
    ensures Whole(m + data) == Whole(m) && Rest(m + data) == Rest(m) + data
  {
    assert |m + data| % 64 == |m| % 64 + |data|;
  }

  /** The place at which the block loop of `MD5Update` should stop, when `index` bytes are buffered. */
  function LastPlace(index: nat, len: nat): nat
    requires index < 64
  {
    if len < 64 - index then 0 else 64 - index + (len - (64 - index)) / 64 * 64
  }

  /** The loop guard `i + 63 < inputLen` does not wrap around at the last place. */
  predicate Guarded(index: nat, len: nat)
    requires index < 64
  {
    LastPlace(index, len) + 63 < WORD
  }

  /** The guard in 32-bit arithmetic stops the loop at the last place if and only if it does not wrap around there. */
  lemma GuardStops(index: nat, len: nat)
    requires index < 64 && 64 - index <= len < WORD
    ensures (LastPlace(index, len) + 63) % WORD >= len <==> Guarded(index, len)
    ensures len <= WORD - 64 ==> Guarded(index, len)
  {
    var last := LastPlace(index, len);
    assert last <= len < last + 64;
    if last + 63 >= WORD { assert (last + 63) % WORD == last + 63 - WORD; }
  }

  /** At every place the loop reaches, the guard asks whether a whole block is left. */
  lemma GuardExact(index: nat, len: nat, i: nat)
    requires index < 64 && 64 - index <= len < WORD && Guarded(index, len)
    requires 64 - index <= i <= LastPlace(index, len) && (i - (64 - index)) % 64 == 0
    ensures (i + 63) % WORD < len <==> i + 64 <= len
    ensures i + 64 <= len ==> i + 64 <= LastPlace(index, len)
    ensures i + 64 > len ==> i == LastPlace(index, len)
  {
    var p := 64 - index;
    assert (i - p) == 64 * ((i - p) / 64);
    assert len - p == 64 * ((len - p) / 64) + (len - p) % 64;
  }

  /** With 63 bytes buffered and 2^32 - 63 more, the test is still true at the last place, where no whole block is left. */
  lemma GuardFails()
    ensures var len := 0xFFFF_FFC1;
      var last := LastPlace(63, len);
      last == len && (last + 63) % WORD < len && last + 64 > len
  {
    assert (0xFFFF_FFC1 - 1) / 64 == 0x3FF_FFFF;
  }

  const Padding: seq<byte> := [0x80] + Repeat(0, 63)

  lemma PaddingPrefix(n: nat)
    ensures 1 + Zeros(n) == if n % 64 < 56 then 56 - n % 64 else 120 - n % 64
    ensures Padding[..1 + Zeros(n)] == [0x80] + Repeat(0, Zeros(n))
  {
  }

  class Context {
    const transform: Transform
    var state: State
    /** `count`: the low-order and the high-order word. */
    var low: word
    var high: word
    const buffer: array<byte>
    /** History: the bytes since `Init`. */
    ghost var message: seq<byte>

    /** The context is a function of the bytes received, however they were cut into pieces. */
    ghost predicate Valid()
      reads this, buffer
    {
      && buffer.Length == 64
      && low == 8 * |message| % WORD && high == 8 * |message| / WORD % WORD
      && state == Blocks(transform, Start, Whole(message))
      && buffer[..|message| % 64] == Rest(message)
    }

    constructor (transform: Transform)
      ensures Valid() && message == [] && this.transform == transform && fresh(buffer)
    {
      this.transform := transform;
      state, low, high, message := Start, 0, 0, [];
      buffer := new byte[64](_ => 0);
    }

    /** `MD5Init`. */
    method Init()
      requires buffer.Length == 64
      modifies this
      ensures Valid() && message == []
    {
      low, high := 0, 0;
      state := Start;
      message := [];
    }

    method Copy(at: nat, data: seq<byte>)
      requires buffer.Length == 64 && at + |data| <= 64
      modifies buffer
      ensures buffer[..at + |data|] == old(buffer[..at]) + data
    {
      forall i | 0 <= i < |data| {
        buffer[at + i] := data[i];
      }
      assert buffer[at..at + |data|] == data;
      assert buffer[..at + |data|] == buffer[..at] + buffer[at..at + |data|];
    }

    /** Fill the buffer and transform it. */
    method FillBuffer(index: nat, data: seq<byte>)
      requires Valid() && index == |message| % 64 && |data| == 64 - index
      modifies this`state, buffer
      ensures |message + data| % 64 == 0 && state == Blocks(transform, Start, message + data)
    {
      Copy(index, data);
      Joined(message, data, buffer[..]);
      BlocksSnoc(transform, Start, Whole(message), buffer[..]);
      state := transform(state, buffer[..]);
    }

    /** The part of `MD5Update` that transforms: fill the buffer, then take whole blocks from the input. */
    method TransformBlocks(index: nat, data: seq<byte>) returns (i: nat)
      requires Valid() && index == |message| % 64 && 64 - index <= |data| < WORD && Guarded(index, |data|)
      modifies this`state, buffer
      ensures i == LastPlace(index, |data|) <= |data| < i + 64 && (|message| + i) % 64 == 0
      ensures state == Blocks(transform, Start, message + data[..i])
    {
      var partLen := 64 - index;
      FillBuffer(index, data[..partLen]);
      i := partLen;
      GuardExact(index, |data|, i);
      while (i + 63) % WORD < |data|
        invariant partLen <= i <= LastPlace(index, |data|) && (i - partLen) % 64 == 0 && (|message| + i) % 64 == 0
        invariant state == Blocks(transform, Start, message + data[..i])
        decreases |data| - i
      {
        GuardExact(index, |data|, i);
        NextBlock(message, data, i);
        BlocksSnoc(transform, Start, message + data[..i], data[i..i + 64]);
        state := transform(state, data[i..i + 64]);
        i := i + 64;
      }
      GuardExact(index, |data|, i);
    }

    /** `MD5Update`. */
    method Update(data: seq<byte>)
      requires Valid() && |data| < WORD && Guarded(|message| % 64, |data|)
      modifies this`state, this`low, this`high, this`message, buffer
      ensures Valid() && message == old(message) + data
    {
      IndexOfCount(|message|);
      CountAdds(low, high, |data|, |message|);
      var index: nat := low / 8 % 64;
      var newLow, newHigh := CountLow(low, |data|), CountHigh(low, high, |data|);
      var partLen := 64 - index;
      if |data| >= partLen {
        var i := TransformBlocks(index, data);
        SplitLong(message, data, i);
        Copy(0, data[i..]);
      } else {
        SplitShort(message, data);
        Copy(index, data);
      }
      low, high := newLow, newHigh;
      message := message + data;
    }

    /** `MD5Final`: the digest of everything received; the context is wiped. */
    method Final() returns (digest: seq<byte>)
      requires Valid()
      modifies this, buffer
      ensures digest == Digest(transform, old(message)) && |digest| == 16
      ensures state == [0, 0, 0, 0] && low == high == 0
    {
      ghost var m := message;
      var bits := Encode([low, high], 8);
      assert [low, high][..2] == [low, high];
      assert bits == Bits(|m|);
      IndexOfCount(|m|);
      var index: nat := low / 8 % 64;
      var padLen := if index < 56 then 56 - index else 120 - index;
      PaddingPrefix(|m|);
      Update(Padding[..padLen]);
      Update(bits);
      assert message == Padded(m);
      assert Whole(message) == message;
      digest := Encode(state, 16);
      assert state[..4] == state;
      state, low, high := [0, 0, 0, 0], 0, 0;
      forall i | 0 <= i < 64 {
        buffer[i] := 0;
      }
    }
  }

  // --- Pieces do not matter ---

  function Flatten(chunks: seq<seq<byte>>): seq<byte> {
    if chunks == [] then [] else Flatten(chunks[..|chunks| - 1]) + chunks[|chunks| - 1]
  }

  /** A message hashed in any pieces has the digest of RFC 1321. */
  method DigestOf(transform: Transform, chunks: seq<seq<byte>>) returns (digest: seq<byte>)
    requires forall c :: c in chunks ==> |c| <= WORD - 64
    ensures digest == Digest(transform, Flatten(chunks))
  {
    var context := new Context(transform);
    for i := 0 to |chunks|
      invariant context.Valid() && context.message == Flatten(chunks[..i]) && context.transform == transform
      invariant fresh(context) && fresh(context.buffer)
    {
      assert chunks[..i + 1][..i] == chunks[..i];
      if |chunks[i]| >= 64 - |context.message| % 64 { GuardStops(|context.message| % 64, |chunks[i]|); }
      context.Update(chunks[i]);
    }
    assert chunks[..|chunks|] == chunks;
    digest := context.Final();
  }
}
