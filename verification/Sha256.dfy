/**
 * SHA-256 as a stream (src/core.cpp:115-257) against the definition of FIPS 180-4: padding in
 * section 5.1.1, the hash computation in section 6.2.2.
 */
module Sha256 {
  type Word = bv32
  newtype Byte = b: int | 0 <= b < 256

  /** The round constants of section 4.2.2, eight a row. */
  const K0: seq<Word> := [0x428a2f98, 0x71374491, 0xb5c0fbcf, 0xe9b5dba5, 0x3956c25b, 0x59f111f1, 0x923f82a4, 0xab1c5ed5]
  const K1: seq<Word> := [0xd807aa98, 0x12835b01, 0x243185be, 0x550c7dc3, 0x72be5d74, 0x80deb1fe, 0x9bdc06a7, 0xc19bf174]
  const K2: seq<Word> := [0xe49b69c1, 0xefbe4786, 0x0fc19dc6, 0x240ca1cc, 0x2de92c6f, 0x4a7484aa, 0x5cb0a9dc, 0x76f988da]
  const K3: seq<Word> := [0x983e5152, 0xa831c66d, 0xb00327c8, 0xbf597fc7, 0xc6e00bf3, 0xd5a79147, 0x06ca6351, 0x14292967]
  const K4: seq<Word> := [0x27b70a85, 0x2e1b2138, 0x4d2c6dfc, 0x53380d13, 0x650a7354, 0x766a0abb, 0x81c2c92e, 0x92722c85]
  const K5: seq<Word> := [0xa2bfe8a1, 0xa81a664b, 0xc24b8b70, 0xc76c51a3, 0xd192e819, 0xd6990624, 0xf40e3585, 0x106aa070]
  const K6: seq<Word> := [0x19a4c116, 0x1e376c08, 0x2748774c, 0x34b0bcb5, 0x391c0cb3, 0x4ed8aa4a, 0x5b9cca4f, 0x682e6ff3]
  const K7: seq<Word> := [0x748f82ee, 0x78a5636f, 0x84c87814, 0x8cc70208, 0x90befffa, 0xa4506ceb, 0xbef9a3f7, 0xc67178f2]

  const K: seq<Word> := K0 + K1 + K2 + K3 + K4 + K5 + K6 + K7

  // ----- the functions of section 4.1.2 -----------------------------------------

  /** Addition modulo 2^32. */
  function Plus(x: Word, y: Word): Word { x + y }

  function Sum(a: Word, b: Word, c: Word, d: Word): Word { a + b + c + d }

  function RoundConstant(t: nat): Word
    requires t < 64
  {
    K[t]
  }

  function Rotr(x: Word, n: bv6): Word
    requires 0 < n < 32
  {
    (x >> n) | (x << (32 - n))
  }

  function Ch(x: Word, y: Word, z: Word): Word { (x & y) ^ ((!x) & z) }
  function Maj(x: Word, y: Word, z: Word): Word { (x & y) ^ (x & z) ^ (y & z) }
  function BigSigma0(x: Word): Word { Rotr(x, 2) ^ Rotr(x, 13) ^ Rotr(x, 22) }
  function BigSigma1(x: Word): Word { Rotr(x, 6) ^ Rotr(x, 11) ^ Rotr(x, 25) }
  function SmallSigma0(x: Word): Word { Rotr(x, 7) ^ Rotr(x, 18) ^ (x >> 3) }
  function SmallSigma1(x: Word): Word { Rotr(x, 17) ^ Rotr(x, 19) ^ (x >> 10) }

  // ----- the reference computation ------------------------------------------------

  datatype State = State(a: Word, b: Word, c: Word, d: Word, e: Word, f: Word, g: Word, h: Word)

  const INITIAL := State(0x6a09e667, 0xbb67ae85, 0x3c6ef372, 0xa54ff53a, 0x510e527f, 0x9b05688c, 0x1f83d9ab, 0x5be0cd19)

  function BigEndian(b0: Byte, b1: Byte, b2: Byte, b3: Byte): Word {
    ((b0 as bv32) << 24) | ((b1 as bv32) << 16) | ((b2 as bv32) << 8) | (b3 as bv32)
  }

  /** The message schedule of one block. */
  function Schedule(block: seq<Byte>, t: nat): Word
    requires |block| == 64 && t < 64
  {
    if t < 16 then BigEndian(block[4 * t], block[4 * t + 1], block[4 * t + 2], block[4 * t + 3])
    else Sum(SmallSigma1(Schedule(block, t - 2)), Schedule(block, t - 7), SmallSigma0(Schedule(block, t - 15)), Schedule(block, t - 16))
  }

  function Round(v: State, k: Word, w: Word): State {
    var t1 := Plus(Plus(Plus(Plus(v.h, BigSigma1(v.e)), Ch(v.e, v.f, v.g)), k), w);
    var t2 := Plus(BigSigma0(v.a), Maj(v.a, v.b, v.c));
    State(Plus(t1, t2), v.a, v.b, v.c, Plus(v.d, t1), v.e, v.f, v.g)
  }

  function Rounds(v: State, block: seq<Byte>, n: nat): State
    requires |block| == 64 && n <= 64
  {
    if n == 0 then v else Round(Rounds(v, block, n - 1), RoundConstant(n - 1), Schedule(block, n - 1))
  }

  function Add(u: State, v: State): State {
    State(Plus(u.a, v.a), Plus(u.b, v.b), Plus(u.c, v.c), Plus(u.d, v.d),
          Plus(u.e, v.e), Plus(u.f, v.f), Plus(u.g, v.g), Plus(u.h, v.h))
  }

  function Compressed(v: State, block: seq<Byte>): State
    requires |block| == 64
  {
    Add(v, Rounds(v, block, 64))
  }

  /** The hash value after all the blocks of a message whose length is a multiple of the block size. */
  function Blocks(v: State, bytes: seq<Byte>): State
    requires |bytes| % 64 == 0
  {
    if bytes == [] then v else Compressed(Blocks(v, bytes[..|bytes| - 64]), bytes[|bytes| - 64..])
  }

  const TWO_64: nat := 0x1_0000_0000_0000_0000

  /** The least number of zero bytes that brings n + 1 bytes to eight short of a block boundary. */
  function ZeroCount(n: nat): nat { (119 - n % 64) % 64 }

  function Zeros(k: nat): (r: seq<Byte>)
    ensures |r| == k && forall i :: 0 <= i < k ==> r[i] == 0
  {
    seq(k, _ => 0)
  }

  function LowByte(n: nat): Byte { (n % 256) as Byte }

  /** The i-th byte, most significant first, of a 64-bit number. */
  function LengthByte(bits: nat, i: nat): Byte
    requires i < 8
  {
    LowByte(Shifted(bits, 7 - i))
  }

  /** A number shifted right by k bytes. */
  function Shifted(bits: nat, k: nat): nat {
    if k == 0 then bits else Shifted(bits / 256, k - 1)
  }

  function Power256(k: nat): (p: nat)
    ensures p > 0
  {
    if k == 0 then 1 else 256 * Power256(k - 1)
  }

  function LengthBytes(bits: nat): (r: seq<Byte>)
    ensures |r| == 8 && forall i :: 0 <= i < 8 ==> r[i] == LengthByte(bits, i)
  {
    seq(8, i requires 0 <= i < 8 => LengthByte(bits, i))
  }

  /** What follows the message: a one bit, zeros, and the length in bits. */
  function Tail(n: nat): seq<Byte> {
    [0x80] + Zeros(ZeroCount(n)) + LengthBytes((8 * n) % TWO_64)
  }

  function Padded(message: seq<Byte>): seq<Byte> { message + Tail(|message|) }

  predicate Aligns(n: nat, k: nat) { (n + 1 + k) % 64 == 56 }

  lemma ZeroCountIsLeast(n: nat)
    ensures Aligns(n, ZeroCount(n)) && forall k: nat :: Aligns(n, k) ==> ZeroCount(n) <= k
    ensures |Tail(n)| <= 72 && (n + |Tail(n)|) % 64 == 0
  {
    var r := n % 64;
    assert n == 64 * (n / 64) + r;
    forall k: nat | Aligns(n, k)
      ensures ZeroCount(n) <= k
    {
      if k < 64 {
        assert (r + 1 + k) % 64 == 56;
      }
    }
  }

  function DigestOf(v: State): seq<Byte> {
    WordBytes(v.a) + WordBytes(v.b) + WordBytes(v.c) + WordBytes(v.d)
    + WordBytes(v.e) + WordBytes(v.f) + WordBytes(v.g) + WordBytes(v.h)
  }

  function WordBytes(w: Word): (r: seq<Byte>)
    ensures |r| == 4
  {
    [((w >> 24) & 0xFF) as Byte, ((w >> 16) & 0xFF) as Byte, ((w >> 8) & 0xFF) as Byte, (w & 0xFF) as Byte]
  }

  /** The digest of a message. */
  function Hash(message: seq<Byte>): seq<Byte> {
    ZeroCountIsLeast(|message|);
    DigestOf(Blocks(INITIAL, Padded(message)))
  }

  lemma BlocksAppend(v: State, bytes: seq<Byte>, block: seq<Byte>)
    requires |bytes| % 64 == 0 && |block| == 64
    ensures Blocks(v, bytes + block) == Compressed(Blocks(v, bytes), block)
  {
    assert (bytes + block)[..|bytes|] == bytes && (bytes + block)[|bytes|..] == block;
  }

  /** Folding in the block at n extends the folded prefix by one block. */
  lemma FoldsNext(message: seq<Byte>, n: nat, block: seq<Byte>)
    requires n % 64 == 0 && n + 64 <= |message| && |block| == 64 && block == message[n..n + 64]
    ensures (n + 64) % 64 == 0
    ensures Compressed(Blocks(INITIAL, message[..n]), block) == Blocks(INITIAL, message[..n + 64])
  {
    hide Compressed;
    BlocksAppend(INITIAL, message[..n], block);
    assert message[..n] + block == message[..n + 64];
  }

  lemma LengthAdds(x: nat, y: nat)
    ensures (x % TWO_64 + y) % TWO_64 == (x + y) % TWO_64
  {
    assert x == TWO_64 * (x / TWO_64) + x % TWO_64;
  }

  /** The count of zeros worked out from the buffer alone is the one the whole length needs. */
  lemma ZerosNeeded(n: nat, zeros: nat)
    requires var consumed := n % 64 + 1; zeros == if consumed % 64 <= 56 then 56 - consumed % 64 else 120 - consumed % 64
    ensures zeros == ZeroCount(n) && zeros < 64
  {
    var r := n % 64;
    if r == 63 {
    } else {
      assert (r + 1) % 64 == r + 1;
    }
  }

  lemma FrontOf(m: seq<Byte>, start: nat, data: seq<Byte>, take: nat)
    requires start <= |m| && m[start..] == data && take <= |data|
    ensures data[..take] == m[start..start + take]
  {
    assert forall i :: 0 <= i < |data| ==> data[i] == m[start + i];
  }

  lemma SplitAt(n: nat, rest: nat)
    requires n % 64 == 0 && rest < 64
    ensures (n + rest) % 64 == rest
  {
  }

  /** The four summands of a schedule word may be added in the opposite order. */
  lemma SumReverses(a: Word, b: Word, c: Word, d: Word)
    ensures Sum(a, b, c, d) == Sum(d, c, b, a)
  {
  }

  // ----- padding loses nothing ------------------------------------------------------

  /** The number a byte string stands for, most significant byte first. */
  function Value(bytes: seq<Byte>): nat {
    if bytes == [] then 0 else 256 * Value(bytes[..|bytes| - 1]) + bytes[|bytes| - 1] as nat
  }

  /** Shifting right by one more byte. */
  lemma {:induction false} ShiftsOnce(bits: nat, k: nat)
    ensures Shifted(bits, k + 1) == Shifted(bits, k) / 256
  {
    if k > 0 {
      ShiftsOnce(bits / 256, k - 1);
    }
  }

  lemma {:induction false} ShiftedAway(bits: nat, k: nat)
    requires bits < Power256(k)
    ensures Shifted(bits, k) == 0
  {
    if k > 0 {
      ShiftedAway(bits / 256, k - 1);
    }
  }

  lemma {:induction false} LeadingBytes(bits: nat, i: nat)
    requires i <= 8 && bits < Power256(8)
    ensures Value(LengthBytes(bits)[..i]) == Shifted(bits, 8 - i)
  {
    hide Power256, Shifted;
    if i == 0 {
      ShiftedAway(bits, 8);
    } else {
      LeadingBytes(bits, i - 1);
      var bytes := LengthBytes(bits)[..i];
      assert bytes[..i - 1] == LengthBytes(bits)[..i - 1];
      assert bytes[i - 1] == LengthByte(bits, i - 1);
      ShiftsOnce(bits, 8 - i);
    }
  }

  lemma LengthRecovered(bits: nat)
    requires bits < TWO_64
    ensures Value(LengthBytes(bits)) == bits
  {
    assert Power256(4) == 0x1_0000_0000;
    assert Power256(6) == 0x1_0000_0000 * 65536;
    assert Power256(8) == TWO_64;
    LeadingBytes(bits, 8);
    assert LengthBytes(bits)[..8] == LengthBytes(bits);
  }

  /** Different messages are never hashed as the same blocks. */
  lemma PaddingInjective(m1: seq<Byte>, m2: seq<Byte>)
    requires 8 * |m1| < TWO_64 && 8 * |m2| < TWO_64
    requires Padded(m1) == Padded(m2)
    ensures m1 == m2
  {
    hide ZeroCount, Value;
    EndsInLength(m1);
    EndsInLength(m2);
    LengthRecovered(8 * |m1|);
    LengthRecovered(8 * |m2|);
    assert m1 == Padded(m1)[..|m1|] == Padded(m2)[..|m2|] == m2;
  }

  lemma EndsInLength(m: seq<Byte>)
    requires 8 * |m| < TWO_64
    ensures |Padded(m)| >= 8 && Padded(m)[|Padded(m)| - 8..] == LengthBytes(8 * |m|)
  {
    hide LengthByte, ZeroCount;
    assert Padded(m) == (m + [0x80] + Zeros(ZeroCount(|m|))) + LengthBytes(8 * |m|);
  }

  // ----- the streaming form -----------------------------------------------------------

  class Hasher {
    var state: State
    const buffer: array<Byte>
    var buffered: nat
    var bitLength: nat
    /** Everything consumed so far. */
    ghost var message: seq<Byte>

    /** The running state and buffer account for exactly the message consumed so far. */
    ghost predicate Valid()
      reads this, buffer
    {
      && buffer.Length == 64
      && buffered == |message| % 64
      && buffer[..buffered] == message[|message| - buffered..]
      && state == Blocks(INITIAL, message[..|message| - buffered])
      && bitLength == (8 * |message|) % TWO_64
    }

    constructor ()
      ensures Valid() && message == [] && fresh(buffer)
    {
      hide Blocks, Valid;
      state := INITIAL;
      buffer := new Byte[64];
      buffered, bitLength, message := 0, 0, [];
      new;
      Started();
    }

    /** One block: the 64-word schedule, then 64 rounds added into the state. */
    method Compress(block: seq<Byte>)
      requires |block| == 64
      modifies this`state
      ensures state == Compressed(old(state), block)
    {
      hide RoundConstant, Plus, BigSigma0, BigSigma1, Ch, Maj;
      var w := ExpandSchedule(block);
      var a, b, c, d := state.a, state.b, state.c, state.d;
      var e, f, g, h := state.e, state.f, state.g, state.h;
      for i := 0 to 64
        invariant State(a, b, c, d, e, f, g, h) == Rounds(state, block, i)
      {
        var s1 := BigSigma1(e);
        var ch := Ch(e, f, g);
        var temp1 := Plus(Plus(Plus(Plus(h, s1), ch), RoundConstant(i)), w[i]);
        var s0 := BigSigma0(a);
        var maj := Maj(a, b, c);
        var temp2 := Plus(s0, maj);
        h := g;
        g := f;
        f := e;
        e := Plus(d, temp1);
        d := c;
        c := b;
        b := a;
        a := Plus(temp1, temp2);
      }
      state := State(Plus(state.a, a), Plus(state.b, b), Plus(state.c, c), Plus(state.d, d),
                     Plus(state.e, e), Plus(state.f, f), Plus(state.g, g), Plus(state.h, h));
    }

    /** The state is that of the first n bytes of m. */
    ghost predicate Folded(m: seq<Byte>, n: nat)
      reads this`state
    {
      n <= |m| && n % 64 == 0 && state == Blocks(INITIAL, m[..n])
    }

    method CompressNext(block: seq<Byte>, ghost m: seq<Byte>, ghost n: nat)
      requires Folded(m, n) && n + 64 <= |m| && block == m[n..n + 64]
      modifies this`state
      ensures Folded(m, n + 64)
    {
      FoldsNext(m, n, block);
      hide Compressed, Blocks;
      Compress(block);
    }

    /** Copies bytes into the buffer from position at. */
    method Copy(at: nat, data: seq<Byte>)
      requires at + |data| <= buffer.Length
      modifies buffer
      ensures buffer[..] == old(buffer[..at]) + data + old(buffer[at + |data|..])
    {
      for i := 0 to |data|
        invariant forall k :: 0 <= k < at || at + i <= k < buffer.Length ==> buffer[k] == old(buffer[k])
        invariant forall k :: at <= k < at + i ==> buffer[k] == data[k - at]
      {
        buffer[at + i] := data[i];
      }
    }

    /** The state has folded the first n bytes of m, and the buffer holds the bytes up to end. */
    ghost predicate Holds(m: seq<Byte>, n: nat, end: nat)
      reads this`state, this`buffered, buffer
    {
      && buffer.Length == 64 && buffered < 64
      && end <= |m| && n + buffered == end
      && buffer[..buffered] == m[n..end]
      && Folded(m, n)
    }

    /** Fills a part-filled buffer from data, and folds it in once it is full. */
    method TopUp(data: seq<Byte>, ghost m: seq<Byte>, ghost n: nat) returns (offset: nat, ghost folded: nat)
      requires |data| <= |m| && Holds(m, n, |m| - |data|) && m[|m| - |data|..] == data
      requires buffered > 0
      modifies this`state, this`buffered, buffer
      ensures offset <= |data| && Holds(m, folded, |m| - |data| + offset)
      ensures buffered == 0 || offset == |data|
      ensures folded + buffered == |m| - |data| + offset
    {
      hide Folded;
      var need := 64 - buffered;
      var take := if |data| < need then |data| else need;
      ghost var start := |m| - |data|;
      Copy(buffered, data[..take]);
      buffered := buffered + take;
      offset, folded := take, n;
      assert buffer[..buffered] == m[n..start] + data[..take];
      FrontOf(m, start, data, take);
      assert m[n..start] + m[start..start + take] == m[n..start + take];
      if buffered == 64 {
        assert buffer[..] == m[n..n + 64];
        FoldedBound(m, n);
        CompressNext(buffer[..], m, n);
        folded := n + 64;
        buffered := 0;
      }
    }

    /** Folds in a whole block straight from the data, past the empty buffer. */
    method FoldWhole(block: seq<Byte>, ghost m: seq<Byte>, ghost n: nat)
      requires n + 64 <= |m| && block == m[n..n + 64]
      requires Holds(m, n, n)
      modifies this`state
      ensures Holds(m, n + 64, n + 64)
    {
      hide Blocks;
      CompressNext(block, m, n);
    }

    /** Puts the last bytes of m, fewer than a block, into the empty buffer. */
    method Keep(rest: seq<Byte>, ghost m: seq<Byte>, ghost n: nat)
      requires n <= |m| && rest == m[n..] && |rest| < 64
      requires Holds(m, n, n)
      modifies this`buffered, buffer
      ensures Holds(m, n, |m|)
    {
      hide Blocks;
      var remaining := |rest|;
      Copy(0, rest);
      buffered := remaining;
      assert buffer[..buffered] == rest;
    }

    lemma FoldedBound(m: seq<Byte>, n: nat)
      requires Folded(m, n)
      ensures n <= |m| && n % 64 == 0
    {
    }

    /** Consumes data: tops the buffer up, folds whole blocks straight from data, keeps the rest. */
    method Update(data: seq<Byte>)
      requires Valid()
      modifies this`state, this`buffered, this`bitLength, this`message, buffer
      ensures Valid() && message == old(message) + data
    {
      hide Blocks, Folded, Holds, Valid;
      Extended(data);
      ghost var m := message + data;
      ghost var base: nat := |message|;
      ghost var n: nat := base - buffered;
      if data == [] {
        assert m == message;
        return;
      }
      LengthAdds(8 * |message|, 8 * |data|);
      bitLength := (bitLength + 8 * |data|) % TWO_64;
      message := m;
      var offset := 0;
      if buffered > 0 {
        offset, n := TopUp(data, m, n);
      }
      while offset + 64 <= |data|
        invariant offset <= |data| && n + buffered == base + offset && Holds(m, n, base + offset)
        invariant buffered == 0 || offset == |data|
        invariant message == m && bitLength == (8 * |m|) % TWO_64
      {
        assert data[offset..offset + 64] == m[n..n + 64];
        FoldWhole(data[offset..offset + 64], m, n);
        offset := offset + 64;
        n := n + 64;
      }
      if offset < |data| {
        assert data[offset..] == m[n..];
        Keep(data[offset..], m, n);
      }
      Settled(m, n);
    }

    /** Pads, feeds the padding through Update, and writes the state out. */
    method Finish() returns (digest: seq<Byte>)
      requires Valid()
      modifies this`state, this`buffered, this`bitLength, this`message, buffer
      ensures digest == Hash(old(message))
    {
      hide Blocks, ZeroCount, LengthByte, DigestOf;
      ghost var n := |message|;
      var totalBits := bitLength;
      var tail := new Byte[72];
      tail[0] := 0x80;
      var tailLength := 1;
      var consumed := buffered + 1;
      var zeros := if consumed % 64 <= 56 then 56 - consumed % 64 else 120 - consumed % 64;
      ZerosNeeded(n, zeros);
      for i := 0 to zeros
        modifies tail
        invariant tailLength == i + 1 && tail[..tailLength] == [0x80] + Zeros(i)
      {
        tail[tailLength] := 0;
        tailLength := tailLength + 1;
      }
      for i := 0 to 8
        modifies tail
        invariant tailLength == 1 + zeros + i
        invariant tail[..tailLength] == [0x80] + Zeros(zeros) + LengthBytes(totalBits)[..i]
      {
        tail[tailLength] := LengthByte(totalBits, i);
        tailLength := tailLength + 1;
      }
      assert LengthBytes(totalBits)[..8] == LengthBytes(totalBits);
      assert tail[..tailLength] == Tail(n);
      Update(tail[..tailLength]);
      AllFolded(n);
      digest := DigestOf(state);
    }

    /** A stream whose padded message is complete has folded all of it. */
    lemma AllFolded(n: nat)
      requires Valid() && |message| == n + |Tail(n)|
      ensures |message| % 64 == 0 && state == Blocks(INITIAL, message)
    {
      hide Blocks;
      ZeroCountIsLeast(n);
      assert buffered == 0 && message[..|message|] == message;
    }

    lemma Started()
      requires buffer.Length == 64 && state == INITIAL && buffered == bitLength == 0 && message == []
      ensures Valid()
    {
      hide Compressed;
      assert message[..0] == [] && buffer[..0] == message[0..];
    }

    /** A valid stream holds the same of any longer message. */
    lemma Extended(data: seq<Byte>)
      requires Valid()
      ensures buffered <= |message| && bitLength == (8 * |message|) % TWO_64
      ensures Holds(message + data, |message| - buffered, |message|)
    {
      hide Blocks;
      var n := |message| - buffered;
      assert n % 64 == 0;
      assert (message + data)[..n] == message[..n] && (message + data)[n..|message|] == message[n..];
    }

    /** Holding all of the message is being valid. */
    lemma Settled(m: seq<Byte>, n: nat)
      requires Holds(m, n, |m|) && message == m && bitLength == (8 * |m|) % TWO_64
      ensures Valid()
    {
      hide Blocks;
      SplitAt(n, buffered);
      assert m[n..|m|] == m[n..] && |m| == n + buffered;
    }
  }

  lemma FirstWord(block: seq<Byte>, t: nat)
    requires |block| == 64 && t < 16
    ensures Schedule(block, t) == BigEndian(block[t * 4], block[t * 4 + 1], block[t * 4 + 2], block[t * 4 + 3])
  {
    hide BigEndian;
  }

  lemma LaterWord(block: seq<Byte>, t: nat)
    requires |block| == 64 && 16 <= t < 64
    ensures Schedule(block, t)
      == Sum(SmallSigma1(Schedule(block, t - 2)), Schedule(block, t - 7), SmallSigma0(Schedule(block, t - 15)), Schedule(block, t - 16))
  {
    hide Sum, SmallSigma0, SmallSigma1, BigEndian;
  }

  method ExpandSchedule(block: seq<Byte>) returns (w: seq<Word>)
    requires |block| == 64
    ensures |w| == 64 && forall t: nat :: t < 64 ==> w[t] == Schedule(block, t)
  {
    hide Schedule, Sum, SmallSigma0, SmallSigma1, BigEndian;
    w := [];
    for i := 0 to 16
      invariant |w| == i && forall t: nat :: t < i ==> w[t] == Schedule(block, t)
    {
      FirstWord(block, i);
      w := w + [BigEndian(block[i * 4], block[i * 4 + 1], block[i * 4 + 2], block[i * 4 + 3])];
    }
    for i := 16 to 64
      invariant |w| == i && forall t: nat :: t < i ==> w[t] == Schedule(block, t)
    {
      var s0 := SmallSigma0(w[i - 15]);
      var s1 := SmallSigma1(w[i - 2]);
      SumReverses(w[i - 16], s0, w[i - 7], s1);
      LaterWord(block, i);
      w := w + [Sum(w[i - 16], s0, w[i - 7], s1)];
    }
  }

  // ----- clients ---------------------------------------------------------------------------

  function Flatten(pieces: seq<seq<Byte>>): seq<Byte> {
    if pieces == [] then [] else Flatten(pieces[..|pieces| - 1]) + pieces[|pieces| - 1]
  }

  /** However a message is split across calls, the digest is that of the whole message. */
  method HashPieces(pieces: seq<seq<Byte>>) returns (digest: seq<Byte>)
    ensures digest == Hash(Flatten(pieces))
  {
    hide Hash;
    var hasher := new Hasher();
    for i := 0 to |pieces|
      invariant hasher.Valid() && fresh(hasher) && fresh(hasher.buffer)
      invariant hasher.message == Flatten(pieces[..i])
    {
      assert pieces[..i + 1][..i] == pieces[..i];
      hasher.Update(pieces[i]);
    }
    assert pieces[..|pieces|] == pieces;
    digest := hasher.Finish();
  }
}
