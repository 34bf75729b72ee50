/**
 * The frame around a generation record (src/store.cpp:17-45, 688-760, 1276-1310): a header of 128 bytes
 * with lengths, checksums and digests, then the payload. The checksum and the digest are parameters.
 */
module RecordFormat {
  import opened Sha256
  import opened Identities
  import Disk

  type Bytes = seq<Byte>

  const HEADER_BYTES := 128
  const FORMAT_VERSION := 1
  const MAGIC: Bytes := [73, 70, 71, 69, 78, 49, 13, 10]

  datatype ErrorCode = LimitExceeded | Truncated | WrongMagic | WrongVersion | WrongHeaderSize | HeaderChecksum | WrongLength | PayloadChecksum | PayloadDigest
  type Outcome<+T> = Result<T, ErrorCode>

  /** What a frame carries, with the reserved bytes that no check looks at. */
  datatype Frame = Frame(generation: nat, head: Bytes, payload: Bytes, reserved: Bytes, padding: Bytes)

  /** The checks of a record: a 32-bit checksum and a 32-byte digest. */
  datatype Checks = Checks(crc: Bytes -> nat, digest: Bytes -> Bytes)

  ghost predicate Sound(c: Checks) { forall s: Bytes :: c.crc(s) < Power256(4) && |c.digest(s)| == 32 }

  // ----- little-endian numbers -------------------------------------------------------

  /** A number in k bytes, least significant first. */
  function Put(n: nat, k: nat): (r: Bytes)
    ensures |r| == k
  {
    if k == 0 then [] else [(n % 256) as Byte] + Put(n / 256, k - 1)
  }

  function Read(s: Bytes): nat { if s == [] then 0 else s[0] as nat + 256 * Read(s[1..]) }

  lemma {:induction false} PutRead(n: nat, k: nat)
    requires n < Power256(k)
    ensures Read(Put(n, k)) == n
  {
    if k > 0 {
      PutRead(n / 256, k - 1);
      assert Put(n, k)[1..] == Put(n / 256, k - 1);
    }
  }

  lemma {:induction false} ReadPut(s: Bytes)
    ensures Read(s) < Power256(|s|) && Put(Read(s), |s|) == s
  {
    if s != [] {
      ReadPut(s[1..]);
      var n := Read(s);
      assert n % 256 == s[0] as nat && n / 256 == Read(s[1..]);
      assert s == [s[0]] + s[1..];
    }
  }

  // ----- writing ---------------------------------------------------------------------------

  /** The header up to its own checksum. */
  function Covered(c: Checks, f: Frame): Bytes {
    MAGIC + Put(FORMAT_VERSION, 4) + Put(HEADER_BYTES, 4) + Put(f.generation, 8) + Put(|f.payload|, 8)
    + Put(c.crc(f.payload), 4) + f.reserved + c.digest(f.payload) + f.head + f.padding
  }

  function Encode(c: Checks, f: Frame): Bytes { Covered(c, f) + Put(c.crc(Covered(c, f)), 4) + f.payload }

  ghost predicate FrameOk(f: Frame) {
    && f.generation < Power256(8) && |f.payload| <= Disk.MAX_RECORD_BYTES
    && |f.head| == 32 && |f.reserved| == 4 && |f.padding| == 20
  }

  /** A commit writes zeros in the reserved places. */
  function Written(generation: nat, head: Bytes, payload: Bytes): Frame {
    Frame(generation, head, payload, Put(0, 4), seq(20, _ => 0))
  }

  // ----- reading -----------------------------------------------------------------------------

  function Decode(c: Checks, raw: Bytes): Outcome<Frame> {
    if |raw| > HEADER_BYTES + Disk.MAX_RECORD_BYTES then Failure(LimitExceeded)
    else if |raw| < HEADER_BYTES then Failure(Truncated)
    else if raw[..8] != MAGIC then Failure(WrongMagic)
    else if Read(raw[8..12]) != FORMAT_VERSION then Failure(WrongVersion)
    else if Read(raw[12..16]) != HEADER_BYTES then Failure(WrongHeaderSize)
    else if Read(raw[124..128]) != c.crc(raw[..124]) then Failure(HeaderChecksum)
    else if |raw| != HEADER_BYTES + Read(raw[24..32]) then Failure(WrongLength)
    else if c.crc(raw[128..]) != Read(raw[32..36]) then Failure(PayloadChecksum)
    else if c.digest(raw[128..]) != raw[40..72] then Failure(PayloadDigest)
    else Success(Frame(Read(raw[16..24]), raw[72..104], raw[128..], raw[36..40], raw[104..124]))
  }

  /** The fields of a frame stand where they are read. */
  lemma Layout(c: Checks, f: Frame)
    requires Sound(c) && FrameOk(f)
    ensures var raw := Encode(c, f);
      && |raw| == HEADER_BYTES + |f.payload|
      && raw[..8] == MAGIC && raw[8..12] == Put(FORMAT_VERSION, 4) && raw[12..16] == Put(HEADER_BYTES, 4)
      && raw[16..24] == Put(f.generation, 8) && raw[24..32] == Put(|f.payload|, 8)
      && raw[32..36] == Put(c.crc(f.payload), 4) && raw[36..40] == f.reserved
      && raw[40..72] == c.digest(f.payload) && raw[72..104] == f.head && raw[104..124] == f.padding
      && raw[..124] == Covered(c, f) && raw[124..128] == Put(c.crc(Covered(c, f)), 4) && raw[128..] == f.payload
  {
    hide Put, Power256;
    assert |c.digest(f.payload)| == 32;
  }

  lemma Sizes()
    ensures Power256(4) == 0x1_0000_0000 && Power256(8) == 0x1_0000_0000_0000_0000
  {
    assert Power256(2) == 65536;
    assert Power256(4) == 65536 * 65536;
    assert Power256(6) == 65536 * 65536 * 65536;
  }

  /** What is written is read back. */
  lemma RoundTrip(c: Checks, f: Frame)
    requires Sound(c) && FrameOk(f)
    ensures Decode(c, Encode(c, f)) == Success(f)
  {
    hide Power256, Put, Read, Encode, Covered;
    Layout(c, f);
    Sizes();
    PutRead(FORMAT_VERSION, 4);
    PutRead(HEADER_BYTES, 4);
    PutRead(f.generation, 8);
    PutRead(|f.payload|, 8);
    PutRead(c.crc(f.payload), 4);
    PutRead(c.crc(Covered(c, f)), 4);
  }

  /** A frame above the bound is refused before anything else is looked at. */
  lemma OversizedFails(c: Checks, f: Frame)
    requires Sound(c) && FrameOk(f.(payload := [])) && |f.payload| > Disk.MAX_RECORD_BYTES
    ensures Decode(c, Encode(c, f)).Failure?
  {
    assert |c.digest(f.payload)| == 32;
  }

  /** Nothing bounds the payload when it is written; the frame of one above the bound is refused. */
  lemma ReadableIff(c: Checks, f: Frame)
    requires Sound(c) && FrameOk(f.(payload := []))
    ensures Decode(c, Encode(c, f)) == Success(f) <==> |f.payload| <= Disk.MAX_RECORD_BYTES
  {
    if |f.payload| <= Disk.MAX_RECORD_BYTES {
      RoundTrip(c, f);
    } else {
      assert |c.digest(f.payload)| == 32;
    }
  }

  /** Whatever is read was written: only frames are accepted. */
  lemma DecodeIff(c: Checks, raw: Bytes, f: Frame)
    requires Sound(c)
    ensures Decode(c, raw) == Success(f) <==> FrameOk(f) && raw == Encode(c, f)
  {
    hide Power256, Put, Read, Encode, Covered;
    if FrameOk(f) && raw == Encode(c, f) {
      RoundTrip(c, f);
    }
    if Decode(c, raw) == Success(f) {
      ReadPut(raw[8..12]);
      ReadPut(raw[12..16]);
      ReadPut(raw[16..24]);
      ReadPut(raw[24..32]);
      ReadPut(raw[32..36]);
      ReadPut(raw[124..128]);
      CoveredIs(c, raw, f);
      EncodedIs(c, raw, f);
    }
  }

  lemma CoveredIs(c: Checks, raw: Bytes, f: Frame)
    requires |raw| >= 128 && |c.digest(f.payload)| == 32
    requires raw[..8] == MAGIC && raw[8..12] == Put(FORMAT_VERSION, 4) && raw[12..16] == Put(HEADER_BYTES, 4)
    requires raw[16..24] == Put(f.generation, 8) && raw[24..32] == Put(|f.payload|, 8)
    requires raw[32..36] == Put(c.crc(f.payload), 4) && raw[36..40] == f.reserved
    requires raw[40..72] == c.digest(f.payload) && raw[72..104] == f.head && raw[104..124] == f.padding
    ensures raw[..124] == Covered(c, f)
  {
    hide Put;
    assert raw[..124] == raw[..8] + raw[8..12] + raw[12..16] + raw[16..24] + raw[24..32] + raw[32..36] + raw[36..40] + raw[40..72] + raw[72..104] + raw[104..124];
  }

  lemma EncodedIs(c: Checks, raw: Bytes, f: Frame)
    requires |raw| >= 128 && raw[..124] == Covered(c, f) && raw[124..128] == Put(c.crc(Covered(c, f)), 4) && raw[128..] == f.payload
    ensures raw == Encode(c, f)
  {
    hide Put, Covered;
  }

  /** A record cut short, at whatever byte, is never accepted. */
  lemma CutShortIsRejected(c: Checks, f: Frame, n: nat)
    requires Sound(c) && FrameOk(f) && n < |Encode(c, f)|
    ensures Decode(c, Encode(c, f)[..n]).Failure?
  {
    hide Power256, Put, Read, Encode, Covered;
    var raw := Encode(c, f);
    Layout(c, f);
    Sizes();
    PutRead(|f.payload|, 8);
    if n >= HEADER_BYTES {
      assert raw[..n][24..32] == raw[24..32];
    }
  }

  // ----- the bytes of a committed record ------------------------------------------------------------

  lemma DivideTwice(n: nat, k: nat)
    ensures n / 256 / Power256(k) == n / Power256(k + 1)
  {
    var p := Power256(k);
    var q, r := n / 256 / p, n / 256 % p;
    assert n / 256 == p * q + r;
    assert n == 256 * (p * q + r) + n % 256;
    assert n == (256 * p) * q + (256 * r + n % 256) && 0 <= 256 * r + n % 256 < 256 * p;
    QuotientIs(n, 256 * p, q, 256 * r + n % 256);
  }

  lemma QuotientIs(n: nat, d: nat, q: nat, r: nat)
    requires d > 0 && n == d * q + r && r < d
    ensures n / d == q
  {
    var e: int := n / d - q;
    assert d * (n / d) + n % d == d * q + r;
    assert d * e == r - n % d;
    assert e >= 1 ==> d * e >= d;
    assert e <= -1 ==> d * e + d <= 0;
  }

  /** Byte i holds the i-th digit of the number to the base 256, the lowest first. */
  lemma {:induction false} PutDigit(n: nat, k: nat, i: nat)
    requires i < k
    ensures Put(n, k)[i] as nat == n / Power256(i) % 256
  {
    if i > 0 {
      PutDigit(n / 256, k - 1, i - 1);
      DivideTwice(n, i - 1);
    }
  }

  predicate LowestFirst(s: Bytes, n: nat) {
    forall i :: 0 <= i < |s| ==> s[i] as nat == n / Power256(i) % 256
  }

  lemma PutLowestFirst(n: nat, k: nat)
    ensures LowestFirst(Put(n, k), n)
  {
    forall i | 0 <= i < k
      ensures Put(n, k)[i] as nat == n / Power256(i) % 256
    {
      PutDigit(n, k, i);
    }
  }

  /** Every byte of the header a commit writes, field by field. */
  lemma HeaderBytes(c: Checks, generation: nat, head: Bytes, payload: Bytes)
    requires Sound(c) && |head| == 32 && generation < Power256(8) && |payload| <= Disk.MAX_RECORD_BYTES
    ensures var raw := Encode(c, Written(generation, head, payload));
      && |raw| == 128 + |payload|
      && raw[..8] == [0x49, 0x46, 0x47, 0x45, 0x4E, 0x31, 0x0D, 0x0A]
      && raw[8..12] == [1, 0, 0, 0] && raw[12..16] == [128, 0, 0, 0]
      && LowestFirst(raw[16..24], generation) && LowestFirst(raw[24..32], |payload|)
      && LowestFirst(raw[32..36], c.crc(payload)) && raw[36..40] == [0, 0, 0, 0]
      && raw[40..72] == c.digest(payload) && raw[72..104] == head
      && (forall i :: 104 <= i < 124 ==> raw[i] == 0)
      && LowestFirst(raw[124..128], c.crc(raw[..124])) && raw[128..] == payload
  {
    hide Power256, Put, LowestFirst, Covered, Encode;
    var f := Written(generation, head, payload);
    Layout(c, f);
    SmallPuts();
    PutLowestFirst(generation, 8);
    PutLowestFirst(|payload|, 8);
    PutLowestFirst(c.crc(payload), 4);
    PutLowestFirst(c.crc(Covered(c, f)), 4);
    var raw := Encode(c, f);
    assert forall i :: 104 <= i < 124 ==> raw[i] == raw[104..124][i - 104];
  }

  lemma SmallPuts()
    ensures Put(0, 4) == [0, 0, 0, 0] && Put(1, 4) == [1, 0, 0, 0] && Put(128, 4) == [128, 0, 0, 0]
  {
    assert Put(0, 2) == [0, 0] && Put(0, 3) == [0, 0, 0];
  }
}
