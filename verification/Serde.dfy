/**
 Signed messages on the wire: the bytes that are signed, the bucketed padding and
 its bounded fixpoint iteration, and the size of everything `serialize` accepts.
 */
module Serde {
  import opened Encoding
  import opened Transcript

  const MAX_UINT16 := 65535
  const RESERVED_OVERHEAD := 4096
  const ENCRYPTION_OVERHEAD := 40
  const FRAME_TARGET := 65495        // MAX_UINT16 - ENCRYPTION_OVERHEAD
  const MAX_TRANSPORT := 61439       // MAX_UINT16 - RESERVED_OVERHEAD
  const SIGN_INFO: Bytes := Ascii("kamune/transport-sign/v1")

  const BUCKETS: seq<nat> := [512, 1024, 4096, 16384, 32768, 65495]
  const BUMP_PROBABILITIES: seq<nat> := [80, 15, 4, 1]

  // ---- What is signed ----

  function SigningInput(metadata: Bytes, data: Bytes): (r: Bytes)
  {
    SIGN_INFO + (Uvarint(|metadata|) + (metadata + data))
  }

  /** The signed bytes determine the metadata and the message. */
  lemma SigningInputInjective(m: Bytes, d: Bytes, m': Bytes, d': Bytes)
    requires SigningInput(m, d) == SigningInput(m', d')
    ensures m == m' && d == d'
  {
    SplitAt(SIGN_INFO, SIGN_INFO, Uvarint(|m|) + (m + d), Uvarint(|m'|) + (m' + d'));
    UvarintPrefixFree(|m|, |m'|, m + d, m' + d');
    SplitAt(m, m', d, d');
  }

  /** What is signed is never what is hashed for a handshake: the labels differ. */
  lemma SignedIsNotTranscript(m: Bytes, d: Bytes, req: Handshake, resp: Handshake)
    ensures SigningInput(m, d) != TranscriptBytes(req, resp)
    ensures SIGN_INFO <= SigningInput(m, d) && HANDSHAKE_INFO <= TranscriptBytes(req, resp)
  {
    assert SigningInput(m, d)[7] == SIGN_INFO[7] == 116;
    assert TranscriptBytes(req, resp)[7] == HANDSHAKE_INFO[7] == 104;
  }

  // ---- Sizes ----

  /** Bytes of a varint of `n`; the loop of varintSize. */
  function VarintSize(n: nat): (r: nat)
    ensures r == |Uvarint(n)|
    ensures r >= 1
  {
    if n < 128 then 1 else 1 + VarintSize(n / 128)
  }

  method ComputeVarintSize(n0: nat) returns (size: nat)
    ensures size == VarintSize(n0)
  {
    var n := n0;
    size := 1;
    while n >= 128
      invariant VarintSize(n0) == size - 1 + VarintSize(n)
    {
      n := n / 128;
      size := size + 1;
    }
  }

  lemma VarintSizes(n: nat)
    ensures n < 128 ==> VarintSize(n) == 1
    ensures 128 <= n < 16384 ==> VarintSize(n) == 2
    ensures 16384 <= n < 2097152 ==> VarintSize(n) == 3
  {
    if 128 <= n < 2097152 {
      assert n / 128 < 16384;
      if n >= 16384 {
        assert 128 <= n / 128;
        assert n / 128 / 128 < 128;
      }
    }
  }

  /** A length-delimited protobuf field with a one-byte tag; empty fields are omitted. */
  function FieldSize(len: nat): (r: nat)
  {
    if len == 0 then 0 else 1 + VarintSize(len) + len
  }

  /** proto.Size of a SignedTransport. */
  function TransportSize(data: nat, signature: nat, metadata: nat, padding: nat): (r: nat)
  {
    FieldSize(data) + FieldSize(signature) + FieldSize(metadata) + FieldSize(padding)
  }

  /** A length-delimited field as it is marshalled. */
  function ProtoField(tag: Byte, data: Bytes): (r: Bytes)
  {
    if data == [] then [] else [tag] + Uvarint(|data|) + data
  }

  /** The marshalled SignedTransport: fields 1 to 4 in order. */
  function Marshal(data: Bytes, signature: Bytes, metadata: Bytes, padding: Bytes): (r: Bytes)
  {
    ProtoField(10, data) + ProtoField(18, signature) + ProtoField(26, metadata) + ProtoField(34, padding)
  }

  /** The size that padding works with is the length of what is sent. */
  lemma MarshalledSize(data: Bytes, signature: Bytes, metadata: Bytes, padding: Bytes)
    ensures |Marshal(data, signature, metadata, padding)| ==
            TransportSize(|data|, |signature|, |metadata|, |padding|)
  {
  }

  // ---- Bucket choice ----

  /** Index of the smallest bucket that fits, else the last. */
  method NaturalBucketIndex(baseSize: nat) returns (i: nat)
    ensures i < |BUCKETS|
    ensures forall j :: 0 <= j < i ==> BUCKETS[j] < baseSize
    ensures baseSize <= FRAME_TARGET ==> baseSize <= BUCKETS[i]
    ensures baseSize > FRAME_TARGET ==> i == |BUCKETS| - 1
  {
    i := 0;
    while i < |BUCKETS|
      invariant 0 <= i <= |BUCKETS|
      invariant forall j :: 0 <= j < i ==> BUCKETS[j] < baseSize
    {
      if baseSize <= BUCKETS[i] {
        assert i < 5 ==> BUCKETS[i] <= FRAME_TARGET;
        return;
      }
      i := i + 1;
    }
    i := |BUCKETS| - 1;
  }

  /** The bump drawn for a random number below 100: probabilities 80, 15, 4 and 1 percent. */
  method SelectBump(n0: nat) returns (i: nat)
    ensures i < 4
    ensures n0 < 80 ==> i == 0
    ensures 80 <= n0 < 95 ==> i == 1
    ensures 95 <= n0 < 99 ==> i == 2
    ensures n0 >= 99 ==> i == 3
  {
    var n := n0;
    i := 0;
    while i < |BUMP_PROBABILITIES|
      invariant 0 <= i <= 4
      invariant n + (if i > 0 then 80 else 0) + (if i > 1 then 15 else 0)
                + (if i > 2 then 4 else 0) + (if i > 3 then 1 else 0) == n0
    {
      if n < BUMP_PROBABILITIES[i] {
        return;
      }
      n := n - BUMP_PROBABILITIES[i];
      i := i + 1;
    }
    i := |BUMP_PROBABILITIES| - 1;
  }

  /** How far above the smallest bucket a draw below 100 goes. */
  function Bump(random: nat): (r: nat)
  {
    if random < 80 then 0 else if random < 95 then 1 else if random < 99 then 2 else 3
  }

  /** `target` is `steps` buckets above the smallest one that fits, or the last one. */
  ghost predicate Above(baseSize: nat, steps: nat, target: nat)
  {
    exists i, j ::
      && 0 <= i <= j < |BUCKETS| && target == BUCKETS[j]
      && (forall k :: 0 <= k < i ==> BUCKETS[k] < baseSize)
      && (baseSize <= FRAME_TARGET ==> baseSize <= BUCKETS[i])
      && (baseSize > FRAME_TARGET ==> i == |BUCKETS| - 1)
      && (j == i + steps || (j == |BUCKETS| - 1 && i + steps > j))
  }

  method SelectBucketSize(baseSize: nat, random: nat) returns (target: nat)
    ensures target in BUCKETS && target <= FRAME_TARGET
    ensures baseSize <= FRAME_TARGET ==> baseSize <= target
    ensures Above(baseSize, Bump(random), target)
    ensures random < 80 && baseSize <= FRAME_TARGET ==> forall b :: b in BUCKETS && baseSize <= b ==> target <= b
  {
    var idx := NaturalBucketIndex(baseSize);
    var natural := idx;
    var bump := SelectBump(random);
    idx := idx + bump;
    if idx >= |BUCKETS| {
      idx := |BUCKETS| - 1;
    }
    assert BUCKETS[natural] <= BUCKETS[idx];
    target := BUCKETS[idx];
    assert Above(baseSize, Bump(random), target);
    if random < 80 && baseSize <= FRAME_TARGET {
      forall b | b in BUCKETS && baseSize <= b
        ensures target <= b
      {
        var j :| 0 <= j < |BUCKETS| && BUCKETS[j] == b;
        BucketsIncrease(natural, j);
      }
    }
  }

  lemma BucketsIncrease(i: nat, j: nat)
    requires i < |BUCKETS| && j < |BUCKETS|
    ensures i <= j <==> BUCKETS[i] <= BUCKETS[j]
  {
  }

  // ---- The padding iteration ----

  function Max0(x: int): (r: nat)
  {
    if x > 0 then x else 0
  }

  /** One round: the padding that would fill the gap given the length prefix of the current guess. */
  function Refine(gap: nat, padLen: nat): (r: nat)
  {
    Max0(gap - (1 + VarintSize(padLen)))
  }

  /** At most `rounds` rounds, stopping early at a fixpoint. */
  function Iterate(gap: nat, padLen: nat, rounds: nat): (r: nat)
    decreases rounds
  {
    if rounds == 0 || Refine(gap, padLen) == padLen then padLen
    else Iterate(gap, Refine(gap, padLen), rounds - 1)
  }

  /** padSignedTransport's padding length for a message `gap` bytes below its bucket. */
  method PaddingLength(gap: nat) returns (padLen: nat)
    ensures padLen == Iterate(gap, Max0(gap - 4), 4)
  {
    padLen := Max0(gap - 4);
    var round := 0;
    while round < 4
      invariant 0 <= round <= 4
      invariant Iterate(gap, padLen, 4 - round) == Iterate(gap, Max0(gap - 4), 4)
    {
      var size := ComputeVarintSize(padLen);
      var newPadLen := Max0(gap - (1 + size));
      if newPadLen == padLen {
        return;
      }
      padLen := newPadLen;
      round := round + 1;
    }
  }

  /** Gaps no length-delimited field can fill exactly. */
  predicate Unfillable(gap: nat)
  {
    gap in [1, 2, 130, 16387]
  }

  lemma SmallGap(gap: nat)
    requires 1 <= gap <= 3
    ensures FieldSize(Iterate(gap, Max0(gap - 4), 4)) == if gap == 3 then 3 else 0
  {
    VarintSizes(0);
    VarintSizes(1);
  }

  lemma OneBytePrefix(gap: nat)
    requires 4 <= gap <= 129
    ensures FieldSize(Iterate(gap, Max0(gap - 4), 4)) == gap
  {
    VarintSizes(gap - 4);
    VarintSizes(gap - 2);
  }

  lemma Oscillating(gap: nat)
    requires gap == 130 || gap == 16387
    ensures FieldSize(Iterate(gap, Max0(gap - 4), 4)) == gap - 1
  {
    VarintSizes(gap - 4);
    VarintSizes(gap - 3);
    VarintSizes(gap - 2);
    var low, high := if gap == 130 then 127 else 16383, if gap == 130 then 128 else 16384;
    assert Refine(gap, low) == high && Refine(gap, high) == low;
    assert Iterate(gap, low, 0) == low;
    assert Iterate(gap, high, 1) == low;
    assert Iterate(gap, low, 2) == low;
    assert Iterate(gap, high, 3) == low;
  }

  lemma TwoBytePrefix(gap: nat)
    requires 131 <= gap <= 16386
    ensures FieldSize(Iterate(gap, Max0(gap - 4), 4)) == gap
  {
    VarintSizes(gap - 4);
    VarintSizes(gap - 3);
    VarintSizes(gap - 2);
    assert Refine(gap, gap - 3) == gap - 3;
    if gap == 131 {
      assert Refine(gap, 127) == 129 && Refine(gap, 129) == 128;
    }
  }

  lemma ThreeBytePrefix(gap: nat)
    requires 16388 <= gap <= FRAME_TARGET
    ensures FieldSize(Iterate(gap, Max0(gap - 4), 4)) == gap
  {
    VarintSizes(gap - 4);
    assert Refine(gap, gap - 4) == gap - 4;
  }

  /** The largest field that fits in the gap. */
  ghost predicate LargestFitting(gap: nat, size: nat)
  {
    && size <= gap
    && (exists n: nat :: FieldSize(n) == size)
    && (forall n: nat :: FieldSize(n) <= gap ==> FieldSize(n) <= size)
  }

  /**
   For every gap the four rounds end at the largest encodable size not above the
   bucket: exactly on it except for gaps 1, 2, 130 and 16387, then at most two
   bytes short, and never beyond it, even where the iteration oscillates.
   */
  lemma PaddingIsOptimal(gap: nat)
    requires 1 <= gap <= FRAME_TARGET
    ensures var size := FieldSize(Iterate(gap, Max0(gap - 4), 4));
            && LargestFitting(gap, size)
            && (size == gap <==> !Unfillable(gap))
            && gap - 2 <= size
  {
    var size := FieldSize(Iterate(gap, Max0(gap - 4), 4));
    if gap <= 3 {
      SmallGap(gap);
    } else if gap <= 129 {
      OneBytePrefix(gap);
    } else if gap == 130 || gap == 16387 {
      Oscillating(gap);
    } else if gap <= 16386 {
      TwoBytePrefix(gap);
    } else {
      ThreeBytePrefix(gap);
    }
    forall n: nat
      ensures FieldSize(n) <= gap ==> FieldSize(n) <= size
    {
      VarintSizes(n);
    }
  }

  /** The largest padded size a bucket allows for a message of `base` bytes. */
  ghost predicate PadsInto(base: nat, target: nat, size: nat)
  {
    if base >= target then size == base
    else base <= size <= target && LargestFitting(target - base, size - base)
  }

  /** padSignedTransport on the sizes of the four fields. */
  method PadSignedTransport(data: nat, signature: nat, metadata: nat, random: nat)
    returns (padLen: nat, target: nat)
    ensures target in BUCKETS && Above(TransportSize(data, signature, metadata, 0), Bump(random), target)
    ensures var base := TransportSize(data, signature, metadata, 0);
            var size := TransportSize(data, signature, metadata, padLen);
            && PadsInto(base, target, size)
            && (base <= FRAME_TARGET ==> base <= target && target - 2 <= size <= target <= FRAME_TARGET)
            && (base > FRAME_TARGET ==> padLen == 0)
  {
    var base := TransportSize(data, signature, metadata, 0);
    target := SelectBucketSize(base, random);
    if base >= target {
      padLen := 0;
    } else {
      padLen := PaddingLength(target - base);
      PaddingIsOptimal(target - base);
    }
  }

  // ---- Everything serialize accepts fits the frame ----

  function Pow128(k: nat): (r: nat)
    ensures r > 0
  {
    if k == 0 then 1 else 128 * Pow128(k - 1)
  }

  lemma {:induction false} VarintBound(n: nat, k: nat)
    requires k >= 1 && n < Pow128(k)
    ensures VarintSize(n) <= k
  {
    if n >= 128 {
      assert k > 1;
      VarintBound(n / 128, k - 1);
    }
  }

  /** pb.Metadata with a 26-character rand.Text ID; the timestamp message is always present. */
  function MetadataSize(seconds: nat, nanos: nat, sequence: nat, route: nat): (r: nat)
  {
    var inner := ScalarSize(seconds) + ScalarSize(nanos);
    FieldSize(26) + (1 + VarintSize(inner) + inner) + ScalarSize(sequence) + ScalarSize(route)
  }

  /** A varint field; zero is omitted. */
  function ScalarSize(n: nat): (r: nat)
  {
    if n == 0 then 0 else 1 + VarintSize(n)
  }

  function ProtoScalar(tag: Byte, n: nat): (r: Bytes)
  {
    if n == 0 then [] else [tag] + Uvarint(n)
  }

  /** The marshalled Metadata: ID, timestamp message, sequence and route. */
  function MarshalMetadata(id: Bytes, seconds: nat, nanos: nat, sequence: nat, route: nat): (r: Bytes)
  {
    var inner := ProtoScalar(8, seconds) + ProtoScalar(16, nanos);
    ProtoField(10, id) + ([18] + Uvarint(|inner|) + inner) + ProtoScalar(24, sequence) + ProtoScalar(32, route)
  }

  lemma MarshalledMetadataSize(id: Bytes, seconds: nat, nanos: nat, sequence: nat, route: nat)
    requires |id| == 26
    ensures |MarshalMetadata(id, seconds, nanos, sequence, route)| == MetadataSize(seconds, nanos, sequence, route)
  {
  }

  /** seconds and sequence are 64-bit, nanoseconds below 10^9, and all routes are below 128. */
  predicate MetadataInRange(seconds: nat, nanos: nat, sequence: nat, route: nat)
  {
    seconds < 0x1_0000_0000_0000_0000 && nanos < 1_000_000_000 &&
    sequence < 0x1_0000_0000_0000_0000 && route < 128
  }

  lemma MetadataBound(seconds: nat, nanos: nat, sequence: nat, route: nat)
    requires MetadataInRange(seconds, nanos, sequence, route)
    ensures MetadataSize(seconds, nanos, sequence, route) <= 60
  {
    assert Pow128(5) == 0x8_0000_0000 by { assert Pow128(2) == 16384; }
    assert Pow128(10) == 0x8_0000_0000 * 0x8_0000_0000 by { assert Pow128(7) == 16384 * 0x8_0000_0000; }
    VarintBound(seconds, 10);
    VarintBound(sequence, 10);
    VarintBound(nanos, 5);
    VarintSizes(ScalarSize(seconds) + ScalarSize(nanos));
    VarintSizes(26);
  }

  /**
   Every message within the size cap, signed with a 64-byte signature, fits the
   16-bit frame after padding and encryption; nothing larger is accepted.
   */
  method Serialize(
      data: nat, seconds: nat, nanos: nat, sequence: nat, route: nat, random: nat)
    returns (accepted: bool, wire: nat)
    requires MetadataInRange(seconds, nanos, sequence, route)
    ensures accepted <==> data <= MAX_TRANSPORT
    ensures accepted ==> wire <= MAX_UINT16
    ensures accepted ==> exists b :: b in BUCKETS && b - 2 + ENCRYPTION_OVERHEAD <= wire <= b + ENCRYPTION_OVERHEAD
  {
    if data > MAX_TRANSPORT {
      return false, 0;
    }
    var metadata := MetadataSize(seconds, nanos, sequence, route);
    MetadataBound(seconds, nanos, sequence, route);
    VarintSizes(data);
    VarintSizes(64);
    VarintSizes(metadata);
    var padLen, target := PadSignedTransport(data, 64, metadata, random);
    wire := TransportSize(data, 64, metadata, padLen) + ENCRYPTION_OVERHEAD;
    accepted := true;
  }
}
