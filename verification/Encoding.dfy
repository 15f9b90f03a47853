/**
  The wire format in numbers, after the Protocol Buffers "Encoding" specification: digits, limits and the bytes
  of a tag, said without the definitions of `Wire`, which has to meet them.
 */
module Encoding {
  import opened Wrappers
  import opened Wire
  import opened Scalars

  // ---------------------------------------------------------------- two's complement

  /** The conversions keep a number modulo the size of the word, and there is one such number in each range. */
  lemma Congruent(n: int64, u: uint64)
    ensures (ToUint64(n) - n) % 0x1_0000_0000_0000_0000 == 0
    ensures (ToInt64(u) - u) % 0x1_0000_0000_0000_0000 == 0
    ensures (ToInt32(u) - u) % 0x1_0000_0000 == 0
    ensures ToInt64(ToUint64(n)) == n && ToUint64(ToInt64(u)) == u
  {
  }

  // ---------------------------------------------------------------- varints

  /** The number that the low seven bits of some bytes make, the first byte being the least significant. */
  function Base128(s: bytes): nat {
    if s == [] then 0 else s[0] % 128 + 128 * Base128(s[1..])
  }

  /** The bytes of a varint: all but the last have their high bit set. */
  predicate IsVarint(s: bytes) {
    s != [] && s[|s| - 1] < 128 && forall i | 0 <= i < |s| - 1 :: s[i] >= 128
  }

  lemma OneMoreByte(b: byte, s: bytes)
    requires b >= 128 && IsVarint(s)
    ensures IsVarint([b] + s) && Base128([b] + s) == b - 128 + 128 * Base128(s)
    ensures ([b] + s)[|s|] == s[|s| - 1]
  {
    var t := [b] + s;
    assert t[1..] == s;
    assert forall i | 0 < i < |t| :: t[i] == s[i - 1];
  }

  /** Digit by digit: seven bits to a byte, the lowest first, and no zero digits at the high end. */
  lemma {:induction false} VarintDigits(n: nat)
    ensures IsVarint(Varint(n)) && Base128(Varint(n)) == n
    ensures |Varint(n)| > 1 ==> Varint(n)[|Varint(n)| - 1] != 0
  {
    if n >= 128 {
      hide IsVarint, Base128;
      VarintDigits(n / 128);
      OneMoreByte(n % 128 + 128, Varint(n / 128));
      ShortVarint(n / 128);
    }
  }

  lemma ShortVarint(n: nat)
    ensures |Varint(n)| == 1 <==> n < 128
    ensures n < 128 ==> Varint(n) == [n]
  {
  }

  /** A varint at the front of the input is read, in any spelling, if it is within the limit. */
  lemma {:induction false} VarintIsRead(s: bytes, t: bytes, max: nat)
    requires IsVarint(s)
    ensures ReadVarint(s + t, max) == if |s| <= max then Some(Read(Base128(s), t)) else None
  {
    var st := s + t;
    if |s| == 1 {
      assert st[1..] == t;
      assert s[1..] == [];
    } else if max > 0 {
      assert forall i | 0 <= i < |s| - 1 :: s[1..][i] == s[i + 1];
      assert st[1..] == s[1..] + t;
      VarintIsRead(s[1..], t, max - 1);
    }
  }

  /** Bytes without an end are no varint. */
  lemma {:induction false} EndlessIsRefused(s: bytes, max: nat)
    requires forall i | 0 <= i < |s| :: s[i] >= 128
    ensures ReadVarint(s, max) == None
  {
    if s != [] && max > 0 {
      forall i | 0 <= i < |s[1..]| ensures s[1..][i] >= 128 { assert s[1..][i] == s[i + 1]; }
      EndlessIsRefused(s[1..], max - 1);
    }
  }

  /** A tag has at most five bytes, of which 32 bits count, and a number at most ten, of which 64 do. */
  lemma WordIsRead(s: bytes, t: bytes)
    requires IsVarint(s)
    ensures ReadTag(s + t) == if |s| <= 5 then Some(Read(Base128(s) % 0x1_0000_0000, t)) else None
    ensures ReadUint64(s + t) == if |s| <= 10 then Some(Read(Base128(s) % 0x1_0000_0000_0000_0000, t)) else None
  {
    VarintIsRead(s, t, 5);
    VarintIsRead(s, t, 10);
  }

  // ---------------------------------------------------------------- lengths

  /**
    A length prefix, in any spelling of at most five bytes, is followed if it is at most 2^31 - 17 and that many
    bytes are there, and refused otherwise.
   */
  lemma LenIsRead(s: bytes, t: bytes)
    requires IsVarint(s)
    ensures var n := Base128(s);
            ReadLen(s + t) ==
            if |s| <= 5 && n <= 0x7FFF_FFEF && n <= |t| then Some(Read(t[..n], t[n..])) else None
  {
    VarintIsRead(s, t, 5);
  }

  /** Every payload of at most that size is read back from behind its prefix, and no longer one is. */
  lemma PayloadIsRead(payload: bytes, t: bytes)
    ensures ReadLen(Varint(|payload|) + payload + t) ==
            if |payload| <= 0x7FFF_FFEF then Some(Read(payload, t)) else None
  {
    VarintDigits(|payload|);
    WordFits(|payload|);
    ConcatAssociates(Varint(|payload|), payload, t);
    LenIsRead(Varint(|payload|), payload + t);
    assert (payload + t)[..|payload|] == payload && (payload + t)[|payload|..] == t;
  }

  // ---------------------------------------------------------------- fixed-width words

  function Power(base: nat, k: nat): nat {
    if k == 0 then 1 else base * Power(base, k - 1)
  }

  /** Byte by byte, the lowest first. */
  lemma {:induction false} LittleEndianDigit(n: nat, k: nat, i: nat)
    requires i < k
    ensures Power(256, i) > 0 && LittleEndian(n, k)[i] == n / Power(256, i) % 256
    decreases i
  {
    if i > 0 {
      LittleEndianDigit(n / 256, k - 1, i - 1);
      var p := Power(256, i - 1);
      DivTwice(n, p);
    }
  }

  lemma DivTwice(n: nat, p: nat)
    requires p > 0
    ensures 256 * p > 0 && n / 256 / p == n / (256 * p)
  {
    var q, r := n / 256 / p, n / 256 % p;
    assert n == 256 * (q * p + r) + n % 256;
    assert n == (256 * p) * q + (256 * r + n % 256);
    assert 0 <= 256 * r + n % 256 < 256 * p;
    Quotient(n, 256 * p, q, 256 * r + n % 256);
  }

  lemma Quotient(n: nat, d: nat, q: nat, r: nat)
    requires d > 0 && n == d * q + r && r < d
    ensures n / d == q
  {
    var q', r' := n / d, n % d;
    assert d * (q - q') == r' - r;
    if q > q' { Larger(d, q - q'); }
    if q < q' { Larger(d, q' - q); }
  }

  lemma Larger(d: nat, k: int)
    requires k > 0
    ensures d * k >= d
  {
  }

  // ---------------------------------------------------------------- whole fields

  /** One field of each wire type, byte for byte; a group ends at its own end tag and at no other. */
  lemma Samples()
    ensures Encode(VarintField(1, 150)) == [0x08, 0x96, 0x01]
    ensures Encode(Fixed64Field(1, 0x0102_0304_0506_0708)) == [0x09, 8, 7, 6, 5, 4, 3, 2, 1]
    ensures Encode(LenField(2, [0x74, 0x65])) == [0x12, 0x02, 0x74, 0x65]
    ensures Encode(GroupField(1, [])) == [0x0B, 0x0C]
    ensures Encode(Fixed32Field(1, 0x0102_0304)) == [0x0D, 4, 3, 2, 1]
    ensures ReadAll([0x0B, 0x14], 1) == None
  {
    hide Encode, ReadAll;
    VarintSample();
    FixedSamples();
    LenSample();
    GroupSample();
  }

  lemma VarintSample()
    ensures Encode(VarintField(1, 150)) == [0x08, 0x96, 0x01]
  {
    assert Varint(150) == [0x96, 0x01];
  }

  lemma FixedSamples()
    ensures Encode(Fixed64Field(1, 0x0102_0304_0506_0708)) == [0x09, 8, 7, 6, 5, 4, 3, 2, 1]
    ensures Encode(Fixed32Field(1, 0x0102_0304)) == [0x0D, 4, 3, 2, 1]
  {
    hide LittleEndian;
    NextByte(0, 1, 1);
    NextByte(1, 2, 2);
    NextByte(0x0102, 3, 3);
    NextByte(0x01_0203, 4, 4);
    NextByte(0x0102_0304, 5, 5);
    NextByte(0x01_0203_0405, 6, 6);
    NextByte(0x0102_0304_0506, 7, 7);
    NextByte(0x01_0203_0405_0607, 8, 8);
  }

  lemma NextByte(high: nat, low: byte, k: nat)
    requires k > 0
    ensures LittleEndian(256 * high + low, k) == [low] + LittleEndian(high, k - 1)
    ensures LittleEndian(high, 0) == []
  {
  }

  lemma LenSample()
    ensures Encode(LenField(2, [0x74, 0x65])) == [0x12, 0x02, 0x74, 0x65]
  {
    assert EncodePayload(LenField(2, [0x74, 0x65])) == [0x02] + [0x74, 0x65];
  }

  lemma GroupSample()
    ensures Encode(GroupField(1, [])) == [0x0B, 0x0C]
    ensures ReadAll([0x0B, 0x14], 1) == None
  {
    assert EncodePayload(GroupField(1, [])) == [] + [0x0C];
    var s := [0x0B, 0x14];
    assert s[1..] == [0x14] && s[1..][1..] == [];
    assert ReadTag(s) == Some(Read(0x0B, [0x14])) && ReadTag([0x14]) == Some(Read(0x14, []));
    assert ReadGroup(1, [0x14], 0) == None;
    assert ReadField(s, 1) == None;
  }

  // ---------------------------------------------------------------- nesting

  /** Groups inside one another, n deep. */
  function Nest(n: nat): seq<Field> {
    if n == 0 then [] else [GroupField(3, Nest(n - 1))]
  }

  lemma {:induction false} NestIsStorable(n: nat, depth: nat)
    requires n <= depth
    ensures AllStorable(Nest(n), depth)
  {
    if n > 0 { NestIsStorable(n - 1, depth - 1); }
  }

  lemma {:induction false} TooDeep(n: nat, t: bytes, depth: nat)
    requires n > depth
    ensures ReadPayload(27, EncodeAll(Nest(n - 1)) + Varint(28) + t, depth) == None
    decreases depth
  {
    if depth > 0 {
      var inner := EncodeAll(Nest(n - 2)) + Varint(28);
      var f := GroupField(3, Nest(n - 2));
      assert EncodePayload(f) == inner;
      NestEncoded(n - 1, Varint(28) + t);
      ConcatAssociates(EncodeAll(Nest(n - 1)), Varint(28), t);
      TagRoundTrip(27, inner + (Varint(28) + t));
      TooDeep(n - 1, Varint(28) + t, depth - 1);
    }
  }

  lemma NestEncoded(n: nat, t: bytes)
    requires n > 0
    ensures EncodeAll(Nest(n)) + t == Varint(27) + (EncodeAll(Nest(n - 1)) + Varint(28) + t)
  {
    var f := GroupField(3, Nest(n - 1));
    assert Nest(n)[1..] == [];
    assert EncodeAll(Nest(n)) == Encode(f) + [] == Encode(f);
    assert Encode(f) == Varint(27) + (EncodeAll(Nest(n - 1)) + Varint(28));
    ConcatAssociates(Varint(27), EncodeAll(Nest(n - 1)) + Varint(28), t);
  }

  /** Groups may nest to the depth given and no further. */
  lemma NestIff(n: nat, depth: nat)
    ensures ReadAll(EncodeAll(Nest(n)), depth) == if n <= depth then Some(Nest(n)) else None
  {
    if n <= depth {
      NestIsStorable(n, depth);
      BodyRoundTrip(Nest(n), depth);
    } else {
      NestEncoded(n, []);
      assert EncodeAll(Nest(n)) + [] == EncodeAll(Nest(n));
      TagRoundTrip(27, EncodeAll(Nest(n - 1)) + Varint(28) + []);
      TooDeep(n, [], depth);
    }
  }
}
