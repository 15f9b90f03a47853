/**
  The scalar kinds the four messages use: doubles as IEEE 754 bit patterns, UTF-8 strings and signed
  integers, with the rule that decides whether a scalar is written at all.
 */
module Scalars {
  import opened Wire

  // ---------------------------------------------------------------- doubles

  const NEGATIVE_ZERO: uint64 := 0x8000_0000_0000_0000
  const INFINITY: uint64 := 0x7FF0_0000_0000_0000

  predicate IsNaN(b: uint64) {
    b % NEGATIVE_ZERO > INFINITY
  }

  /** `b <= 0` as the hardware compares it: a NaN compares false, both zeros compare true. */
  predicate AtMostZero(b: uint64) {
    !IsNaN(b) && (b >= NEGATIVE_ZERO || b == 0)
  }

  predicate AtLeastZero(b: uint64) {
    !IsNaN(b) && b <= NEGATIVE_ZERO
  }

  /** The test that leaves a double out of the serialized form. */
  predicate Skipped(b: uint64) {
    AtMostZero(b) && AtLeastZero(b)
  }

  /** Both zeros and nothing else, so a NaN is always written. */
  lemma SkippedIffZero(b: uint64)
    ensures Skipped(b) <==> b == 0 || b == 0x8000_0000_0000_0000
    ensures IsNaN(b) <==> b % 0x8000_0000_0000_0000 > 0x7FF0_0000_0000_0000
    ensures NEGATIVE_ZERO == 0x8000_0000_0000_0000
    ensures IsNaN(b) ==> !Skipped(b)
  {
  }

  /** A double as it comes back from the wire: negative zero has lost its sign. */
  function Unsigned(b: uint64): uint64 {
    if Skipped(b) then 0 else b
  }

  // ---------------------------------------------------------------- strings

  predicate Continuation(b: byte) {
    0x80 <= b <= 0xBF
  }

  /** The length of the UTF-8 sequence at the front of `s`, or 0 (RFC 3629, sections 3 and 4). */
  function Utf8Length(s: bytes): (n: nat)
    ensures n <= |s|
  {
    if s == [] then 0
    else if s[0] <= 0x7F then 1
    else if |s| >= 2 && 0xC2 <= s[0] <= 0xDF && Continuation(s[1]) then 2
    else if |s| >= 3 && 0xE0 <= s[0] <= 0xEF && Continuation(s[1]) && Continuation(s[2])
            && (s[0] == 0xE0 ==> s[1] >= 0xA0) && (s[0] == 0xED ==> s[1] <= 0x9F) then 3
    else if |s| >= 4 && 0xF0 <= s[0] <= 0xF4 && Continuation(s[1]) && Continuation(s[2]) && Continuation(s[3])
            && (s[0] == 0xF0 ==> s[1] >= 0x90) && (s[0] == 0xF4 ==> s[1] <= 0x8F) then 4
    else 0
  }

  predicate ValidUtf8(s: bytes) {
    s == [] || (Utf8Length(s) > 0 && ValidUtf8(s[Utf8Length(s)..]))
  }

  // ---------------------------------------------------------------- which scalars are written

  function StringFields(num: nat, s: bytes): seq<Field> {
    if s == [] then [] else [LenField(num, s)]
  }

  function Int64Fields(num: nat, n: int64): seq<Field> {
    if n == 0 then [] else [VarintField(num, ToUint64(n))]
  }

  function DoubleFields(num: nat, b: uint64): seq<Field> {
    if Skipped(b) then [] else [Fixed64Field(num, b)]
  }

  // ---------------------------------------------------------------- sizes

  function VarintSize(n: nat): (size: nat)
    ensures size == |Varint(n)|
  {
    if n < 128 then 1 else 1 + VarintSize(n / 128)
  }

  function LenSize(n: nat): nat {
    VarintSize(n) + n
  }

  function StringSize(s: bytes): nat {
    if s == [] then 0 else 1 + LenSize(|s|)
  }

  function Int64Size(n: int64): nat {
    if n == 0 then 0 else 1 + VarintSize(ToUint64(n))
  }

  function DoubleSize(b: uint64): nat {
    if Skipped(b) then 0 else 1 + 8
  }

  /** The size pass over one retained field, which never builds its bytes. */
  function FieldSize(f: Field): (size: nat)
    ensures size == |Encode(f)|
    decreases f, 1
  {
    VarintSize(TagOf(f)) + match f
    case VarintField(_, u) => VarintSize(u)
    case Fixed64Field(_, _) => 8
    case LenField(_, payload) => LenSize(|payload|)
    case GroupField(num, fields) => UnknownSize(fields) + VarintSize(Tag(num, END_GROUP))
    case Fixed32Field(_, _) => 4
  }

  function UnknownSize(fs: seq<Field>): (size: nat)
    ensures size == |EncodeAll(fs)|
    decreases fs, 0
  {
    if fs == [] then 0 else FieldSize(fs[0]) + UnknownSize(fs[1..])
  }

  lemma UnknownSizeConcat(a: seq<Field>, b: seq<Field>)
    ensures UnknownSize(a + b) == UnknownSize(a) + UnknownSize(b)
  {
    EncodeAllConcat(a, b);
  }

  lemma SingletonSize(f: Field)
    ensures UnknownSize([f]) == FieldSize(f)
  {
    assert [f][1..] == [];
  }

  /** Each scalar's share of the size pass is the length of what it writes. */
  lemma ScalarSizes(num: nat, s: bytes, n: int64, b: uint64)
    requires num < 16
    ensures StringSize(s) == UnknownSize(StringFields(num, s))
    ensures Int64Size(n) == UnknownSize(Int64Fields(num, n))
    ensures DoubleSize(b) == UnknownSize(DoubleFields(num, b))
  {
    if s != [] { SingletonSize(LenField(num, s)); }
    if n != 0 { SingletonSize(VarintField(num, ToUint64(n))); }
    if !Skipped(b) { SingletonSize(Fixed64Field(num, b)); }
  }

  lemma {:induction false} VarintSizeSubadditive(m: nat, n: nat)
    ensures VarintSize(m + n) <= VarintSize(m) + VarintSize(n)
  {
    var top := if m <= n then n else m;
    if top > 0 {
      VarintMonotone(m + n, 128 * top);
      assert 128 * top / 128 == top;
    }
  }

  /** A length prefix and its payload never cost more than those of two parts that make up the payload. */
  lemma LenSizeGrowth(whole: nat, part: nat, rest: nat)
    requires whole <= part + rest
    ensures LenSize(whole) <= LenSize(part) + LenSize(rest)
    ensures part == 0 ==> LenSize(whole) <= LenSize(rest)
  {
    VarintMonotone(whole, part + rest);
    VarintSizeSubadditive(part, rest);
  }

  // ---------------------------------------------------------------- writing one field

  /** Appending a chunk of fields to the output leaves the rest of the fields to be written. */
  lemma WriteNext(out: bytes, chunk: seq<Field>, tail: seq<Field>)
    ensures out + EncodeAll(chunk + tail) == out + EncodeAll(chunk) + EncodeAll(tail)
    ensures |chunk| == 1 ==> EncodeAll(chunk) == Encode(chunk[0])
    ensures chunk == [] ==> out + EncodeAll(chunk) == out
  {
    EncodeAllConcat(chunk, tail);
    ConcatAssociates(out, EncodeAll(chunk), EncodeAll(tail));
    if |chunk| == 1 {
      assert EncodeAll(chunk[1..]) == [];
      assert Encode(chunk[0]) + [] == Encode(chunk[0]);
    }
  }

  /** A submessage is written as a tag, a length prefix and its body. */
  lemma WriteSubmessage(num: nat, out: bytes, body: bytes)
    ensures out + Varint(Tag(num, 2)) + Varint(|body|) + body == out + Encode(LenField(num, body))
  {
    Regroup(out, Varint(Tag(num, 2)), Varint(|body|), body);
  }

  lemma Regroup(a: bytes, b: bytes, c: bytes, d: bytes)
    ensures a + b + c + d == a + (b + (c + d))
  {
    ConcatAssociates(a, b, c);
    ConcatAssociates(b, c, d);
    ConcatAssociates(a, b + c, d);
  }
}
