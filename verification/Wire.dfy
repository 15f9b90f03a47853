/**
  The wire format that the generated code in protobuf/tz.pb.cc reads and writes: tags, base-128
  varints, little-endian fixed-width words, length-delimited payloads and groups, as laid down by
  the Protocol Buffers "Encoding" specification (sections "Base 128 Varints" and "Message Structure").

  A message body is a sequence of fields. `EncodeAll` writes them in canonical (shortest) form and
  `ReadAll` reads any accepted form back; the nesting of groups and submessages is bounded by a
  recursion budget, as in the parser.
 */
module Wire {
  import opened Wrappers

  type byte = n: int | 0 <= n < 0x100
  type bytes = seq<byte>
  type uint32 = n: int | 0 <= n < 0x1_0000_0000
  type uint64 = n: int | 0 <= n < 0x1_0000_0000_0000_0000
  type int32 = n: int | -0x8000_0000 <= n < 0x8000_0000
  type int64 = n: int | -0x8000_0000_0000_0000 <= n < 0x8000_0000_0000_0000

  /** The largest length prefix the parser follows: INT_MAX less the 16 bytes it may read ahead. */
  const MAX_SIZE := 0x7FFF_FFEF
  const MAX_FIELD_NUMBER := 0x1FFF_FFFF
  /** How deep submessages and groups may nest before the parser gives up. */
  const RECURSION_LIMIT := 100

  /** What a reader took off the front of its input, and the input that is left. */
  datatype Read<+T> = Read(value: T, rest: bytes)

  /**
    How a parse loop ends: at the end of its input, or stuck at a field. `value` is the message with every
    field before that one applied; `tag` is the stuck field's tag, when that could be read, and `rest`
    what comes after the tag.
   */
  datatype Outcome<+T> = Done(value: T) | Stuck(value: T, tag: Option<uint32>, rest: bytes)

  // ---------------------------------------------------------------- two's complement

  function ToUint64(n: int64): uint64 {
    if n < 0 then n + 0x1_0000_0000_0000_0000 else n
  }

  function ToInt64(u: uint64): int64 {
    if u < 0x8000_0000_0000_0000 then u else u - 0x1_0000_0000_0000_0000
  }

  /** The conversion of a 64-bit word to a 32-bit enum: the upper half is dropped. */
  function ToInt32(u: uint64): int32 {
    var low := u % 0x1_0000_0000;
    if low < 0x8000_0000 then low else low - 0x1_0000_0000
  }

  // ---------------------------------------------------------------- varints

  function Varint(n: nat): (s: bytes)
    ensures |s| >= 1
  {
    if n < 128 then [n] else [n % 128 + 128] + Varint(n / 128)
  }

  /** Reads a varint of at most `max` bytes; the value is not yet truncated to a machine word. */
  function ReadVarint(s: bytes, max: nat): (r: Option<Read<nat>>)
    ensures r.Some? ==> |r.value.rest| < |s|
    decreases |s|
  {
    if max == 0 || s == [] then None
    else if s[0] < 128 then Some(Read(s[0], s[1..]))
    else
      var tail :- ReadVarint(s[1..], max - 1);
      Some(Read(s[0] - 128 + 128 * tail.value, tail.rest))
  }

  function ReadTag(s: bytes): (r: Option<Read<uint32>>)
    ensures r.Some? ==> |r.value.rest| < |s|
  {
    var v :- ReadVarint(s, 5);
    Some(Read(v.value % 0x1_0000_0000, v.rest))
  }

  function ReadUint64(s: bytes): (r: Option<Read<uint64>>)
    ensures r.Some? ==> |r.value.rest| < |s|
  {
    var v :- ReadVarint(s, 10);
    Some(Read(v.value % 0x1_0000_0000_0000_0000, v.rest))
  }

  /** A length prefix followed by that many bytes. */
  function ReadLen(s: bytes): (r: Option<Read<bytes>>)
    ensures r.Some? ==> |r.value.rest| + |r.value.value| < |s|
  {
    var v :- ReadVarint(s, 5);
    if v.value > MAX_SIZE || v.value > |v.rest| then None
    else Some(Read(v.rest[..v.value], v.rest[v.value..]))
  }

  function Exp(base: nat, k: nat): nat {
    if k == 0 then 1 else base * Exp(base, k - 1)
  }

  lemma {:induction false} VarintFits(n: nat, k: nat)
    requires k > 0 && n < Exp(128, k)
    ensures |Varint(n)| <= k
  {
    if n >= 128 {
      assert Exp(128, k) == 128 * Exp(128, k - 1);
      assert k > 1 && n / 128 < Exp(128, k - 1);
      VarintFits(n / 128, k - 1);
    }
  }

  /** A 64-bit word takes at most ten bytes, a 32-bit word at most five. */
  lemma WordFits(n: nat)
    ensures n < 0x1_0000_0000_0000_0000 ==> |Varint(n)| <= 10
    ensures n < 0x1_0000_0000 ==> |Varint(n)| <= 5
  {
    assert Exp(128, 5) == 0x8_0000_0000;
    assert Exp(128, 10) == Exp(128, 5) * 0x8_0000_0000;
    if n < 0x1_0000_0000_0000_0000 { VarintFits(n, 10); }
    if n < 0x1_0000_0000 { VarintFits(n, 5); }
  }

  lemma {:induction false} VarintMonotone(m: nat, n: nat)
    requires m <= n
    ensures |Varint(m)| <= |Varint(n)|
    decreases n
  {
    if m >= 128 { VarintMonotone(m / 128, n / 128); }
  }

  lemma {:induction false} VarintRoundTrip(n: nat, t: bytes, max: nat)
    requires |Varint(n)| <= max
    ensures ReadVarint(Varint(n) + t, max) == Some(Read(n, t))
    decreases n
  {
    var s := Varint(n) + t;
    if n < 128 {
      assert s[1..] == t;
    } else {
      VarintRoundTrip(n / 128, t, max - 1);
      assert s[1..] == Varint(n / 128) + t;
    }
  }

  /** Reading looks only at the bytes it takes: whatever follows them is left untouched. */
  lemma {:induction false} VarintExtends(s: bytes, t: bytes, max: nat)
    requires ReadVarint(s, max).Some?
    ensures ReadVarint(s + t, max) == Some(Read(ReadVarint(s, max).value.value, ReadVarint(s, max).value.rest + t))
    decreases max
  {
    assert (s + t)[1..] == s[1..] + t;
    if s[0] >= 128 { VarintExtends(s[1..], t, max - 1); }
  }

  /** No encoding of a value is shorter than the canonical one. */
  lemma {:induction false} VarintShortest(s: bytes, max: nat)
    requires ReadVarint(s, max).Some?
    ensures |Varint(ReadVarint(s, max).value.value)| + |ReadVarint(s, max).value.rest| <= |s|
    decreases max
  {
    if s[0] >= 128 {
      VarintShortest(s[1..], max - 1);
      var v := ReadVarint(s[1..], max - 1).value.value;
      var n := s[0] - 128 + 128 * v;
      assert n / 128 == v;
    }
  }

  // ---------------------------------------------------------------- fixed-width words

  function LittleEndian(n: nat, k: nat): (s: bytes)
    ensures |s| == k
  {
    if k == 0 then [] else [n % 256] + LittleEndian(n / 256, k - 1)
  }

  function FromLittleEndian(s: bytes): (n: nat)
    ensures n < Exp(256, |s|)
  {
    if s == [] then 0 else s[0] + 256 * FromLittleEndian(s[1..])
  }

  lemma {:induction false} LittleEndianRoundTrip(n: nat, k: nat)
    requires n < Exp(256, k)
    ensures FromLittleEndian(LittleEndian(n, k)) == n
    decreases k
  {
    if k > 0 {
      assert n / 256 < Exp(256, k - 1);
      LittleEndianRoundTrip(n / 256, k - 1);
      assert LittleEndian(n, k)[1..] == LittleEndian(n / 256, k - 1);
    }
  }

  lemma ExpOf256()
    ensures Exp(256, 4) == 0x1_0000_0000
    ensures Exp(256, 8) == 0x1_0000_0000_0000_0000
  {
  }

  function ReadFixed64(s: bytes): (r: Option<Read<uint64>>)
    ensures r.Some? ==> |r.value.rest| < |s|
  {
    if |s| < 8 then None
    else
      ExpOf256();
      Some(Read(FromLittleEndian(s[..8]), s[8..]))
  }

  function ReadFixed32(s: bytes): (r: Option<Read<uint32>>)
    ensures r.Some? ==> |r.value.rest| < |s|
  {
    if |s| < 4 then None
    else
      ExpOf256();
      Some(Read(FromLittleEndian(s[..4]), s[4..]))
  }

  // ---------------------------------------------------------------- fields

  datatype Field =
    | VarintField(num: nat, u: uint64)
    | Fixed64Field(num: nat, bits: uint64)
    | LenField(num: nat, payload: bytes)
    | GroupField(num: nat, fields: seq<Field>)
    | Fixed32Field(num: nat, word: uint32)

  const END_GROUP := 4

  function WireType(f: Field): nat {
    match f
    case VarintField(_, _) => 0
    case Fixed64Field(_, _) => 1
    case LenField(_, _) => 2
    case GroupField(_, _) => 3
    case Fixed32Field(_, _) => 5
  }

  function Tag(num: nat, wireType: nat): nat {
    8 * num + wireType
  }

  function TagOf(f: Field): nat {
    Tag(f.num, WireType(f))
  }

  /** A field the parser can produce with `depth` levels of nesting left. */
  predicate Storable(f: Field, depth: nat)
    decreases f
  {
    && 1 <= f.num <= MAX_FIELD_NUMBER
    && match f
       case LenField(_, payload) => |payload| <= MAX_SIZE
       case GroupField(_, fields) => depth > 0 && forall g | g in fields :: Storable(g, depth - 1)
       case _ => true
  }

  predicate AllStorable(fs: seq<Field>, depth: nat) {
    forall f | f in fs :: Storable(f, depth)
  }

  function EncodePayload(f: Field): bytes
    decreases f, 0
  {
    match f
    case VarintField(_, u) => Varint(u)
    case Fixed64Field(_, bits) => LittleEndian(bits, 8)
    case LenField(_, payload) => Varint(|payload|) + payload
    case GroupField(num, fields) => EncodeAll(fields) + Varint(Tag(num, END_GROUP))
    case Fixed32Field(_, word) => LittleEndian(word, 4)
  }

  function Encode(f: Field): bytes
    decreases f, 1
  {
    Varint(TagOf(f)) + EncodePayload(f)
  }

  function EncodeAll(fs: seq<Field>): bytes
    decreases fs, 2
  {
    if fs == [] then [] else Encode(fs[0]) + EncodeAll(fs[1..])
  }

  /** Reads what follows `tag`: the payload of one field. */
  function ReadPayload(tag: uint32, s: bytes, depth: nat): (r: Option<Read<Field>>)
    ensures r.Some? ==> |r.value.rest| < |s|
    decreases |s|, 1
  {
    var num := tag / 8;
    if num == 0 then None
    else match tag % 8
      case 0 =>
        var v :- ReadUint64(s);
        Some(Read(VarintField(num, v.value), v.rest))
      case 1 =>
        var v :- ReadFixed64(s);
        Some(Read(Fixed64Field(num, v.value), v.rest))
      case 2 =>
        var v :- ReadLen(s);
        Some(Read(LenField(num, v.value), v.rest))
      case 3 =>
        if depth == 0 then None
        else
          var v :- ReadGroup(num, s, depth - 1);
          Some(Read(GroupField(num, v.value), v.rest))
      case 5 =>
        var v :- ReadFixed32(s);
        Some(Read(Fixed32Field(num, v.value), v.rest))
      case _ => None
  }

  /** Reads fields up to and including the end-group tag that carries the group's own number. */
  function ReadGroup(num: nat, s: bytes, depth: nat): (r: Option<Read<seq<Field>>>)
    ensures r.Some? ==> |r.value.rest| < |s|
    decreases |s|, 0
  {
    var tag :- ReadTag(s);
    if tag.value % 8 == END_GROUP then
      if tag.value == Tag(num, END_GROUP) then Some(Read([], tag.rest)) else None
    else
      var f :- ReadPayload(tag.value, tag.rest, depth);
      var tail :- ReadGroup(num, f.rest, depth);
      Some(Read([f.value] + tail.value, tail.rest))
  }

  /** Reads the field under a tag. A zero tag or a stray end-group tag ends no message. */
  function ReadTagged(tag: uint32, s: bytes, depth: nat): (r: Option<Read<Field>>)
    ensures r.Some? ==> |r.value.rest| < |s|
  {
    if tag == 0 || tag % 8 == END_GROUP then None else ReadPayload(tag, s, depth)
  }

  /** Reads one field: its tag, then its payload. */
  function ReadField(s: bytes, depth: nat): (r: Option<Read<Field>>)
    ensures r.Some? ==> |r.value.rest| < |s|
  {
    var tag :- ReadTag(s);
    ReadTagged(tag.value, tag.rest, depth)
  }

  /** Reads a whole message body. */
  function ReadAll(s: bytes, depth: nat): Option<seq<Field>>
    decreases |s|
  {
    if s == [] then Some([])
    else
      var f :- ReadField(s, depth);
      var tail :- ReadAll(f.rest, depth);
      Some([f.value] + tail)
  }

  // ---------------------------------------------------------------- laws

  lemma TagRoundTrip(tag: uint32, t: bytes)
    ensures ReadTag(Varint(tag) + t) == Some(Read(tag, t))
  {
    hide Varint, ReadVarint;
    WordFits(tag);
    VarintRoundTrip(tag, t, 5);
  }

  lemma LenRoundTrip(payload: bytes, t: bytes)
    requires |payload| <= MAX_SIZE
    ensures ReadLen(Varint(|payload|) + payload + t) == Some(Read(payload, t))
  {
    WordFits(|payload|);
    assert Varint(|payload|) + payload + t == Varint(|payload|) + (payload + t);
    VarintRoundTrip(|payload|, payload + t, 5);
  }

  lemma TagParts(num: nat, wireType: nat)
    requires wireType < 8
    ensures Tag(num, wireType) / 8 == num && Tag(num, wireType) % 8 == wireType
  {
  }

  lemma FixedRoundTrip(n: nat, k: nat, t: bytes)
    requires n < Exp(256, k)
    ensures var s := LittleEndian(n, k) + t;
            FromLittleEndian(s[..k]) == n && s[k..] == t
  {
    LittleEndianRoundTrip(n, k);
    assert (LittleEndian(n, k) + t)[..k] == LittleEndian(n, k);
  }

  /** What is written for a field is read back as that field, whatever follows. */
  lemma {:induction false} PayloadRoundTrip(f: Field, t: bytes, depth: nat)
    requires Storable(f, depth)
    ensures ReadPayload(TagOf(f), EncodePayload(f) + t, depth) == Some(Read(f, t))
    decreases f, 1
  {
    TagParts(f.num, WireType(f));
    if f.GroupField? {
      GroupRoundTrip(f.num, f.fields, t, depth - 1);
    } else {
      ScalarRoundTrip(f, t, depth);
    }
  }

  lemma ScalarRoundTrip(f: Field, t: bytes, depth: nat)
    requires Storable(f, depth) && !f.GroupField?
    ensures ReadPayload(TagOf(f), EncodePayload(f) + t, depth) == Some(Read(f, t))
  {
    if f.VarintField? {
      VarintFieldRoundTrip(f, t, depth);
    } else if f.LenField? {
      LenFieldRoundTrip(f, t, depth);
    } else {
      FixedFieldRoundTrip(f, t, depth);
    }
  }

  lemma VarintFieldRoundTrip(f: Field, t: bytes, depth: nat)
    requires Storable(f, depth) && f.VarintField?
    ensures ReadPayload(TagOf(f), EncodePayload(f) + t, depth) == Some(Read(f, t))
  {
    TagParts(f.num, 0);
    WordFits(f.u);
    VarintRoundTrip(f.u, t, 10);
  }

  lemma LenFieldRoundTrip(f: Field, t: bytes, depth: nat)
    requires Storable(f, depth) && f.LenField?
    ensures ReadPayload(TagOf(f), EncodePayload(f) + t, depth) == Some(Read(f, t))
  {
    TagParts(f.num, 2);
    LenRoundTrip(f.payload, t);
  }

  lemma FixedFieldRoundTrip(f: Field, t: bytes, depth: nat)
    requires Storable(f, depth) && (f.Fixed64Field? || f.Fixed32Field?)
    ensures ReadPayload(TagOf(f), EncodePayload(f) + t, depth) == Some(Read(f, t))
  {
    TagParts(f.num, WireType(f));
    ExpOf256();
    if f.Fixed64Field? { FixedRoundTrip(f.bits, 8, t); } else { FixedRoundTrip(f.word, 4, t); }
  }

  lemma {:induction false} GroupRoundTrip(num: nat, fs: seq<Field>, t: bytes, depth: nat)
    requires 1 <= num <= MAX_FIELD_NUMBER
    requires AllStorable(fs, depth)
    ensures ReadGroup(num, EncodeAll(fs) + Varint(Tag(num, END_GROUP)) + t, depth) == Some(Read(fs, t))
    decreases fs, 0
  {
    var end := Varint(Tag(num, END_GROUP));
    var s := EncodeAll(fs) + end + t;
    if fs == [] {
      TagParts(num, END_GROUP);
      assert s == end + t;
      TagRoundTrip(Tag(num, END_GROUP), t);
    } else {
      var tail := EncodeAll(fs[1..]) + end + t;
      assert Storable(fs[0], depth);
      PayloadRoundTrip(fs[0], tail, depth);
      GroupRoundTrip(num, fs[1..], t, depth);
      EncodeAllSplit(fs, end, t);
      GroupStep(num, s, fs[0], tail, depth);
      assert [fs[0]] + fs[1..] == fs;
    }
  }

  /** One turn of the group loop over a field that was just written. */
  lemma GroupStep(num: nat, s: bytes, f: Field, tail: bytes, depth: nat)
    requires Storable(f, depth)
    requires s == Varint(TagOf(f)) + (EncodePayload(f) + tail)
    requires ReadPayload(TagOf(f), EncodePayload(f) + tail, depth) == Some(Read(f, tail))
    requires ReadGroup(num, tail, depth).Some?
    ensures ReadGroup(num, s, depth) ==
            Some(Read([f] + ReadGroup(num, tail, depth).value.value, ReadGroup(num, tail, depth).value.rest))
  {
    TagParts(f.num, WireType(f));
    TagRoundTrip(TagOf(f), EncodePayload(f) + tail);
  }

  lemma EncodeAllSplit(fs: seq<Field>, u: bytes, t: bytes)
    requires fs != []
    ensures EncodeAll(fs) + u + t == Varint(TagOf(fs[0])) + (EncodePayload(fs[0]) + (EncodeAll(fs[1..]) + u + t))
  {
    var a, p, r := Varint(TagOf(fs[0])), EncodePayload(fs[0]), EncodeAll(fs[1..]);
    assert EncodeAll(fs) == (a + p) + r;
    Associate(a, p, r, u, t);
  }

  lemma Associate(a: bytes, p: bytes, r: bytes, u: bytes, t: bytes)
    ensures ((a + p) + r) + u + t == a + (p + (r + u + t))
  {
  }

  lemma FieldRoundTrip(f: Field, t: bytes, depth: nat)
    requires Storable(f, depth)
    ensures ReadField(Encode(f) + t, depth) == Some(Read(f, t))
  {
    assert Encode(f) + t == Varint(TagOf(f)) + (EncodePayload(f) + t);
    TagRoundTrip(TagOf(f), EncodePayload(f) + t);
    PayloadRoundTrip(f, t, depth);
  }

  /** The tag that was written for a field, and the field under it, as the parse loop reads them. */
  lemma TaggedRoundTrip(f: Field, t: bytes, depth: nat)
    requires Storable(f, depth)
    ensures TagOf(f) < 0x1_0000_0000
    ensures ReadTag(Encode(f) + t) == Some(Read(TagOf(f), EncodePayload(f) + t))
    ensures ReadTagged(TagOf(f), EncodePayload(f) + t, depth) == Some(Read(f, t))
  {
    TagParts(f.num, WireType(f));
    ConcatAssociates(Varint(TagOf(f)), EncodePayload(f), t);
    TagRoundTrip(TagOf(f), EncodePayload(f) + t);
    PayloadRoundTrip(f, t, depth);
  }

  /** A message body made of storable fields is read back field for field. */
  lemma {:induction false} BodyRoundTrip(fs: seq<Field>, depth: nat)
    requires AllStorable(fs, depth)
    ensures ReadAll(EncodeAll(fs), depth) == Some(fs)
  {
    if fs != [] {
      FieldRoundTrip(fs[0], EncodeAll(fs[1..]), depth);
      BodyRoundTrip(fs[1..], depth);
      assert [fs[0]] + fs[1..] == fs;
    }
  }

  lemma ConcatAssociates<T>(a: seq<T>, b: seq<T>, c: seq<T>)
    ensures (a + b) + c == a + (b + c)
  {
  }

  lemma {:induction false} EncodeAllConcat(a: seq<Field>, b: seq<Field>)
    ensures EncodeAll(a + b) == EncodeAll(a) + EncodeAll(b)
  {
    hide Encode;
    if a == [] {
      assert a + b == b;
    } else {
      EncodeAllConcat(a[1..], b);
      assert (a + b)[1..] == a[1..] + b && (a + b)[0] == a[0];
      ConcatAssociates(Encode(a[0]), EncodeAll(a[1..]), EncodeAll(b));
    }
  }

  lemma FixedExtends(s: bytes, t: bytes, k: nat)
    requires k <= |s|
    ensures (s + t)[..k] == s[..k] && (s + t)[k..] == s[k..] + t
  {
  }

  lemma LenExtends(s: bytes, t: bytes)
    requires ReadLen(s).Some?
    ensures ReadLen(s + t) == Some(Read(ReadLen(s).value.value, ReadLen(s).value.rest + t))
  {
    VarintExtends(s, t, 5);
    var v := ReadVarint(s, 5).value;
    FixedExtends(v.rest, t, v.value);
  }

  lemma {:induction false} PayloadExtends(tag: uint32, s: bytes, t: bytes, depth: nat)
    requires ReadPayload(tag, s, depth).Some?
    ensures var r := ReadPayload(tag, s, depth).value;
            ReadPayload(tag, s + t, depth) == Some(Read(r.value, r.rest + t))
    decreases |s|, 1
  {
    match tag % 8
    case 0 => VarintExtends(s, t, 10);
    case 1 => FixedExtends(s, t, 8);
    case 2 => LenExtends(s, t);
    case 3 => GroupExtends(tag / 8, s, t, depth - 1);
    case 5 => FixedExtends(s, t, 4);
    case _ =>
  }

  lemma {:induction false} GroupExtends(num: nat, s: bytes, t: bytes, depth: nat)
    requires ReadGroup(num, s, depth).Some?
    ensures var r := ReadGroup(num, s, depth).value;
            ReadGroup(num, s + t, depth) == Some(Read(r.value, r.rest + t))
    decreases |s|, 0
  {
    VarintExtends(s, t, 5);
    var tag := ReadTag(s).value;
    if tag.value % 8 != END_GROUP {
      PayloadExtends(tag.value, tag.rest, t, depth);
      GroupExtends(num, ReadPayload(tag.value, tag.rest, depth).value.rest, t, depth);
    }
  }

  lemma FieldExtends(s: bytes, t: bytes, depth: nat)
    requires ReadField(s, depth).Some?
    ensures var r := ReadField(s, depth).value;
            ReadField(s + t, depth) == Some(Read(r.value, r.rest + t))
  {
    VarintExtends(s, t, 5);
    var tag := ReadTag(s).value;
    PayloadExtends(tag.value, tag.rest, t, depth);
  }

  /** Bodies concatenate: after any accepted body, the rest is read as if it stood alone. */
  lemma {:induction false} BodyConcat(a: bytes, b: bytes, depth: nat)
    requires ReadAll(a, depth).Some?
    ensures ReadAll(a + b, depth) ==
            if ReadAll(b, depth).None? then None
            else Some(ReadAll(a, depth).value + ReadAll(b, depth).value)
    decreases |a|
  {
    if a == [] {
      assert a + b == b;
      if ReadAll(b, depth).Some? { assert [] + ReadAll(b, depth).value == ReadAll(b, depth).value; }
    } else {
      FieldExtends(a, b, depth);
      var f := ReadField(a, depth).value;
      BodyConcat(f.rest, b, depth);
      if ReadAll(b, depth).Some? {
        ConcatAssociates([f.value], ReadAll(f.rest, depth).value, ReadAll(b, depth).value);
      }
    }
  }

  /**
    Everything the reader produces is storable again, carries the tag it was read under, and its
    canonical form is no longer than the bytes it came from.
   */
  lemma {:induction false} PayloadSound(tag: uint32, s: bytes, depth: nat)
    requires ReadPayload(tag, s, depth).Some?
    ensures var r := ReadPayload(tag, s, depth).value;
            && Storable(r.value, depth)
            && TagOf(r.value) == tag
            && |EncodePayload(r.value)| + |r.rest| <= |s|
    decreases |s|, 1
  {
    var r := ReadPayload(tag, s, depth).value;
    match tag % 8
    case 0 =>
      VarintShortest(s, 10);
      VarintMonotone(r.value.u, ReadVarint(s, 10).value.value);
    case 2 => VarintShortest(s, 5);
    case 3 => GroupSound(tag / 8, s, depth - 1);
    case _ =>
  }

  lemma {:induction false} GroupSound(num: nat, s: bytes, depth: nat)
    requires num <= MAX_FIELD_NUMBER
    requires ReadGroup(num, s, depth).Some?
    ensures var r := ReadGroup(num, s, depth).value;
            && AllStorable(r.value, depth)
            && |EncodeAll(r.value)| + |Varint(Tag(num, END_GROUP))| + |r.rest| <= |s|
    decreases |s|, 0
  {
    TagSound(s);
    var tag := ReadTag(s).value;
    if tag.value % 8 != END_GROUP {
      var f := ReadPayload(tag.value, tag.rest, depth).value;
      PayloadSound(tag.value, tag.rest, depth);
      GroupSound(num, f.rest, depth);
    }
  }

  lemma TagSound(s: bytes)
    requires ReadTag(s).Some?
    ensures |Varint(ReadTag(s).value.value)| + |ReadTag(s).value.rest| <= |s|
  {
    VarintShortest(s, 5);
    VarintMonotone(ReadTag(s).value.value, ReadVarint(s, 5).value.value);
  }

  lemma FieldSound(s: bytes, depth: nat)
    requires ReadField(s, depth).Some?
    ensures var r := ReadField(s, depth).value;
            Storable(r.value, depth) && |Encode(r.value)| + |r.rest| <= |s|
  {
    TagSound(s);
    PayloadSound(ReadTag(s).value.value, ReadTag(s).value.rest, depth);
  }

  lemma {:induction false} BodySound(s: bytes, depth: nat)
    requires ReadAll(s, depth).Some?
    ensures AllStorable(ReadAll(s, depth).value, depth)
    ensures |EncodeAll(ReadAll(s, depth).value)| <= |s|
    decreases |s|
  {
    if s != [] {
      FieldSound(s, depth);
      BodySound(ReadField(s, depth).value.rest, depth);
    }
  }

  // ---------------------------------------------------------------- positions in a buffer

  /** The part of a buffer between the parser's pointer and its limit. */
  function Ahead(buf: bytes, ptr: nat, limit: nat): bytes
    requires ptr <= limit <= |buf|
  {
    buf[ptr..limit]
  }

  /** `rest` is what is ahead of the pointer that a reader returns. */
  predicate EndsWith(s: bytes, rest: bytes) {
    |rest| <= |s| && rest == s[|s| - |rest|..]
  }

  lemma Advance(buf: bytes, ptr: nat, limit: nat, rest: bytes)
    requires ptr <= limit <= |buf| && EndsWith(Ahead(buf, ptr, limit), rest)
    ensures ptr <= limit - |rest| && Ahead(buf, limit - |rest|, limit) == rest
  {
  }

  lemma {:induction false} VarintSuffix(s: bytes, max: nat)
    requires ReadVarint(s, max).Some?
    ensures EndsWith(s, ReadVarint(s, max).value.rest)
    decreases max
  {
    if s[0] >= 128 { VarintSuffix(s[1..], max - 1); }
  }

  lemma SuffixOfSuffix(s: bytes, t: bytes, u: bytes)
    requires EndsWith(s, t) && EndsWith(t, u)
    ensures EndsWith(s, u)
  {
  }

  lemma LenSuffix(s: bytes)
    requires ReadLen(s).Some?
    ensures EndsWith(s, ReadLen(s).value.rest)
  {
    VarintSuffix(s, 5);
  }

  /** The switch compares the field number and then only the low byte of the tag, which settles the tag. */
  predicate IsTag(tag: uint32, num: nat, low: byte): (b: bool)
    requires num == low / 8
    ensures b <==> tag == low
  {
    tag / 8 == num && tag % 0x100 == low
  }

  /** What the parser's switch reads under a tag whose number and wire type it knows. */
  lemma KnownTag(num: nat, wireType: nat, s: bytes, depth: nat)
    requires 0 < num < 16 && wireType in {0, 1, 2}
    ensures var r := ReadTagged(Tag(num, wireType), s, depth);
            && (wireType == 0 ==> r == var v := ReadUint64(s);
                  if v.None? then None else Some(Read(VarintField(num, v.value.value), v.value.rest)))
            && (wireType == 1 ==> r == var v := ReadFixed64(s);
                  if v.None? then None else Some(Read(Fixed64Field(num, v.value.value), v.value.rest)))
            && (wireType == 2 ==> r == var v := ReadLen(s);
                  if v.None? then None else Some(Read(LenField(num, v.value.value), v.value.rest)))
  {
    TagParts(num, wireType);
  }

  /** The field read under a tag has the number and the wire type that the tag says. */
  lemma PayloadTag(tag: uint32, s: bytes, depth: nat)
    requires ReadPayload(tag, s, depth).Some?
    ensures TagOf(ReadPayload(tag, s, depth).value.value) == tag
    ensures WireType(ReadPayload(tag, s, depth).value.value) == tag % 8
  {
  }

  lemma {:induction false} PayloadSuffix(tag: uint32, s: bytes, depth: nat)
    requires ReadPayload(tag, s, depth).Some?
    ensures EndsWith(s, ReadPayload(tag, s, depth).value.rest)
    decreases |s|, 1
  {
    match tag % 8
    case 0 => VarintSuffix(s, 10);
    case 2 => LenSuffix(s);
    case 3 => GroupSuffix(tag / 8, s, depth - 1);
    case _ =>
  }

  lemma {:induction false} GroupSuffix(num: nat, s: bytes, depth: nat)
    requires ReadGroup(num, s, depth).Some?
    ensures EndsWith(s, ReadGroup(num, s, depth).value.rest)
    decreases |s|, 0
  {
    VarintSuffix(s, 5);
    var tag := ReadTag(s).value;
    if tag.value % 8 != END_GROUP {
      var f := ReadPayload(tag.value, tag.rest, depth).value;
      PayloadSuffix(tag.value, tag.rest, depth);
      GroupSuffix(num, f.rest, depth);
      SuffixOfSuffix(s, tag.rest, f.rest);
      SuffixOfSuffix(s, f.rest, ReadGroup(num, f.rest, depth).value.rest);
    }
  }

  // The parser's helpers: each reads at the pointer and returns the pointer past what it took.

  method NextTag(buf: bytes, ptr: nat, limit: nat) returns (ok: bool, tag: uint32, next: nat)
    requires ptr <= limit <= |buf|
    ensures ok <==> ReadTag(Ahead(buf, ptr, limit)).Some?
    ensures ok ==> ptr < next <= limit && ReadTag(Ahead(buf, ptr, limit)) == Some(Read(tag, Ahead(buf, next, limit)))
  {
    var t := ReadTag(Ahead(buf, ptr, limit));
    if t.None? { return false, 0, ptr; }
    VarintSuffix(Ahead(buf, ptr, limit), 5);
    Advance(buf, ptr, limit, t.value.rest);
    return true, t.value.value, limit - |t.value.rest|;
  }

  method NextUint64(buf: bytes, ptr: nat, limit: nat) returns (ok: bool, v: uint64, next: nat)
    requires ptr <= limit <= |buf|
    ensures ok <==> ReadUint64(Ahead(buf, ptr, limit)).Some?
    ensures ok ==> ptr < next <= limit && ReadUint64(Ahead(buf, ptr, limit)) == Some(Read(v, Ahead(buf, next, limit)))
  {
    var r := ReadUint64(Ahead(buf, ptr, limit));
    if r.None? { return false, 0, ptr; }
    VarintSuffix(Ahead(buf, ptr, limit), 10);
    Advance(buf, ptr, limit, r.value.rest);
    return true, r.value.value, limit - |r.value.rest|;
  }

  method NextDouble(buf: bytes, ptr: nat, limit: nat) returns (ok: bool, v: uint64, next: nat)
    requires ptr <= limit <= |buf|
    ensures ok <==> ReadFixed64(Ahead(buf, ptr, limit)).Some?
    ensures ok ==> ptr < next <= limit && ReadFixed64(Ahead(buf, ptr, limit)) == Some(Read(v, Ahead(buf, next, limit)))
  {
    var r := ReadFixed64(Ahead(buf, ptr, limit));
    if r.None? { return false, 0, ptr; }
    Advance(buf, ptr, limit, r.value.rest);
    return true, r.value.value, ptr + 8;
  }

  method NextLen(buf: bytes, ptr: nat, limit: nat) returns (ok: bool, v: bytes, next: nat)
    requires ptr <= limit <= |buf|
    ensures ok <==> ReadLen(Ahead(buf, ptr, limit)).Some?
    ensures ok ==> ptr < next <= limit && ReadLen(Ahead(buf, ptr, limit)) == Some(Read(v, Ahead(buf, next, limit)))
  {
    var r := ReadLen(Ahead(buf, ptr, limit));
    if r.None? { return false, [], ptr; }
    LenSuffix(Ahead(buf, ptr, limit));
    Advance(buf, ptr, limit, r.value.rest);
    return true, r.value.value, limit - |r.value.rest|;
  }

  /** The field that the switch has no case for; a zero tag or an end-group tag ends the parse instead. */
  method UnknownFieldParse(tag: uint32, buf: bytes, ptr: nat, limit: nat, depth: nat)
    returns (ok: bool, f: Field, next: nat)
    requires ptr <= limit <= |buf|
    ensures ok <==> ReadTagged(tag, Ahead(buf, ptr, limit), depth).Some?
    ensures ok ==> ptr < next <= limit && TagOf(f) == tag && WireType(f) == tag % 8
                   && ReadTagged(tag, Ahead(buf, ptr, limit), depth) == Some(Read(f, Ahead(buf, next, limit)))
  {
    f := VarintField(0, 0);
    if tag == 0 || tag % 8 == END_GROUP { return false, f, ptr; }
    var r := ReadPayload(tag, Ahead(buf, ptr, limit), depth);
    if r.None? { return false, f, ptr; }
    PayloadTag(tag, Ahead(buf, ptr, limit), depth);
    PayloadSuffix(tag, Ahead(buf, ptr, limit), depth);
    Advance(buf, ptr, limit, r.value.rest);
    return true, r.value.value, limit - |r.value.rest|;
  }
}
