/**
  tz.ClientPacket.Data as a value: what one message holds, the fields it is written as, how one wire
  field changes it, and the laws that tie writing, reading and merging together.
 */
module ClientPacketData {
  import opened Wrappers
  import opened Wire
  import opened Scalars

  datatype Data = Data(uuid: bytes, timestamp: int64, x: uint64, y: uint64, unknown: seq<Field>) {
    /** The fields written for this message, in the order they are written. */
    function Fields(): seq<Field> {
      StringFields(1, uuid) + (Int64Fields(2, timestamp) + (DoubleFields(3, x) + (DoubleFields(4, y) + unknown)))
    }

    function Serialize(): bytes {
      EncodeAll(Fields())
    }

    /** The size pass. */
    function Size(): nat {
      StringSize(uuid) + Int64Size(timestamp) + DoubleSize(x) + DoubleSize(y) + UnknownSize(unknown)
    }

    /** One turn of the parse loop; None when the field makes the parse fail. */
    function Apply(f: Field): Option<Data> {
      match f
      case LenField(1, s) => if ValidUtf8(s) then Some(this.(uuid := s)) else None
      case VarintField(2, u) => Some(this.(timestamp := ToInt64(u)))
      case Fixed64Field(3, b) => Some(this.(x := b))
      case Fixed64Field(4, b) => Some(this.(y := b))
      case _ => Some(this.(unknown := unknown + [f]))
    }

    function ApplyAll(fs: seq<Field>): Option<Data>
      decreases |fs|
    {
      if fs == [] then Some(this)
      else
        var next :- Apply(fs[0]);
        next.ApplyAll(fs[1..])
    }

    /** Parses `s` on top of this message. */
    function Parse(s: bytes, depth: nat): Option<Data> {
      var fs :- ReadAll(s, depth);
      ApplyAll(fs)
    }

    /** How a parse of `s` on top of this message ends. */
    function Reach(s: bytes, depth: nat): Outcome<Data>
      decreases |s|, 1
    {
      if s == [] then Done(this)
      else match ReadTag(s)
        case None => Stuck(this, None, s)
        case Some(t) => ReachTagged(t.value, t.rest, depth)
    }

    /** The same when the next tag has just been read. */
    function ReachTagged(tag: uint32, s: bytes, depth: nat): Outcome<Data>
      decreases |s|, 0
    {
      match ReadTagged(tag, s, depth)
      case None => Stuck(this, Some(tag), s)
      case Some(f) =>
        match Apply(f.value)
        case None => Stuck(this, Some(tag), s)
        case Some(next) => next.Reach(f.rest, depth)
    }

    /** Values the other message would write replace this one's; its unknown fields come after. */
    function Merge(other: Data): Data {
      Data(
        if other.uuid != [] then other.uuid else uuid,
        if other.timestamp != 0 then other.timestamp else timestamp,
        if Skipped(other.x) then x else other.x,
        if Skipped(other.y) then y else other.y,
        unknown + other.unknown)
    }

    /** This message with every negative zero made positive. */
    function Normal(): Data {
      this.(x := Unsigned(x), y := Unsigned(y))
    }

    predicate HasNegativeZero() {
      x == NEGATIVE_ZERO || y == NEGATIVE_ZERO
    }

    /** A message that the parser can build, with `depth` levels of nesting allowed below it. */
    predicate WellFormed(depth: nat) {
      ValidUtf8(uuid) && Buildable(depth)
    }

    /** One that the setters can build too: they take any bytes for a string. */
    predicate Buildable(depth: nat) {
      && |uuid| <= MAX_SIZE
      && AllStorable(unknown, depth)
      && forall f | f in unknown :: !Known(f)
    }
  }

  const DEFAULT := Data([], 0, 0, 0, [])

  /** The number and wire-type pairs that the parse loop has a case for. */
  predicate Known(f: Field) {
    || (f.LenField? && f.num == 1)
    || (f.VarintField? && f.num == 2)
    || (f.Fixed64Field? && (f.num == 3 || f.num == 4))
  }

  /** `m` differs from `d` at most in the member that the field under `tag` sets. */
  predicate SameBut(d: Data, m: Data, tag: uint32) {
    match tag
    case 10 => m == d.(uuid := m.uuid)
    case 16 => m == d.(timestamp := m.timestamp)
    case 25 => m == d.(x := m.x)
    case 33 => m == d.(y := m.y)
    case _ => m == d.(unknown := m.unknown)
  }

  /**
    What a parse that got stuck may leave in the object: everything read before is there, and only the
    member of the stuck field is open. A string that was read but is no UTF-8 has been stored by then; a
    zero tag or an end-group tag changes nothing.
   */
  ghost predicate Left(o: Outcome<Data>, m: Data)
    requires o.Stuck?
  {
    match o.tag
    case None => exists tag :: SameBut(o.value, m, tag)
    case Some(tag) =>
      && SameBut(o.value, m, tag)
      && (tag == 10 && ReadLen(o.rest).Some? ==> m.uuid == ReadLen(o.rest).value.value)
      && (tag == 0 || tag % 8 == END_GROUP ==> m == o.value)
  }

  lemma DefaultIsEmpty(d: Data)
    requires d == DEFAULT
    ensures d.Size() == 0
  {
    SkippedIffZero(0);
  }

  /** The size pass agrees with the bytes written. */
  lemma SizeIsLength(d: Data)
    ensures d.Size() == |d.Serialize()|
  {
    ScalarSizes(1, d.uuid, 0, 0);
    ScalarSizes(2, [], d.timestamp, 0);
    ScalarSizes(3, [], 0, d.x);
    ScalarSizes(4, [], 0, d.y);
    UnknownSizeConcat(DoubleFields(4, d.y), d.unknown);
    var ys := DoubleFields(4, d.y) + d.unknown;
    UnknownSizeConcat(DoubleFields(3, d.x), ys);
    var xs := DoubleFields(3, d.x) + ys;
    UnknownSizeConcat(Int64Fields(2, d.timestamp), xs);
    UnknownSizeConcat(StringFields(1, d.uuid), Int64Fields(2, d.timestamp) + xs);
  }

  lemma {:induction false} ApplyAllConcat(d: Data, a: seq<Field>, b: seq<Field>)
    ensures d.ApplyAll(a + b) == if d.ApplyAll(a).None? then None else d.ApplyAll(a).value.ApplyAll(b)
    decreases |a|
  {
    if a == [] {
      assert a + b == b;
    } else {
      assert (a + b)[0] == a[0] && (a + b)[1..] == a[1..] + b;
      if d.Apply(a[0]).Some? { ApplyAllConcat(d.Apply(a[0]).value, a[1..], b); }
    }
  }

  lemma ApplyOne(d: Data, f: Field)
    ensures d.ApplyAll([f]) == d.Apply(f)
  {
    assert [f][1..] == [];
  }

  /** Fields the parser has no case for are kept, in order, and change nothing else. */
  lemma {:induction false} UnknownAreKept(d: Data, us: seq<Field>)
    requires forall f | f in us :: !Known(f)
    ensures d.ApplyAll(us) == Some(d.(unknown := d.unknown + us))
    decreases |us|
  {
    if us == [] {
      assert d.unknown + us == d.unknown;
    } else {
      var next := d.(unknown := d.unknown + [us[0]]);
      assert us[0] in us;
      UnknownAreKept(next, us[1..]);
      assert d.unknown + [us[0]] + us[1..] == d.unknown + us;
    }
  }

  lemma FieldsAreStorable(d: Data, depth: nat)
    requires d.Buildable(depth)
    ensures AllStorable(d.Fields(), depth)
  {
  }

  lemma ScalarsAreApplied(d: Data, s: bytes, n: int64, b: uint64)
    requires ValidUtf8(s)
    ensures d.ApplyAll(StringFields(1, s)) == Some(if s == [] then d else d.(uuid := s))
    ensures d.ApplyAll(Int64Fields(2, n)) == Some(if n == 0 then d else d.(timestamp := n))
    ensures d.ApplyAll(DoubleFields(3, b)) == Some(if Skipped(b) then d else d.(x := b))
    ensures d.ApplyAll(DoubleFields(4, b)) == Some(if Skipped(b) then d else d.(y := b))
  {
    if s != [] { ApplyOne(d, LenField(1, s)); }
    if n != 0 { ApplyOne(d, VarintField(2, ToUint64(n))); }
    if !Skipped(b) {
      ApplyOne(d, Fixed64Field(3, b));
      ApplyOne(d, Fixed64Field(4, b));
    }
  }

  /** Applying the fields a message is written as is merging that message. */
  lemma FieldsMerge(d: Data, e: Data, depth: nat)
    requires e.WellFormed(depth)
    ensures d.ApplyAll(e.Fields()) == Some(d.Merge(e))
  {
    var us, ts := StringFields(1, e.uuid), Int64Fields(2, e.timestamp);
    var xs, ys := DoubleFields(3, e.x), DoubleFields(4, e.y);
    var d1 := if e.uuid == [] then d else d.(uuid := e.uuid);
    var d2 := if e.timestamp == 0 then d1 else d1.(timestamp := e.timestamp);
    var d3 := if Skipped(e.x) then d2 else d2.(x := e.x);
    var d4 := if Skipped(e.y) then d3 else d3.(y := e.y);
    ScalarsAreApplied(d, e.uuid, 0, 0);
    ScalarsAreApplied(d1, [], e.timestamp, 0);
    ScalarsAreApplied(d2, [], 0, e.x);
    ScalarsAreApplied(d3, [], 0, e.y);
    UnknownAreKept(d4, e.unknown);
    ApplyAllConcat(d3, ys, e.unknown);
    ApplyAllConcat(d2, xs, ys + e.unknown);
    ApplyAllConcat(d1, ts, xs + (ys + e.unknown));
    ApplyAllConcat(d, us, ts + (xs + (ys + e.unknown)));
  }

  /** Parsing what a message is written as, on top of any message, merges the first into the second. */
  lemma ParseIsMerge(d: Data, e: Data, depth: nat)
    requires e.WellFormed(depth)
    ensures d.Parse(e.Serialize(), depth) == Some(d.Merge(e))
  {
    FieldsAreStorable(e, depth);
    BodyRoundTrip(e.Fields(), depth);
    FieldsMerge(d, e, depth);
  }

  lemma MergeIntoDefault(d: Data)
    ensures DEFAULT.Merge(d) == d.Normal()
    ensures d.Normal() == d <==> !d.HasNegativeZero()
  {
    SkippedIffZero(d.x);
    SkippedIffZero(d.y);
    assert [] + d.unknown == d.unknown;
  }

  /**
    The round trip: a well-formed message comes back as itself up to the sign of zero, and exactly as
    itself if and only if it holds no negative zero.
   */
  lemma RoundTrip(d: Data, depth: nat)
    requires d.WellFormed(depth)
    ensures DEFAULT.Parse(d.Serialize(), depth) == Some(d.Normal())
    ensures DEFAULT.Parse(d.Serialize(), depth) == Some(d) <==> !d.HasNegativeZero()
  {
    ParseIsMerge(DEFAULT, d, depth);
    MergeIntoDefault(d);
  }

  lemma NormalSerializesAlike(d: Data)
    ensures d.Normal().Serialize() == d.Serialize()
    ensures d.Normal().Normal() == d.Normal()
  {
    SkippedIffZero(d.x);
    SkippedIffZero(d.y);
  }

  /** Parsing a concatenation is parsing the second part on top of the first. */
  lemma ParseConcat(d: Data, a: bytes, b: bytes, depth: nat)
    requires d.Parse(a, depth).Some?
    ensures d.Parse(a + b, depth) == d.Parse(a, depth).value.Parse(b, depth)
  {
    BodyConcat(a, b, depth);
    if ReadAll(b, depth).Some? {
      ApplyAllConcat(d, ReadAll(a, depth).value, ReadAll(b, depth).value);
    }
  }

  /** Of the messages that can be built, those that can be read back are the ones whose string is UTF-8. */
  lemma ReadableIff(d: Data, e: Data, depth: nat)
    requires e.Buildable(depth)
    ensures d.Parse(e.Serialize(), depth).Some? <==> ValidUtf8(e.uuid)
  {
    if ValidUtf8(e.uuid) {
      ParseIsMerge(d, e, depth);
    } else {
      FieldsAreStorable(e, depth);
      BodyRoundTrip(e.Fields(), depth);
      assert e.Fields()[0] == LenField(1, e.uuid);
    }
  }

  lemma {:induction false} ApplyAllSound(d: Data, fs: seq<Field>, depth: nat)
    requires d.WellFormed(depth) && AllStorable(fs, depth)
    requires d.ApplyAll(fs).Some?
    ensures d.ApplyAll(fs).value.WellFormed(depth)
    ensures d.ApplyAll(fs).value.Size() <= d.Size() + UnknownSize(fs)
    decreases |fs|
  {
    if fs != [] {
      assert fs[0] in fs;
      ApplySound(d, fs[0], depth);
      ApplyAllSound(d.Apply(fs[0]).value, fs[1..], depth);
    }
  }

  lemma ApplySound(d: Data, f: Field, depth: nat)
    requires d.WellFormed(depth) && Storable(f, depth)
    requires d.Apply(f).Some?
    ensures d.Apply(f).value.WellFormed(depth)
    ensures d.Apply(f).value.Size() <= d.Size() + FieldSize(f)
  {
    if !Known(f) {
      UnknownSizeConcat(d.unknown, [f]);
      SingletonSize(f);
    }
  }

  /** An accepted body leaves a well-formed message behind, and adds no more to it than its own length. */
  lemma ParseSound(d: Data, s: bytes, depth: nat)
    requires d.WellFormed(depth)
    requires d.Parse(s, depth).Some?
    ensures d.Parse(s, depth).value.WellFormed(depth)
    ensures d.Parse(s, depth).value.Size() <= d.Size() + |s|
  {
    BodySound(s, depth);
    ApplyAllSound(d, ReadAll(s, depth).value, depth);
  }

  lemma ParseFresh(d: Data, s: bytes, depth: nat)
    requires d == DEFAULT
    requires d.Parse(s, depth).Some?
    ensures d.Parse(s, depth).value.WellFormed(depth)
    ensures d.Parse(s, depth).value.Size() <= |s|
  {
    assert d.WellFormed(depth);
    ParseSound(d, s, depth);
    DefaultIsEmpty(d);
  }

  /** One turn of the parse loop, as a law of the whole parse. */
  lemma ParseStep(m: Data, s: bytes, depth: nat)
    requires s != []
    ensures m.Parse(s, depth) ==
            if ReadField(s, depth).None? then None
            else
              var f := ReadField(s, depth).value;
              if m.Apply(f.value).None? then None else m.Apply(f.value).value.Parse(f.rest, depth)
  {
    if ReadAll(s, depth).Some? {
      var fs := ReadAll(s, depth).value;
      assert fs[1..] == ReadAll(ReadField(s, depth).value.rest, depth).value;
    }
  }

  /** The loop reaches the end of its input exactly when the whole parse succeeds, with the same message. */
  lemma {:induction false} ReachIsParse(m: Data, s: bytes, depth: nat)
    ensures m.Parse(s, depth) == if m.Reach(s, depth).Done? then Some(m.Reach(s, depth).value) else None
    decreases |s|
  {
    if s != [] {
      ParseStep(m, s, depth);
      if ReadField(s, depth).Some? {
        var f := ReadField(s, depth).value;
        if m.Apply(f.value).Some? { ReachIsParse(m.Apply(f.value).value, f.rest, depth); }
      }
    }
  }

  lemma ReachField(d: Data, f: Field, t: bytes, depth: nat)
    requires Storable(f, depth)
    ensures TagOf(f) < 0x1_0000_0000
    ensures d.Reach(Encode(f) + t, depth) ==
            if d.Apply(f).None? then Stuck(d, Some(TagOf(f)), EncodePayload(f) + t)
            else d.Apply(f).value.Reach(t, depth)
  {
    TaggedRoundTrip(f, t, depth);
  }

  /** A string that is no UTF-8 stops the parse, with every field before it applied. */
  lemma {:induction false} ReachBadString(d: Data, fs: seq<Field>, bad: bytes, more: bytes, depth: nat)
    requires AllStorable(fs, depth) && d.ApplyAll(fs).Some?
    requires |bad| <= MAX_SIZE && !ValidUtf8(bad)
    ensures var f := LenField(1, bad);
            d.Reach(EncodeAll(fs) + (Encode(f) + more), depth)
            == Stuck(d.ApplyAll(fs).value, Some(10), EncodePayload(f) + more)
    decreases |fs|
  {
    var tail := Encode(LenField(1, bad)) + more;
    if fs == [] {
      assert EncodeAll(fs) + tail == tail;
      ReachField(d, LenField(1, bad), more, depth);
    } else {
      assert Storable(fs[0], depth);
      ConcatAssociates(Encode(fs[0]), EncodeAll(fs[1..]), tail);
      ReachField(d, fs[0], EncodeAll(fs[1..]) + tail, depth);
      ReachBadString(d.Apply(fs[0]).value, fs[1..], bad, more, depth);
    }
  }
}
