/**
  tz.ServerStatistic.Statistic as a value, with the same laws as tz.ClientPacket.Data: one string and
  four doubles instead of two doubles and a signed integer.
 */
module ServerStatisticEntry {
  import opened Wrappers
  import opened Wire
  import opened Scalars

  datatype Statistic = Statistic(uuid: bytes, x1: uint64, y1: uint64, x5: uint64, y5: uint64, unknown: seq<Field>) {
    /** The fields written for this message, in the order they are written. */
    function Fields(): seq<Field> {
      StringFields(1, uuid) +
      (DoubleFields(2, x1) + (DoubleFields(3, y1) + (DoubleFields(4, x5) + (DoubleFields(5, y5) + unknown))))
    }

    function Serialize(): bytes {
      EncodeAll(Fields())
    }

    /** The size pass. */
    function Size(): nat {
      StringSize(uuid) + DoubleSize(x1) + DoubleSize(y1) + DoubleSize(x5) + DoubleSize(y5) + UnknownSize(unknown)
    }

    /** One turn of the parse loop; None when the field makes the parse fail. */
    function Apply(f: Field): Option<Statistic> {
      match f
      case LenField(1, s) => if ValidUtf8(s) then Some(this.(uuid := s)) else None
      case Fixed64Field(2, b) => Some(this.(x1 := b))
      case Fixed64Field(3, b) => Some(this.(y1 := b))
      case Fixed64Field(4, b) => Some(this.(x5 := b))
      case Fixed64Field(5, b) => Some(this.(y5 := b))
      case _ => Some(this.(unknown := unknown + [f]))
    }

    function ApplyAll(fs: seq<Field>): Option<Statistic>
      decreases |fs|
    {
      if fs == [] then Some(this)
      else
        var next :- Apply(fs[0]);
        next.ApplyAll(fs[1..])
    }

    /** Parses `s` on top of this message. */
    function Parse(s: bytes, depth: nat): Option<Statistic> {
      var fs :- ReadAll(s, depth);
      ApplyAll(fs)
    }

    /** How a parse of `s` on top of this message ends. */
    function Reach(s: bytes, depth: nat): Outcome<Statistic>
      decreases |s|, 1
    {
      if s == [] then Done(this)
      else match ReadTag(s)
        case None => Stuck(this, None, s)
        case Some(t) => ReachTagged(t.value, t.rest, depth)
    }

    /** The same when the next tag has just been read. */
    function ReachTagged(tag: uint32, s: bytes, depth: nat): Outcome<Statistic>
      decreases |s|, 0
    {
      match ReadTagged(tag, s, depth)
      case None => Stuck(this, Some(tag), s)
      case Some(f) =>
        match Apply(f.value)
        case None => Stuck(this, Some(tag), s)
        case Some(next) => next.Reach(f.rest, depth)
    }

    /** Values the other message would write replace this one's; its unknown fields come after. */
    function Merge(other: Statistic): Statistic {
      Statistic(
        if other.uuid != [] then other.uuid else uuid,
        if Skipped(other.x1) then x1 else other.x1,
        if Skipped(other.y1) then y1 else other.y1,
        if Skipped(other.x5) then x5 else other.x5,
        if Skipped(other.y5) then y5 else other.y5,
        unknown + other.unknown)
    }

    /** This message with every negative zero made positive. */
    function Normal(): Statistic {
      this.(x1 := Unsigned(x1), y1 := Unsigned(y1), x5 := Unsigned(x5), y5 := Unsigned(y5))
    }

    predicate HasNegativeZero() {
      x1 == NEGATIVE_ZERO || y1 == NEGATIVE_ZERO || x5 == NEGATIVE_ZERO || y5 == NEGATIVE_ZERO
    }

    /** A message that the parser can build, with `depth` levels of nesting allowed below it. */
    predicate WellFormed(depth: nat) {
      ValidUtf8(uuid) && Buildable(depth)
    }

    /** One that the setters can build too: they take any bytes for a string. */
    predicate Buildable(depth: nat) {
      && |uuid| <= MAX_SIZE
      && AllStorable(unknown, depth)
      && forall f | f in unknown :: !Known(f)
    }
  }

  const DEFAULT := Statistic([], 0, 0, 0, 0, [])

  /** The number and wire-type pairs that the parse loop has a case for. */
  predicate Known(f: Field) {
    || (f.LenField? && f.num == 1)
    || (f.Fixed64Field? && 2 <= f.num <= 5)
  }

  /** `m` differs from `d` at most in the member that the field under `tag` sets. */
  predicate SameBut(d: Statistic, m: Statistic, tag: uint32) {
    match tag
    case 10 => m == d.(uuid := m.uuid)
    case 17 => m == d.(x1 := m.x1)
    case 25 => m == d.(y1 := m.y1)
    case 33 => m == d.(x5 := m.x5)
    case 41 => m == d.(y5 := m.y5)
    case _ => m == d.(unknown := m.unknown)
  }

  /**
    What a parse that got stuck may leave in the object: everything read before is there, and only the
    member of the stuck field is open. A string that was read but is no UTF-8 has been stored by then; a
    zero tag or an end-group tag changes nothing.
   */
  ghost predicate Left(o: Outcome<Statistic>, m: Statistic)
    requires o.Stuck?
  {
    match o.tag
    case None => exists tag :: SameBut(o.value, m, tag)
    case Some(tag) =>
      && SameBut(o.value, m, tag)
      && (tag == 10 && ReadLen(o.rest).Some? ==> m.uuid == ReadLen(o.rest).value.value)
      && (tag == 0 || tag % 8 == END_GROUP ==> m == o.value)
  }

  lemma DefaultIsEmpty(d: Statistic)
    requires d == DEFAULT
    ensures d.Size() == 0
  {
    SkippedIffZero(0);
  }

  /** The size pass agrees with the bytes written. */
  lemma SizeIsLength(d: Statistic)
    ensures d.Size() == |d.Serialize()|
  {
    ScalarSizes(1, d.uuid, 0, 0);
    ScalarSizes(2, [], 0, d.x1);
    ScalarSizes(3, [], 0, d.y1);
    ScalarSizes(4, [], 0, d.x5);
    ScalarSizes(5, [], 0, d.y5);
    UnknownSizeConcat(DoubleFields(5, d.y5), d.unknown);
    var y5s := DoubleFields(5, d.y5) + d.unknown;
    UnknownSizeConcat(DoubleFields(4, d.x5), y5s);
    var x5s := DoubleFields(4, d.x5) + y5s;
    UnknownSizeConcat(DoubleFields(3, d.y1), x5s);
    var y1s := DoubleFields(3, d.y1) + x5s;
    UnknownSizeConcat(DoubleFields(2, d.x1), y1s);
    UnknownSizeConcat(StringFields(1, d.uuid), DoubleFields(2, d.x1) + y1s);
  }

  lemma {:induction false} ApplyAllConcat(d: Statistic, a: seq<Field>, b: seq<Field>)
    ensures d.ApplyAll(a + b) == if d.ApplyAll(a).None? then None else d.ApplyAll(a).value.ApplyAll(b)
    decreases |a|
  {
    if a == [] {
      assert a + b == b;
    } else {
      assert (a + b)[0] == a[0] && (a + b)[1..] == a[1..] + b;
      if d.Apply(a[0]).Some? { ApplyAllConcat(d.Apply(a[0]).value, a[1..], b); }
    }
  }

  lemma ApplyOne(d: Statistic, f: Field)
    ensures d.ApplyAll([f]) == d.Apply(f)
  {
    assert [f][1..] == [];
  }

  /** Fields the parser has no case for are kept, in order, and change nothing else. */
  lemma {:induction false} UnknownAreKept(d: Statistic, us: seq<Field>)
    requires forall f | f in us :: !Known(f)
    ensures d.ApplyAll(us) == Some(d.(unknown := d.unknown + us))
    decreases |us|
  {
    if us == [] {
      assert d.unknown + us == d.unknown;
    } else {
      var next := d.(unknown := d.unknown + [us[0]]);
      assert us[0] in us;
      UnknownAreKept(next, us[1..]);
      assert d.unknown + [us[0]] + us[1..] == d.unknown + us;
    }
  }

  lemma FieldsAreStorable(d: Statistic, depth: nat)
    requires d.Buildable(depth)
    ensures AllStorable(d.Fields(), depth)
  {
  }

  lemma UuidIsApplied(d: Statistic, s: bytes)
    requires ValidUtf8(s)
    ensures d.ApplyAll(StringFields(1, s)) == Some(if s == [] then d else d.(uuid := s))
  {
    if s != [] { ApplyOne(d, LenField(1, s)); }
  }

  lemma DoubleIsApplied(d: Statistic, b: uint64)
    ensures d.ApplyAll(DoubleFields(2, b)) == Some(if Skipped(b) then d else d.(x1 := b))
    ensures d.ApplyAll(DoubleFields(3, b)) == Some(if Skipped(b) then d else d.(y1 := b))
    ensures d.ApplyAll(DoubleFields(4, b)) == Some(if Skipped(b) then d else d.(x5 := b))
    ensures d.ApplyAll(DoubleFields(5, b)) == Some(if Skipped(b) then d else d.(y5 := b))
  {
    if !Skipped(b) {
      ApplyOne(d, Fixed64Field(2, b));
      ApplyOne(d, Fixed64Field(3, b));
      ApplyOne(d, Fixed64Field(4, b));
      ApplyOne(d, Fixed64Field(5, b));
    }
  }

  /** Applying the fields a message is written as is merging that message. */
  lemma FieldsMerge(d: Statistic, e: Statistic, depth: nat)
    requires e.WellFormed(depth)
    ensures d.ApplyAll(e.Fields()) == Some(d.Merge(e))
  {
    var us := StringFields(1, e.uuid);
    var x1s, y1s := DoubleFields(2, e.x1), DoubleFields(3, e.y1);
    var x5s, y5s := DoubleFields(4, e.x5), DoubleFields(5, e.y5);
    var d1 := if e.uuid == [] then d else d.(uuid := e.uuid);
    var d2 := if Skipped(e.x1) then d1 else d1.(x1 := e.x1);
    var d3 := if Skipped(e.y1) then d2 else d2.(y1 := e.y1);
    var d4 := if Skipped(e.x5) then d3 else d3.(x5 := e.x5);
    var d5 := if Skipped(e.y5) then d4 else d4.(y5 := e.y5);
    UuidIsApplied(d, e.uuid);
    DoubleIsApplied(d1, e.x1);
    DoubleIsApplied(d2, e.y1);
    DoubleIsApplied(d3, e.x5);
    DoubleIsApplied(d4, e.y5);
    UnknownAreKept(d5, e.unknown);
    ApplyAllConcat(d4, y5s, e.unknown);
    ApplyAllConcat(d3, x5s, y5s + e.unknown);
    ApplyAllConcat(d2, y1s, x5s + (y5s + e.unknown));
    ApplyAllConcat(d1, x1s, y1s + (x5s + (y5s + e.unknown)));
    ApplyAllConcat(d, us, x1s + (y1s + (x5s + (y5s + e.unknown))));
  }

  /** Parsing what a message is written as, on top of any message, merges the first into the second. */
  lemma ParseIsMerge(d: Statistic, e: Statistic, depth: nat)
    requires e.WellFormed(depth)
    ensures d.Parse(e.Serialize(), depth) == Some(d.Merge(e))
  {
    FieldsAreStorable(e, depth);
    BodyRoundTrip(e.Fields(), depth);
    FieldsMerge(d, e, depth);
  }

  lemma MergeIntoDefault(d: Statistic)
    ensures DEFAULT.Merge(d) == d.Normal()
    ensures d.Normal() == d <==> !d.HasNegativeZero()
  {
    SkippedIffZero(d.x1);
    SkippedIffZero(d.y1);
    SkippedIffZero(d.x5);
    SkippedIffZero(d.y5);
    assert [] + d.unknown == d.unknown;
  }

  /**
    The round trip: a well-formed message comes back as itself up to the sign of zero, and exactly as
    itself if and only if it holds no negative zero.
   */
  lemma RoundTrip(d: Statistic, depth: nat)
    requires d.WellFormed(depth)
    ensures DEFAULT.Parse(d.Serialize(), depth) == Some(d.Normal())
    ensures DEFAULT.Parse(d.Serialize(), depth) == Some(d) <==> !d.HasNegativeZero()
  {
    ParseIsMerge(DEFAULT, d, depth);
    MergeIntoDefault(d);
  }

  lemma NormalSerializesAlike(d: Statistic)
    ensures d.Normal().Serialize() == d.Serialize()
    ensures d.Normal().Normal() == d.Normal()
  {
    SkippedIffZero(d.x1);
    SkippedIffZero(d.y1);
    SkippedIffZero(d.x5);
    SkippedIffZero(d.y5);
  }

  /** Parsing a concatenation is parsing the second part on top of the first. */
  lemma ParseConcat(d: Statistic, a: bytes, b: bytes, depth: nat)
    requires d.Parse(a, depth).Some?
    ensures d.Parse(a + b, depth) == d.Parse(a, depth).value.Parse(b, depth)
  {
    BodyConcat(a, b, depth);
    if ReadAll(b, depth).Some? {
      ApplyAllConcat(d, ReadAll(a, depth).value, ReadAll(b, depth).value);
    }
  }

  /** Of the messages that can be built, those that can be read back are the ones whose string is UTF-8. */
  lemma ReadableIff(d: Statistic, e: Statistic, depth: nat)
    requires e.Buildable(depth)
    ensures d.Parse(e.Serialize(), depth).Some? <==> ValidUtf8(e.uuid)
  {
    if ValidUtf8(e.uuid) {
      ParseIsMerge(d, e, depth);
    } else {
      FieldsAreStorable(e, depth);
      BodyRoundTrip(e.Fields(), depth);
      assert e.Fields()[0] == LenField(1, e.uuid);
    }
  }

  lemma {:induction false} ApplyAllSound(d: Statistic, fs: seq<Field>, depth: nat)
    requires d.WellFormed(depth) && AllStorable(fs, depth)
    requires d.ApplyAll(fs).Some?
    ensures d.ApplyAll(fs).value.WellFormed(depth)
    ensures d.ApplyAll(fs).value.Size() <= d.Size() + UnknownSize(fs)
    decreases |fs|
  {
    if fs != [] {
      assert fs[0] in fs;
      ApplySound(d, fs[0], depth);
      ApplyAllSound(d.Apply(fs[0]).value, fs[1..], depth);
    }
  }

  lemma ApplySound(d: Statistic, f: Field, depth: nat)
    requires d.WellFormed(depth) && Storable(f, depth)
    requires d.Apply(f).Some?
    ensures d.Apply(f).value.WellFormed(depth)
    ensures d.Apply(f).value.Size() <= d.Size() + FieldSize(f)
  {
    if !Known(f) {
      UnknownSizeConcat(d.unknown, [f]);
      SingletonSize(f);
    }
  }

  /** An accepted body leaves a well-formed message behind, and adds no more to it than its own length. */
  lemma ParseSound(d: Statistic, s: bytes, depth: nat)
    requires d.WellFormed(depth)
    requires d.Parse(s, depth).Some?
    ensures d.Parse(s, depth).value.WellFormed(depth)
    ensures d.Parse(s, depth).value.Size() <= d.Size() + |s|
  {
    BodySound(s, depth);
    ApplyAllSound(d, ReadAll(s, depth).value, depth);
  }

  lemma ParseFresh(d: Statistic, s: bytes, depth: nat)
    requires d == DEFAULT
    requires d.Parse(s, depth).Some?
    ensures d.Parse(s, depth).value.WellFormed(depth)
    ensures d.Parse(s, depth).value.Size() <= |s|
  {
    assert d.WellFormed(depth);
    ParseSound(d, s, depth);
    DefaultIsEmpty(d);
  }

  /** One turn of the parse loop, as a law of the whole parse. */
  lemma ParseStep(m: Statistic, s: bytes, depth: nat)
    requires s != []
    ensures m.Parse(s, depth) ==
            if ReadField(s, depth).None? then None
            else
              var f := ReadField(s, depth).value;
              if m.Apply(f.value).None? then None else m.Apply(f.value).value.Parse(f.rest, depth)
  {
    if ReadAll(s, depth).Some? {
      var fs := ReadAll(s, depth).value;
      assert fs[1..] == ReadAll(ReadField(s, depth).value.rest, depth).value;
    }
  }

  /** The loop reaches the end of its input exactly when the whole parse succeeds, with the same message. */
  lemma {:induction false} ReachIsParse(m: Statistic, s: bytes, depth: nat)
    ensures m.Parse(s, depth) == if m.Reach(s, depth).Done? then Some(m.Reach(s, depth).value) else None
    decreases |s|
  {
    if s != [] {
      ParseStep(m, s, depth);
      if ReadField(s, depth).Some? {
        var f := ReadField(s, depth).value;
        if m.Apply(f.value).Some? { ReachIsParse(m.Apply(f.value).value, f.rest, depth); }
      }
    }
  }

  /** A message whose string is no UTF-8 is stuck at once: its string is the first field written. */
  lemma ReachUnreadable(e: Statistic, depth: nat)
    requires e.Buildable(depth) && !ValidUtf8(e.uuid)
    ensures var rest := e.Fields()[1..];
            DEFAULT.Reach(e.Serialize(), depth)
            == Stuck(DEFAULT, Some(10), EncodePayload(LenField(1, e.uuid)) + EncodeAll(rest))
  {
    var f, rest := LenField(1, e.uuid), e.Fields()[1..];
    assert e.Fields()[0] == f;
    TaggedRoundTrip(f, EncodeAll(rest), depth);
  }

  /** So all that its parse leaves is the string, and zeros. */
  lemma UnreadableLeaves(e: Statistic, depth: nat, m: Statistic)
    requires e.Buildable(depth) && !ValidUtf8(e.uuid)
    ensures DEFAULT.Reach(e.Serialize(), depth).Stuck?
    ensures Left(DEFAULT.Reach(e.Serialize(), depth), m) ==> m == DEFAULT.(uuid := e.uuid)
  {
    ReachUnreadable(e, depth);
    hide Statistic.Reach, EncodeAll, Statistic.Fields;
    LenRoundTrip(e.uuid, EncodeAll(e.Fields()[1..]));
  }
}
