/**
  tz.ClientPacket as a value: an open enum and an optional submessage, with the same laws as its
  submessage one level up. A second `data` field on the wire merges into the first.
 */
module ClientPacket {
  import opened Wrappers
  import opened Wire
  import opened Scalars
  import D = ClientPacketData

  datatype Packet = Packet(kind: int32, data: Option<D.Data>, unknown: seq<Field>) {
    function Fields(): seq<Field> {
      Int64Fields(1, kind) + (DataFields(data) + unknown)
    }

    function Serialize(): bytes {
      EncodeAll(Fields())
    }

    /** The size pass; it visits the submessage before the enum. */
    function Size(): nat {
      DataSize(data) + Int64Size(kind) + UnknownSize(unknown)
    }

    function Apply(f: Field, depth: nat): Option<Packet> {
      match f
      case VarintField(1, u) => Some(this.(kind := ToInt32(u)))
      case LenField(2, s) =>
        if depth == 0 then None
        else
          var d :- data.GetOr(D.DEFAULT).Parse(s, depth - 1);
          Some(this.(data := Some(d)))
      case _ => Some(this.(unknown := unknown + [f]))
    }

    function ApplyAll(fs: seq<Field>, depth: nat): Option<Packet>
      decreases |fs|
    {
      if fs == [] then Some(this)
      else
        var next :- Apply(fs[0], depth);
        next.ApplyAll(fs[1..], depth)
    }

    function Parse(s: bytes, depth: nat): Option<Packet> {
      var fs :- ReadAll(s, depth);
      ApplyAll(fs, depth)
    }

    /** How a parse of `s` on top of this message ends. */
    function Reach(s: bytes, depth: nat): Outcome<Packet>
      decreases |s|, 1
    {
      if s == [] then Done(this)
      else match ReadTag(s)
        case None => Stuck(this, None, s)
        case Some(t) => ReachTagged(t.value, t.rest, depth)
    }

    /** The same when the next tag has just been read. */
    function ReachTagged(tag: uint32, s: bytes, depth: nat): Outcome<Packet>
      decreases |s|, 0
    {
      match ReadTagged(tag, s, depth)
      case None => Stuck(this, Some(tag), s)
      case Some(f) =>
        match Apply(f.value, depth)
        case None => Stuck(this, Some(tag), s)
        case Some(next) => next.Reach(f.rest, depth)
    }

    function Merge(other: Packet): Packet {
      Packet(
        if other.kind != 0 then other.kind else kind,
        if other.data.Some? then Some(data.GetOr(D.DEFAULT).Merge(other.data.value)) else data,
        unknown + other.unknown)
    }

    function Normal(): Packet {
      this.(data := if data.Some? then Some(data.value.Normal()) else None)
    }

    predicate HasNegativeZero() {
      data.Some? && data.value.HasNegativeZero()
    }

    /** A packet that the parser can build. */
    predicate WellFormed(depth: nat) {
      && (data.Some? ==> depth > 0 && data.value.WellFormed(depth - 1) && data.value.Size() <= MAX_SIZE)
      && AllStorable(unknown, depth)
      && forall f | f in unknown :: !Known(f)
    }

    /** One that the setters can build too. */
    predicate Buildable(depth: nat) {
      && (data.Some? ==> depth > 0 && data.value.Buildable(depth - 1) && data.value.Size() <= MAX_SIZE)
      && AllStorable(unknown, depth)
      && forall f | f in unknown :: !Known(f)
    }

    /** The size of this packet, a negative enum counted as the six bytes it can come from. */
    function Budget(): nat {
      DataSize(data) + KindBudget(kind) + UnknownSize(unknown)
    }
  }

  const EMPTY := Packet(0, None, [])

  /** The enumerators of ClientPacket.PacketType; any other value is kept as it is. */
  const DATA: int32 := 0
  const STATISTICS: int32 := 1

  predicate Known(f: Field) {
    || (f.VarintField? && f.num == 1)
    || (f.LenField? && f.num == 2)
  }

  /** `m` differs from `p` at most in the member that the field under `tag` sets. */
  predicate SameBut(p: Packet, m: Packet, tag: uint32) {
    match tag
    case 8 => m == p.(kind := m.kind)
    case 18 => m == p.(data := m.data) && m.data.Some?
    case _ => m == p.(unknown := m.unknown)
  }

  /** A payload that was there to read has been parsed into the submessage as far as it goes. */
  ghost predicate DataLeft(p: Packet, payload: bytes, depth: nat, m: Packet) {
    && m.data.Some?
    && var before := p.data.GetOr(D.DEFAULT);
       if depth == 0 then m.data.value == before
       else
         var o := before.Reach(payload, depth - 1);
         o.Stuck? && D.Left(o, m.data.value)
  }

  /**
    What a parse that got stuck may leave in the object: everything read before is there, and only the
    member of the stuck field is open. A zero tag or an end-group tag changes nothing.
   */
  ghost predicate Left(o: Outcome<Packet>, depth: nat, m: Packet)
    requires o.Stuck?
  {
    match o.tag
    case None => exists tag :: SameBut(o.value, m, tag)
    case Some(tag) =>
      && SameBut(o.value, m, tag)
      && (tag == 18 && ReadLen(o.rest).Some? ==> DataLeft(o.value, ReadLen(o.rest).value.value, depth, m))
      && (tag == 0 || tag % 8 == END_GROUP ==> m == o.value)
  }

  function DataFields(data: Option<D.Data>): seq<Field> {
    if data.None? then [] else [LenField(2, data.value.Serialize())]
  }

  function DataSize(data: Option<D.Data>): nat {
    if data.None? then 0 else 1 + LenSize(data.value.Size())
  }

  function KindBudget(kind: int32): nat {
    if kind < 0 then 6 else Int64Size(kind)
  }

  /** Parses a whole buffer into a fresh packet, as ParseFromString does. */
  function ParseFromString(s: bytes): Option<Packet> {
    EMPTY.Parse(s, RECURSION_LIMIT)
  }

  lemma SizeIsLength(p: Packet)
    ensures p.Size() == |p.Serialize()|
  {
    ScalarSizes(1, [], p.kind, 0);
    if p.data.Some? {
      D.SizeIsLength(p.data.value);
      SingletonSize(LenField(2, p.data.value.Serialize()));
    }
    UnknownSizeConcat(DataFields(p.data), p.unknown);
    UnknownSizeConcat(Int64Fields(1, p.kind), DataFields(p.data) + p.unknown);
  }

  lemma {:induction false} ApplyAllConcat(p: Packet, a: seq<Field>, b: seq<Field>, depth: nat)
    ensures p.ApplyAll(a + b, depth) ==
            if p.ApplyAll(a, depth).None? then None else p.ApplyAll(a, depth).value.ApplyAll(b, depth)
    decreases |a|
  {
    if a == [] {
      assert a + b == b;
    } else {
      assert (a + b)[0] == a[0] && (a + b)[1..] == a[1..] + b;
      if p.Apply(a[0], depth).Some? { ApplyAllConcat(p.Apply(a[0], depth).value, a[1..], b, depth); }
    }
  }

  lemma ApplyOne(p: Packet, f: Field, depth: nat)
    ensures p.ApplyAll([f], depth) == p.Apply(f, depth)
  {
    assert [f][1..] == [];
  }

  lemma {:induction false} UnknownAreKept(p: Packet, us: seq<Field>, depth: nat)
    requires forall f | f in us :: !Known(f)
    ensures p.ApplyAll(us, depth) == Some(p.(unknown := p.unknown + us))
    decreases |us|
  {
    if us == [] {
      assert p.unknown + us == p.unknown;
    } else {
      var next := p.(unknown := p.unknown + [us[0]]);
      assert us[0] in us;
      UnknownAreKept(next, us[1..], depth);
      assert p.unknown + [us[0]] + us[1..] == p.unknown + us;
    }
  }

  /** The enum survives its ten-byte sign-extended varint and the truncation on the way back. */
  lemma EnumRoundTrip(kind: int32)
    ensures ToInt32(ToUint64(kind)) == kind
  {
  }

  lemma FieldsAreStorable(p: Packet, depth: nat)
    requires p.Buildable(depth)
    ensures AllStorable(p.Fields(), depth)
  {
    if p.data.Some? { D.SizeIsLength(p.data.value); }
  }

  lemma FieldsMerge(p: Packet, e: Packet, depth: nat)
    requires e.WellFormed(depth)
    ensures p.ApplyAll(e.Fields(), depth) == Some(p.Merge(e))
  {
    var ks, ds := Int64Fields(1, e.kind), DataFields(e.data);
    var p1 := if e.kind == 0 then p else p.(kind := e.kind);
    var p2 := p1.(data := p.Merge(e).data);
    EnumRoundTrip(e.kind);
    if ks != [] { ApplyOne(p, ks[0], depth); }
    if ds != [] {
      D.ParseIsMerge(p.data.GetOr(D.DEFAULT), e.data.value, depth - 1);
      ApplyOne(p1, ds[0], depth);
    }
    UnknownAreKept(p2, e.unknown, depth);
    ApplyAllConcat(p1, ds, e.unknown, depth);
    ApplyAllConcat(p, ks, ds + e.unknown, depth);
  }

  lemma ParseIsMerge(p: Packet, e: Packet, depth: nat)
    requires e.WellFormed(depth)
    ensures p.Parse(e.Serialize(), depth) == Some(p.Merge(e))
  {
    FieldsAreStorable(e, depth);
    BodyRoundTrip(e.Fields(), depth);
    FieldsMerge(p, e, depth);
  }

  lemma MergeIntoEmpty(p: Packet)
    ensures EMPTY.Merge(p) == p.Normal()
    ensures p.Normal() == p <==> !p.HasNegativeZero()
  {
    if p.data.Some? { D.MergeIntoDefault(p.data.value); }
    assert [] + p.unknown == p.unknown;
  }

  /** The round trip through the wire, exact if and only if there is no negative zero to lose. */
  lemma RoundTrip(p: Packet)
    requires p.WellFormed(RECURSION_LIMIT)
    ensures ParseFromString(p.Serialize()) == Some(p.Normal())
    ensures ParseFromString(p.Serialize()) == Some(p) <==> !p.HasNegativeZero()
  {
    ParseIsMerge(EMPTY, p, RECURSION_LIMIT);
    MergeIntoEmpty(p);
  }

  /** Of the packets that can be built, those that can be read back are the ones whose uuid is UTF-8. */
  lemma ReadableIff(p: Packet)
    requires p.Buildable(RECURSION_LIMIT)
    ensures ParseFromString(p.Serialize()).Some? <==> (p.data.Some? ==> ValidUtf8(p.data.value.uuid))
  {
    if p.data.Some? ==> ValidUtf8(p.data.value.uuid) {
      RoundTrip(p);
    } else {
      var ks, ds := Int64Fields(1, p.kind), DataFields(p.data);
      FieldsAreStorable(p, RECURSION_LIMIT);
      BodyRoundTrip(p.Fields(), RECURSION_LIMIT);
      assert p.Fields() == (ks + ds) + p.unknown;
      UnreadableData(p, RECURSION_LIMIT);
      ApplyAllConcat(EMPTY, ks + ds, p.unknown, RECURSION_LIMIT);
    }
  }

  lemma UnreadableData(p: Packet, depth: nat)
    requires depth > 0 && p.data.Some? && p.data.value.Buildable(depth - 1) && !ValidUtf8(p.data.value.uuid)
    ensures EMPTY.ApplyAll(Int64Fields(1, p.kind) + DataFields(p.data), depth) == None
  {
    var ks, ds := Int64Fields(1, p.kind), DataFields(p.data);
    D.ReadableIff(D.DEFAULT, p.data.value, depth - 1);
    ApplyAllConcat(EMPTY, ks, ds, depth);
    if ks != [] { ApplyOne(EMPTY, ks[0], depth); }
    ApplyOne(EMPTY.(kind := p.kind), ds[0], depth);
  }

  lemma NormalSerializesAlike(p: Packet)
    ensures p.Normal().Serialize() == p.Serialize()
    ensures p.Normal().Normal() == p.Normal()
  {
    if p.data.Some? { D.NormalSerializesAlike(p.data.value); }
  }

  /** A packet whose x is a negative zero comes back with a positive one. */
  lemma NegativeZeroIsLost(y: uint64)
    ensures var d := D.Data([], 0, NEGATIVE_ZERO, y, []);
            var p := Packet(DATA, Some(d), []);
            && ParseFromString(p.Serialize()) == Some(p.(data := Some(d.(x := 0, y := Unsigned(y)))))
            && ParseFromString(p.Serialize()) != Some(p)
  {
    var d := D.Data([], 0, NEGATIVE_ZERO, y, []);
    NegativeZeroFits(Packet(DATA, Some(d), []), RECURSION_LIMIT);
    RoundTrip(Packet(DATA, Some(d), []));
  }

  lemma NegativeZeroFits(p: Packet, depth: nat)
    requires depth > 0 && p.unknown == [] && p.data.Some?
    requires p.data.value.uuid == [] && p.data.value.timestamp == 0 && p.data.value.unknown == []
    ensures p.WellFormed(depth)
  {
  }

  lemma ParseConcat(p: Packet, a: bytes, b: bytes, depth: nat)
    requires p.Parse(a, depth).Some?
    ensures p.Parse(a + b, depth) == p.Parse(a, depth).value.Parse(b, depth)
  {
    BodyConcat(a, b, depth);
    if ReadAll(b, depth).Some? {
      ApplyAllConcat(p, ReadAll(a, depth).value, ReadAll(b, depth).value, depth);
    }
  }

  lemma MergeNormal(a: Packet, b: Packet)
    ensures a.Normal().Merge(b) == a.Merge(b).Normal()
  {
    var da, db := a.data.GetOr(D.DEFAULT), b.data.GetOr(D.DEFAULT);
    SkippedIffZero(da.x);
    SkippedIffZero(da.y);
    SkippedIffZero(db.x);
    SkippedIffZero(db.y);
  }

  /** Concatenating two serialized packets merges them, at both levels of nesting. */
  lemma ConcatenationIsMerge(a: Packet, b: Packet)
    requires a.WellFormed(RECURSION_LIMIT) && b.WellFormed(RECURSION_LIMIT)
    ensures ParseFromString(a.Serialize() + b.Serialize()) == Some(a.Merge(b).Normal())
  {
    RoundTrip(a);
    ParseConcat(EMPTY, a.Serialize(), b.Serialize(), RECURSION_LIMIT);
    ParseIsMerge(a.Normal(), b, RECURSION_LIMIT);
    MergeNormal(a, b);
  }

  lemma ApplySound(p: Packet, f: Field, depth: nat)
    requires p.WellFormed(depth) && Storable(f, depth)
    requires p.Budget() + FieldSize(f) <= MAX_SIZE
    requires p.Apply(f, depth).Some?
    ensures p.Apply(f, depth).value.WellFormed(depth)
    ensures p.Apply(f, depth).value.Budget() <= p.Budget() + FieldSize(f)
  {
    match f
    case VarintField(1, u) =>
      KindFits(u);
    case LenField(2, s) =>
      DataApplySound(p, s, depth);
    case _ =>
      UnknownSizeConcat(p.unknown, [f]);
      SingletonSize(f);
  }

  lemma SubmessageFieldSize(s: bytes)
    ensures FieldSize(LenField(2, s)) == 1 + LenSize(|s|)
  {
  }

  /** Merging a payload into the submessage costs no more than the payload's own field did. */
  lemma DataApplySound(p: Packet, s: bytes, depth: nat)
    requires p.WellFormed(depth) && depth > 0
    requires p.data.GetOr(D.DEFAULT).Parse(s, depth - 1).Some?
    ensures var d := p.data.GetOr(D.DEFAULT).Parse(s, depth - 1).value;
            && d.WellFormed(depth - 1)
            && d.Size() <= DataSize(p.data) + |s|
            && DataSize(Some(d)) <= DataSize(p.data) + FieldSize(LenField(2, s))
  {
    SubmessageFieldSize(s);
    if p.data.None? {
      D.ParseFresh(D.DEFAULT, s, depth - 1);
      LenSizeGrowth(D.DEFAULT.Parse(s, depth - 1).value.Size(), 0, |s|);
    } else {
      D.ParseSound(p.data.value, s, depth - 1);
      LenSizeGrowth(p.data.value.Parse(s, depth - 1).value.Size(), p.data.value.Size(), |s|);
    }
  }

  /** An enum read from a varint is budgeted no more than that varint took. */
  lemma KindFits(u: uint64)
    ensures KindBudget(ToInt32(u)) <= FieldSize(VarintField(1, u))
  {
    if ToInt32(u) < 0 {
      assert VarintSize(0x8000_0000) == 5;
      VarintMonotone(0x8000_0000, u);
    } else {
      VarintMonotone(ToInt32(u), u);
    }
  }

  lemma {:induction false} ApplyAllSound(p: Packet, fs: seq<Field>, depth: nat)
    requires p.WellFormed(depth) && AllStorable(fs, depth)
    requires p.Budget() + UnknownSize(fs) <= MAX_SIZE
    requires p.ApplyAll(fs, depth).Some?
    ensures p.ApplyAll(fs, depth).value.WellFormed(depth)
    ensures p.ApplyAll(fs, depth).value.Budget() <= p.Budget() + UnknownSize(fs)
    decreases |fs|
  {
    if fs != [] {
      assert fs[0] in fs;
      ApplySound(p, fs[0], depth);
      ApplyAllSound(p.Apply(fs[0], depth).value, fs[1..], depth);
    }
  }

  /**
    Canonicalisation: whatever accepted bytes a packet came from, it is well formed, writing and
    reading it again changes nothing but the sign of zero, writing it once more gives the same bytes,
    and those bytes are longer than the input by at most five, and only for a negative enum.
   */
  lemma Canonical(s: bytes)
    requires |s| <= 0x7FFF_FFEF
    requires ParseFromString(s).Some?
    ensures var p := ParseFromString(s).value;
            && p.WellFormed(RECURSION_LIMIT)
            && ParseFromString(p.Serialize()) == Some(p.Normal())
            && p.Normal().Serialize() == p.Serialize()
            && |p.Serialize()| <= |s| + (if p.kind < 0 then 5 else 0)
  {
    hide ReadAll, EncodeAll, Packet.ApplyAll, Packet.Merge, Packet.Reach, D.Data.Serialize;
    var p := ParseFromString(s).value;
    BodySound(s, RECURSION_LIMIT);
    ApplyAllSound(EMPTY, ReadAll(s, RECURSION_LIMIT).value, RECURSION_LIMIT);
    RoundTrip(p);
    NormalSerializesAlike(p);
    SizeIsLength(p);
    if p.kind < 0 {
      WordFits(ToUint64(p.kind));
    }
  }

  /** One turn of the parse loop, as a law of the whole parse. */
  lemma ParseStep(m: Packet, s: bytes, depth: nat)
    requires s != []
    ensures m.Parse(s, depth) ==
            if ReadField(s, depth).None? then None
            else
              var f := ReadField(s, depth).value;
              if m.Apply(f.value, depth).None? then None else m.Apply(f.value, depth).value.Parse(f.rest, depth)
  {
    if ReadAll(s, depth).Some? {
      var fs := ReadAll(s, depth).value;
      assert fs[1..] == ReadAll(ReadField(s, depth).value.rest, depth).value;
    }
  }

  /** The loop reaches the end of its input exactly when the whole parse succeeds, with the same message. */
  lemma {:induction false} ReachIsParse(m: Packet, s: bytes, depth: nat)
    ensures m.Parse(s, depth) == if m.Reach(s, depth).Done? then Some(m.Reach(s, depth).value) else None
    decreases |s|
  {
    if s != [] {
      ParseStep(m, s, depth);
      if ReadField(s, depth).Some? {
        var f := ReadField(s, depth).value;
        if m.Apply(f.value, depth).Some? { ReachIsParse(m.Apply(f.value, depth).value, f.rest, depth); }
      }
    }
  }
}
