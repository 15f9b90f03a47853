/**
  tz.ServerStatistic as a value: a repeated submessage. Each element is parsed into a fresh message
  and appended, so repeated fields concatenate where a singular submessage would merge.
 */
module ServerStatistic {
  import opened Wrappers
  import opened Wire
  import opened Scalars
  import E = ServerStatisticEntry

  datatype Report = Report(clients: seq<E.Statistic>, unknown: seq<Field>) {
    function Fields(): seq<Field> {
      ClientFields(clients) + unknown
    }

    function Serialize(): bytes {
      EncodeAll(Fields())
    }

    /** The size pass: one tag byte per element, then each element's length prefix and body. */
    function Size(): nat {
      |clients| + ClientsSize(clients) + UnknownSize(unknown)
    }

    /** One turn of a parse loop that dispatches on every tag. */
    function Apply(f: Field, depth: nat): Option<Report> {
      match f
      case LenField(1, s) =>
        if depth == 0 then None
        else
          var c :- E.DEFAULT.Parse(s, depth - 1);
          Some(this.(clients := clients + [c]))
      case _ => Some(this.(unknown := unknown + [f]))
    }

    function ApplyAll(fs: seq<Field>, depth: nat): Option<Report>
      decreases |fs|
    {
      if fs == [] then Some(this)
      else
        var next :- Apply(fs[0], depth);
        next.ApplyAll(fs[1..], depth)
    }

    function Parse(s: bytes, depth: nat): Option<Report> {
      var fs :- ReadAll(s, depth);
      ApplyAll(fs, depth)
    }

    /** How a parse of `s` on top of this message ends. */
    function Reach(s: bytes, depth: nat): Outcome<Report>
      decreases |s|, 1
    {
      if s == [] then Done(this)
      else match ReadTag(s)
        case None => Stuck(this, None, s)
        case Some(t) => ReachTagged(t.value, t.rest, depth)
    }

    /** The same when the next tag has just been read. */
    function ReachTagged(tag: uint32, s: bytes, depth: nat): Outcome<Report>
      decreases |s|, 0
    {
      match ReadTagged(tag, s, depth)
      case None => Stuck(this, Some(tag), s)
      case Some(f) =>
        match Apply(f.value, depth)
        case None => Stuck(this, Some(tag), s)
        case Some(next) => next.Reach(f.rest, depth)
    }

    /** Appended elements are fresh messages that the other's elements were merged into. */
    function Merge(other: Report): Report {
      Report(clients + NormalAll(other.clients), unknown + other.unknown)
    }

    function Normal(): Report {
      this.(clients := NormalAll(clients))
    }

    predicate HasNegativeZero() {
      exists c | c in clients :: c.HasNegativeZero()
    }

    /** A report that the parser can build. */
    predicate WellFormed(depth: nat) {
      && AllWellFormed(clients, depth)
      && AllStorable(unknown, depth)
      && forall f | f in unknown :: !Known(f)
    }

    /** One that the setters can build too. */
    predicate Buildable(depth: nat) {
      && AllBuildable(clients, depth)
      && AllStorable(unknown, depth)
      && forall f | f in unknown :: !Known(f)
    }
  }

  const EMPTY := Report([], [])

  predicate AllWellFormed(clients: seq<E.Statistic>, depth: nat) {
    forall i | 0 <= i < |clients| :: depth > 0 && clients[i].WellFormed(depth - 1) && clients[i].Size() <= MAX_SIZE
  }

  predicate AllBuildable(clients: seq<E.Statistic>, depth: nat) {
    forall i | 0 <= i < |clients| :: depth > 0 && clients[i].Buildable(depth - 1) && clients[i].Size() <= MAX_SIZE
  }

  predicate AllUtf8(clients: seq<E.Statistic>) {
    forall c | c in clients :: ValidUtf8(c.uuid)
  }

  predicate Known(f: Field) {
    f.LenField? && f.num == 1
  }

  /** `m` differs from `r` at most in what the field under `tag` adds: one more row, or unknown fields. */
  predicate SameBut(r: Report, m: Report, tag: uint32) {
    if tag == 10 then m.clients != [] && m == r.(clients := r.clients + [m.clients[|m.clients| - 1]])
    else m == r.(unknown := m.unknown)
  }

  /** A payload that was there to read has been parsed into the new row as far as it goes. */
  ghost predicate ClientLeft(r: Report, payload: bytes, depth: nat, m: Report) {
    && m.clients != []
    && var last := m.clients[|m.clients| - 1];
       if depth == 0 then last == E.DEFAULT
       else
         var o := E.DEFAULT.Reach(payload, depth - 1);
         o.Stuck? && E.Left(o, last)
  }

  /**
    What a parse that got stuck may leave in the object: everything read before is there, and only the
    member of the stuck field is open. A zero tag or an end-group tag changes nothing.
   */
  ghost predicate Left(o: Outcome<Report>, depth: nat, m: Report)
    requires o.Stuck?
  {
    match o.tag
    case None => exists tag :: SameBut(o.value, m, tag)
    case Some(tag) =>
      && SameBut(o.value, m, tag)
      && (tag == 10 && ReadLen(o.rest).Some? ==> ClientLeft(o.value, ReadLen(o.rest).value.value, depth, m))
      && (tag == 0 || tag % 8 == END_GROUP ==> m == o.value)
  }

  function ClientFields(clients: seq<E.Statistic>): seq<Field> {
    if clients == [] then [] else [LenField(1, clients[0].Serialize())] + ClientFields(clients[1..])
  }

  function ClientsSize(clients: seq<E.Statistic>): nat {
    if clients == [] then 0 else LenSize(clients[0].Size()) + ClientsSize(clients[1..])
  }

  function NormalAll(clients: seq<E.Statistic>): (r: seq<E.Statistic>)
    ensures |r| == |clients|
    ensures forall i | 0 <= i < |r| :: r[i] == clients[i].Normal()
  {
    if clients == [] then [] else [clients[0].Normal()] + NormalAll(clients[1..])
  }

  function ParseFromString(s: bytes): Option<Report> {
    EMPTY.Parse(s, RECURSION_LIMIT)
  }

  lemma {:induction false} ClientsSizeIsLength(clients: seq<E.Statistic>)
    ensures |clients| + ClientsSize(clients) == UnknownSize(ClientFields(clients))
  {
    if clients != [] {
      E.SizeIsLength(clients[0]);
      ClientsSizeIsLength(clients[1..]);
      var f := LenField(1, clients[0].Serialize());
      SingletonSize(f);
      UnknownSizeConcat([f], ClientFields(clients[1..]));
    }
  }

  lemma SizeIsLength(r: Report)
    ensures r.Size() == |r.Serialize()|
  {
    ClientsSizeIsLength(r.clients);
    UnknownSizeConcat(ClientFields(r.clients), r.unknown);
  }

  lemma {:induction false} ClientsSizeConcat(a: seq<E.Statistic>, b: seq<E.Statistic>)
    ensures ClientsSize(a + b) == ClientsSize(a) + ClientsSize(b)
  {
    if a == [] {
      assert a + b == b;
    } else {
      assert (a + b)[0] == a[0] && (a + b)[1..] == a[1..] + b;
      ClientsSizeConcat(a[1..], b);
    }
  }

  lemma {:induction false} ApplyAllConcat(r: Report, a: seq<Field>, b: seq<Field>, depth: nat)
    ensures r.ApplyAll(a + b, depth) ==
            if r.ApplyAll(a, depth).None? then None else r.ApplyAll(a, depth).value.ApplyAll(b, depth)
    decreases |a|
  {
    if a == [] {
      assert a + b == b;
    } else {
      assert (a + b)[0] == a[0] && (a + b)[1..] == a[1..] + b;
      if r.Apply(a[0], depth).Some? { ApplyAllConcat(r.Apply(a[0], depth).value, a[1..], b, depth); }
    }
  }

  lemma {:induction false} UnknownAreKept(r: Report, us: seq<Field>, depth: nat)
    requires forall f | f in us :: !Known(f)
    ensures r.ApplyAll(us, depth) == Some(r.(unknown := r.unknown + us))
    decreases |us|
  {
    if us == [] {
      assert r.unknown + us == r.unknown;
    } else {
      var next := r.(unknown := r.unknown + [us[0]]);
      assert us[0] in us;
      UnknownAreKept(next, us[1..], depth);
      assert r.unknown + [us[0]] + us[1..] == r.unknown + us;
    }
  }

  /** The elements come back in order, each through its own round trip. */
  lemma {:induction false} ClientsAreAppended(r: Report, cs: seq<E.Statistic>, depth: nat)
    requires AllWellFormed(cs, depth)
    ensures r.ApplyAll(ClientFields(cs), depth) == Some(r.(clients := r.clients + NormalAll(cs)))
    decreases |cs|
  {
    if cs == [] {
      assert r.clients + NormalAll(cs) == r.clients;
    } else {
      E.RoundTrip(cs[0], depth - 1);
      var c := cs[0].Normal();
      assert ClientFields(cs)[0] == LenField(1, cs[0].Serialize()) && ClientFields(cs)[1..] == ClientFields(cs[1..]);
      ClientsAreAppended(r.(clients := r.clients + [c]), cs[1..], depth);
      ConcatAssociates(r.clients, [c], NormalAll(cs[1..]));
    }
  }

  lemma {:induction false} ClientFieldsAreStorable(cs: seq<E.Statistic>, depth: nat)
    requires AllBuildable(cs, depth)
    ensures AllStorable(ClientFields(cs), depth)
  {
    if cs != [] {
      E.SizeIsLength(cs[0]);
      ClientFieldsAreStorable(cs[1..], depth);
    }
  }

  lemma {:induction false} AllWellFormedAreBuildable(clients: seq<E.Statistic>, depth: nat)
    requires AllWellFormed(clients, depth)
    ensures AllBuildable(clients, depth)
  {
    if clients != [] {
      AllWellFormedAreBuildable(clients[..|clients| - 1], depth);
      assert clients[|clients| - 1].WellFormed(depth - 1);
    }
  }

  lemma ParseIsMerge(r: Report, e: Report, depth: nat)
    requires e.WellFormed(depth)
    ensures r.Parse(e.Serialize(), depth) == Some(r.Merge(e))
  {
    AllWellFormedAreBuildable(e.clients, depth);
    ClientFieldsAreStorable(e.clients, depth);
    assert forall f | f in e.Fields() :: f in ClientFields(e.clients) || f in e.unknown;
    hide Storable, ReadAll, EncodeAll;
    BodyRoundTrip(e.Fields(), depth);
    ClientsAreAppended(r, e.clients, depth);
    ApplyAllConcat(r, ClientFields(e.clients), e.unknown, depth);
    UnknownAreKept(r.(clients := r.clients + NormalAll(e.clients)), e.unknown, depth);
  }

  lemma NormalAllIsIdentity(clients: seq<E.Statistic>)
    ensures NormalAll(clients) == clients <==> forall c | c in clients :: !c.HasNegativeZero()
  {
    forall i | 0 <= i < |clients|
      ensures NormalAll(clients)[i] == clients[i] <==> !clients[i].HasNegativeZero()
    {
      E.MergeIntoDefault(clients[i]);
    }
    if NormalAll(clients) == clients {
      forall c | c in clients ensures !c.HasNegativeZero() {
        var i :| 0 <= i < |clients| && clients[i] == c;
        assert NormalAll(clients)[i] == clients[i];
      }
    }
  }

  lemma MergeIntoEmpty(r: Report)
    ensures EMPTY.Merge(r) == r.Normal()
    ensures r.Normal() == r <==> !r.HasNegativeZero()
  {
    assert [] + NormalAll(r.clients) == NormalAll(r.clients) && [] + r.unknown == r.unknown;
    NormalAllIsIdentity(r.clients);
  }

  lemma RoundTrip(r: Report)
    requires r.WellFormed(RECURSION_LIMIT)
    ensures ParseFromString(r.Serialize()) == Some(r.Normal())
    ensures ParseFromString(r.Serialize()) == Some(r) <==> !r.HasNegativeZero()
  {
    ParseIsMerge(EMPTY, r, RECURSION_LIMIT);
    MergeIntoEmpty(r);
  }

  /** One row whose uuid is no UTF-8 makes the whole run of rows unreadable. */
  lemma {:induction false} UnreadableClients(r: Report, cs: seq<E.Statistic>, depth: nat)
    requires AllBuildable(cs, depth) && !AllUtf8(cs)
    ensures r.ApplyAll(ClientFields(cs), depth) == None
    decreases |cs|
  {
    E.ReadableIff(E.DEFAULT, cs[0], depth - 1);
    assert ClientFields(cs)[0] == LenField(1, cs[0].Serialize()) && ClientFields(cs)[1..] == ClientFields(cs[1..]);
    if ValidUtf8(cs[0].uuid) {
      UnreadableClients(r.Apply(ClientFields(cs)[0], depth).value, cs[1..], depth);
    }
  }

  /** Of the reports that can be built, those that can be read back are the ones whose every uuid is UTF-8. */
  lemma ReadableIff(r: Report)
    requires r.Buildable(RECURSION_LIMIT)
    ensures ParseFromString(r.Serialize()).Some? <==> AllUtf8(r.clients)
  {
    if AllUtf8(r.clients) {
      RoundTrip(r);
    } else {
      ClientFieldsAreStorable(r.clients, RECURSION_LIMIT);
      BodyRoundTrip(r.Fields(), RECURSION_LIMIT);
      UnreadableClients(EMPTY, r.clients, RECURSION_LIMIT);
      ApplyAllConcat(EMPTY, ClientFields(r.clients), r.unknown, RECURSION_LIMIT);
    }
  }

  lemma {:induction false} NormalFieldsAlike(cs: seq<E.Statistic>)
    ensures ClientFields(NormalAll(cs)) == ClientFields(cs)
    ensures NormalAll(NormalAll(cs)) == NormalAll(cs)
  {
    if cs != [] {
      E.NormalSerializesAlike(cs[0]);
      NormalFieldsAlike(cs[1..]);
      assert NormalAll(cs)[1..] == NormalAll(cs[1..]);
    }
  }

  lemma ParseConcat(r: Report, a: bytes, b: bytes, depth: nat)
    requires r.Parse(a, depth).Some?
    ensures r.Parse(a + b, depth) == r.Parse(a, depth).value.Parse(b, depth)
  {
    BodyConcat(a, b, depth);
    if ReadAll(b, depth).Some? {
      ApplyAllConcat(r, ReadAll(a, depth).value, ReadAll(b, depth).value, depth);
    }
  }

  /** Concatenating two serialized reports appends the second's rows to the first's. */
  lemma ConcatenationIsMerge(a: Report, b: Report)
    requires a.WellFormed(RECURSION_LIMIT) && b.WellFormed(RECURSION_LIMIT)
    ensures ParseFromString(a.Serialize() + b.Serialize()) == Some(a.Merge(b).Normal())
  {
    RoundTrip(a);
    ParseConcat(EMPTY, a.Serialize(), b.Serialize(), RECURSION_LIMIT);
    ParseIsMerge(a.Normal(), b, RECURSION_LIMIT);
    MergeNormal(a, b);
  }

  lemma MergeNormal(a: Report, b: Report)
    ensures a.Normal().Merge(b) == a.Merge(b).Normal()
  {
    NormalFieldsAlike(b.clients);
    NormalAllConcat(a.clients, NormalAll(b.clients));
  }

  lemma {:induction false} NormalAllConcat(a: seq<E.Statistic>, b: seq<E.Statistic>)
    ensures NormalAll(a + b) == NormalAll(a) + NormalAll(b)
  {
    if a == [] {
      assert a + b == b;
    } else {
      assert (a + b)[0] == a[0] && (a + b)[1..] == a[1..] + b;
      NormalAllConcat(a[1..], b);
      ConcatAssociates([a[0].Normal()], NormalAll(a[1..]), NormalAll(b));
    }
  }

  lemma ApplySound(r: Report, f: Field, depth: nat)
    requires r.WellFormed(depth) && Storable(f, depth)
    requires r.Size() + FieldSize(f) <= MAX_SIZE
    requires r.Apply(f, depth).Some?
    ensures r.Apply(f, depth).value.WellFormed(depth)
    ensures r.Apply(f, depth).value.Size() <= r.Size() + FieldSize(f)
  {
    if Known(f) {
      ClientApplySound(r, f.payload, depth);
    } else {
      UnknownSizeConcat(r.unknown, [f]);
      SingletonSize(f);
    }
  }

  lemma ClientApplySound(r: Report, s: bytes, depth: nat)
    requires depth > 0 && E.DEFAULT.Parse(s, depth - 1).Some?
    ensures var c := E.DEFAULT.Parse(s, depth - 1).value;
            && c.WellFormed(depth - 1)
            && c.Size() <= |s|
            && 1 + ClientsSize(r.clients + [c]) <= ClientsSize(r.clients) + FieldSize(LenField(1, s))
  {
    E.ParseFresh(E.DEFAULT, s, depth - 1);
    var c := E.DEFAULT.Parse(s, depth - 1).value;
    ClientsSizeConcat(r.clients, [c]);
    assert ClientsSize([c]) == LenSize(c.Size()) + ClientsSize([]);
    LenSizeGrowth(c.Size(), 0, |s|);
  }

  lemma {:induction false} ApplyAllSound(r: Report, fs: seq<Field>, depth: nat)
    requires r.WellFormed(depth) && AllStorable(fs, depth)
    requires r.Size() + UnknownSize(fs) <= MAX_SIZE
    requires r.ApplyAll(fs, depth).Some?
    ensures r.ApplyAll(fs, depth).value.WellFormed(depth)
    ensures r.ApplyAll(fs, depth).value.Size() <= r.Size() + UnknownSize(fs)
    decreases |fs|
  {
    if fs != [] {
      assert fs[0] in fs;
      ApplySound(r, fs[0], depth);
      ApplyAllSound(r.Apply(fs[0], depth).value, fs[1..], depth);
    }
  }

  /** Canonicalisation, as for packets; without an enum the canonical form never grows. */
  lemma Canonical(s: bytes)
    requires |s| <= 0x7FFF_FFEF
    requires ParseFromString(s).Some?
    ensures var r := ParseFromString(s).value;
            && r.WellFormed(RECURSION_LIMIT)
            && ParseFromString(r.Serialize()) == Some(r.Normal())
            && r.Normal().Serialize() == r.Serialize()
            && |r.Serialize()| <= |s|
  {
    var r := ParseFromString(s).value;
    BodySound(s, RECURSION_LIMIT);
    ApplyAllSound(EMPTY, ReadAll(s, RECURSION_LIMIT).value, RECURSION_LIMIT);
    RoundTrip(r);
    NormalFieldsAlike(r.clients);
    SizeIsLength(r);
  }

  /** One turn of the parse loop, as a law of the whole parse. */
  lemma ParseStep(m: Report, s: bytes, depth: nat)
    requires s != []
    ensures m.Parse(s, depth) ==
            if ReadField(s, depth).None? then None
            else
              var f := ReadField(s, depth).value;
              if m.Apply(f.value, depth).None? then None else m.Apply(f.value, depth).value.Parse(f.rest, depth)
  {
    if ReadAll(s, depth).Some? {
      var fs := ReadAll(s, depth).value;
      assert fs[1..] == ReadAll(ReadField(s, depth).value.rest, depth).value;
    }
  }

  /** The loop reaches the end of its input exactly when the whole parse succeeds, with the same message. */
  lemma {:induction false} ReachIsParse(m: Report, s: bytes, depth: nat)
    ensures m.Parse(s, depth) == if m.Reach(s, depth).Done? then Some(m.Reach(s, depth).value) else None
    decreases |s|
  {
    if s != [] {
      ParseStep(m, s, depth);
      if ReadField(s, depth).Some? {
        var f := ReadField(s, depth).value;
        if m.Apply(f.value, depth).Some? { ReachIsParse(m.Apply(f.value, depth).value, f.rest, depth); }
      }
    }
  }

  // ---------------------------------------------------------------- what an unreadable report leaves

  /** One row of a serialized report, as the parse loop meets it. */
  lemma ReachElement(r: Report, c: E.Statistic, t: bytes, depth: nat)
    requires depth > 0 && c.Buildable(depth - 1) && c.Size() <= MAX_SIZE
    ensures var f := LenField(1, c.Serialize());
            r.Reach(Encode(f) + t, depth) ==
            if ValidUtf8(c.uuid) then r.(clients := r.clients + [c.Normal()]).Reach(t, depth)
            else Stuck(r, Some(10), EncodePayload(f) + t)
  {
    E.SizeIsLength(c);
    TaggedRoundTrip(LenField(1, c.Serialize()), t, depth);
    E.ReadableIff(E.DEFAULT, c, depth - 1);
    if ValidUtf8(c.uuid) { E.RoundTrip(c, depth - 1); }
  }

  lemma RowsSplit(cs: seq<E.Statistic>, i: nat)
    requires 0 < i < |cs| && AllUtf8(cs[..i])
    ensures ValidUtf8(cs[0].uuid) && AllUtf8(cs[1..][..i - 1])
    ensures cs[1..][i - 1] == cs[i] && cs[1..][i..] == cs[i + 1..]
    ensures NormalAll(cs[..i]) == [cs[0].Normal()] + NormalAll(cs[1..][..i - 1])
  {
    var head := cs[..i];
    assert head[1..] == cs[1..][..i - 1] && head[0] == cs[0];
    assert cs[0] in head;
    forall c | c in head[1..] ensures ValidUtf8(c.uuid) {
      assert c in head;
    }
  }

  /** The rows before the first whose uuid is no UTF-8 are read; there the parse is stuck. */
  lemma FirstRow(cs: seq<E.Statistic>)
    requires cs != []
    ensures EncodeAll(ClientFields(cs)) ==
            Encode(LenField(1, cs[0].Serialize())) + EncodeAll(ClientFields(cs[1..]))
  {
    hide Encode;
    var f := LenField(1, cs[0].Serialize());
    assert ClientFields(cs)[0] == f && ClientFields(cs)[1..] == ClientFields(cs[1..]);
  }

  lemma {:induction false} ReachFirstBad(r: Report, cs: seq<E.Statistic>, i: nat, t: bytes, depth: nat)
    requires AllBuildable(cs, depth) && i < |cs|
    requires AllUtf8(cs[..i]) && !ValidUtf8(cs[i].uuid)
    ensures r.Reach(EncodeAll(ClientFields(cs)) + t, depth) ==
            Stuck(r.(clients := r.clients + NormalAll(cs[..i])), Some(10),
                  EncodePayload(LenField(1, cs[i].Serialize())) + (EncodeAll(ClientFields(cs[i + 1..])) + t))
    decreases |cs|
  {
    hide Report.Reach, EncodePayload, Encode, EncodeAll, E.Statistic.Serialize, ClientFields;
    hide E.Statistic.Size, E.Statistic.Buildable, E.Statistic.Normal, NormalAll, ValidUtf8;
    var f, rest := LenField(1, cs[0].Serialize()), EncodeAll(ClientFields(cs[1..]));
    FirstRow(cs);
    ConcatAssociates(Encode(f), rest, t);
    ReachElement(r, cs[0], rest + t, depth);
    if i == 0 {
      assert cs[..0] == [] && r.clients + NormalAll([]) == r.clients;
    } else {
      RowsSplit(cs, i);
      ReachFirstBad(r.(clients := r.clients + [cs[0].Normal()]), cs[1..], i - 1, t, depth);
      ConcatAssociates(r.clients, [cs[0].Normal()], NormalAll(cs[1..][..i - 1]));
    }
  }

  lemma RowsThenRest(r: Report)
    ensures r.Serialize() == EncodeAll(ClientFields(r.clients)) + EncodeAll(r.unknown)
  {
    EncodeAllConcat(ClientFields(r.clients), r.unknown);
  }

  /**
    What readers that go on after a failed parse are left with: the rows before the first whose uuid is
    no UTF-8, then one row with that uuid and zeros, and nothing of what follows.
   */
  lemma UnreadableLeaves(r: Report, i: nat, m: Report)
    requires r.Buildable(RECURSION_LIMIT) && i < |r.clients|
    requires AllUtf8(r.clients[..i]) && !ValidUtf8(r.clients[i].uuid)
    ensures var o := EMPTY.Reach(r.Serialize(), RECURSION_LIMIT);
            && o.Stuck?
            && (Left(o, RECURSION_LIMIT, m) ==>
                  m == Report(NormalAll(r.clients[..i]) + [E.DEFAULT.(uuid := r.clients[i].uuid)], []))
  {
    hide Report.Reach, Report.Serialize, EncodeAll, EncodePayload, Left, ClientFields, NormalAll;
    hide E.Statistic.Size, E.Statistic.Buildable, E.Statistic.Serialize, ValidUtf8, AllUtf8;
    var tail := EncodeAll(r.unknown);
    RowsThenRest(r);
    ReachFirstBad(EMPTY, r.clients, i, tail, RECURSION_LIMIT);
    var more := EncodeAll(ClientFields(r.clients[i + 1..])) + tail;
    assert [] + NormalAll(r.clients[..i]) == NormalAll(r.clients[..i]);
    LeftAtRow(Report(NormalAll(r.clients[..i]), []), r.clients[i], more, RECURSION_LIMIT, m);
  }

  lemma LeftAtRow(r: Report, c: E.Statistic, more: bytes, depth: nat, m: Report)
    requires depth > 0 && c.Buildable(depth - 1) && c.Size() <= MAX_SIZE && !ValidUtf8(c.uuid)
    ensures Left(Stuck(r, Some(10), EncodePayload(LenField(1, c.Serialize())) + more), depth, m) ==>
              m == r.(clients := r.clients + [E.DEFAULT.(uuid := c.uuid)])
  {
    hide E.Statistic.Reach, E.Left, E.Statistic.Serialize;
    E.SizeIsLength(c);
    LenRoundTrip(c.Serialize(), more);
    if m.clients != [] { E.UnreadableLeaves(c, depth - 1, m.clients[|m.clients| - 1]); }
  }
}
