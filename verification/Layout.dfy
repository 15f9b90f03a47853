/**
  The four messages byte by byte and member by member: which bytes stand for which member, which of two values
  wins, what is read back however long it is, and what a failed parse leaves alone.
 */
module Layout {
  import opened Wrappers
  import opened Wire
  import opened Scalars
  import opened Encoding
  import D = ClientPacketData
  import P = ClientPacket
  import E = ServerStatisticEntry
  import R = ServerStatistic

  // ---------------------------------------------------------------- the bytes

  predicate Zero(b: uint64) {
    b == 0 || b == 0x8000_0000_0000_0000
  }

  function TextBytes(tag: byte, s: bytes): bytes {
    if s == [] then [] else [tag] + (Varint(|s|) + s)
  }

  function NumberBytes(tag: byte, n: int64): bytes {
    if n == 0 then [] else [tag] + Varint(if n < 0 then n + 0x1_0000_0000_0000_0000 else n)
  }

  function DoubleBytes(tag: byte, b: uint64): bytes {
    if Zero(b) then [] else [tag] + LittleEndian(b, 8)
  }

  lemma OneByteTag(num: nat, wireType: nat)
    requires num < 16 && wireType < 8
    ensures Varint(Tag(num, wireType)) == [8 * num + wireType]
  {
  }

  lemma {:induction false} EncodeOne(f: Field)
    ensures EncodeAll([f]) == Encode(f) && EncodeAll([]) == []
  {
    assert [f][1..] == [];
    assert Encode(f) + [] == Encode(f);
  }

  lemma ScalarBytes(num: nat, s: bytes, n: int64, b: uint64)
    requires num < 16
    ensures EncodeAll(StringFields(num, s)) == TextBytes(8 * num + 2, s)
    ensures EncodeAll(Int64Fields(num, n)) == NumberBytes(8 * num, n)
    ensures EncodeAll(DoubleFields(num, b)) == DoubleBytes(8 * num + 1, b)
  {
    hide EncodeAll, Varint, LittleEndian;
    OneByteTag(num, 0);
    OneByteTag(num, 1);
    OneByteTag(num, 2);
    SkippedIffZero(b);
    EncodeOne(LenField(num, s));
    EncodeOne(VarintField(num, ToUint64(n)));
    EncodeOne(Fixed64Field(num, b));
  }

  lemma DataBytes(d: D.Data)
    ensures d.Serialize() ==
            TextBytes(10, d.uuid) + (NumberBytes(16, d.timestamp) + (DoubleBytes(25, d.x) +
                                     (DoubleBytes(33, d.y) + EncodeAll(d.unknown))))
  {
    hide EncodeAll, TextBytes, NumberBytes, DoubleBytes;
    ScalarBytes(1, d.uuid, 0, 0);
    ScalarBytes(2, [], d.timestamp, 0);
    ScalarBytes(3, [], 0, d.x);
    ScalarBytes(4, [], 0, d.y);
    var ys := DoubleFields(4, d.y) + d.unknown;
    var xs := DoubleFields(3, d.x) + ys;
    EncodeAllConcat(DoubleFields(4, d.y), d.unknown);
    EncodeAllConcat(DoubleFields(3, d.x), ys);
    EncodeAllConcat(Int64Fields(2, d.timestamp), xs);
    EncodeAllConcat(StringFields(1, d.uuid), Int64Fields(2, d.timestamp) + xs);
  }

  lemma StatisticBytes(e: E.Statistic)
    ensures e.Serialize() ==
            TextBytes(10, e.uuid) + (DoubleBytes(17, e.x1) + (DoubleBytes(25, e.y1) +
                                     (DoubleBytes(33, e.x5) + (DoubleBytes(41, e.y5) + EncodeAll(e.unknown)))))
  {
    hide EncodeAll, TextBytes, DoubleBytes;
    ScalarBytes(1, e.uuid, 0, 0);
    ScalarBytes(2, [], 0, e.x1);
    ScalarBytes(3, [], 0, e.y1);
    ScalarBytes(4, [], 0, e.x5);
    ScalarBytes(5, [], 0, e.y5);
    var y5s := DoubleFields(5, e.y5) + e.unknown;
    var x5s := DoubleFields(4, e.x5) + y5s;
    var y1s := DoubleFields(3, e.y1) + x5s;
    EncodeAllConcat(DoubleFields(5, e.y5), e.unknown);
    EncodeAllConcat(DoubleFields(4, e.x5), y5s);
    EncodeAllConcat(DoubleFields(3, e.y1), x5s);
    EncodeAllConcat(DoubleFields(2, e.x1), y1s);
    EncodeAllConcat(StringFields(1, e.uuid), DoubleFields(2, e.x1) + y1s);
  }

  /** A submessage is written even when it is empty. */
  function BodyBytes(tag: byte, body: bytes): bytes {
    [tag] + (Varint(|body|) + body)
  }

  lemma SubmessageBytes(num: nat, body: bytes)
    requires num < 16
    ensures EncodeAll([LenField(num, body)]) == BodyBytes(8 * num + 2, body)
  {
    hide EncodeAll, Varint;
    OneByteTag(num, 2);
    EncodeOne(LenField(num, body));
  }

  lemma PacketBytes(p: P.Packet)
    ensures p.Serialize() ==
            NumberBytes(8, p.kind) +
            ((if p.data.Some? then BodyBytes(18, p.data.value.Serialize()) else []) + EncodeAll(p.unknown))
  {
    hide EncodeAll, NumberBytes, BodyBytes;
    ScalarBytes(1, [], p.kind, 0);
    EncodeOne(VarintField(1, 0));
    if p.data.Some? { SubmessageBytes(2, p.data.value.Serialize()); }
    EncodeAllConcat(P.DataFields(p.data), p.unknown);
    EncodeAllConcat(Int64Fields(1, p.kind), P.DataFields(p.data) + p.unknown);
  }

  function RowsBytes(clients: seq<E.Statistic>): bytes {
    if clients == [] then [] else BodyBytes(10, clients[0].Serialize()) + RowsBytes(clients[1..])
  }

  lemma {:induction false} RowsAreWritten(clients: seq<E.Statistic>)
    ensures EncodeAll(R.ClientFields(clients)) == RowsBytes(clients)
  {
    hide EncodeAll, BodyBytes;
    EncodeOne(VarintField(1, 0));
    if clients != [] {
      RowsAreWritten(clients[1..]);
      SubmessageBytes(1, clients[0].Serialize());
      EncodeAllConcat([LenField(1, clients[0].Serialize())], R.ClientFields(clients[1..]));
    }
  }

  lemma ReportBytes(r: R.Report)
    ensures r.Serialize() == RowsBytes(r.clients) + EncodeAll(r.unknown)
  {
    hide EncodeAll, RowsBytes;
    RowsAreWritten(r.clients);
    EncodeAllConcat(R.ClientFields(r.clients), r.unknown);
  }

  // ---------------------------------------------------------------- which value wins

  /** Of two values of a member the later wins, unless it is the default, which is not on the wire. */
  lemma LaterWins(d: D.Data, e: D.Data, depth: nat)
    requires e.WellFormed(depth)
    ensures d.Parse(e.Serialize(), depth).Some?
    ensures var r := d.Parse(e.Serialize(), depth).value;
            && r.uuid == (if e.uuid == [] then d.uuid else e.uuid)
            && r.timestamp == (if e.timestamp == 0 then d.timestamp else e.timestamp)
            && r.x == (if Zero(e.x) then d.x else e.x)
            && r.y == (if Zero(e.y) then d.y else e.y)
            && r.unknown == d.unknown + e.unknown
  {
    D.ParseIsMerge(d, e, depth);
    SkippedIffZero(e.x);
    SkippedIffZero(e.y);
  }

  lemma LaterStatisticWins(d: E.Statistic, e: E.Statistic, depth: nat)
    requires e.WellFormed(depth)
    ensures d.Parse(e.Serialize(), depth).Some?
    ensures var r := d.Parse(e.Serialize(), depth).value;
            && r.uuid == (if e.uuid == [] then d.uuid else e.uuid)
            && r.x1 == (if Zero(e.x1) then d.x1 else e.x1)
            && r.y1 == (if Zero(e.y1) then d.y1 else e.y1)
            && r.x5 == (if Zero(e.x5) then d.x5 else e.x5)
            && r.y5 == (if Zero(e.y5) then d.y5 else e.y5)
            && r.unknown == d.unknown + e.unknown
  {
    E.ParseIsMerge(d, e, depth);
    SkippedIffZero(e.x1);
    SkippedIffZero(e.y1);
    SkippedIffZero(e.x5);
    SkippedIffZero(e.y5);
  }

  /** In a packet the later type wins, and a second payload is parsed on top of the first. */
  lemma LaterPacketWins(p: P.Packet, q: P.Packet, depth: nat)
    requires q.WellFormed(depth)
    ensures p.Parse(q.Serialize(), depth).Some?
    ensures var r := p.Parse(q.Serialize(), depth).value;
            && r.kind == (if q.kind == 0 then p.kind else q.kind)
            && (q.data.None? ==> r.data == p.data)
            && (q.data.Some? ==>
                  var first := if p.data.Some? then p.data.value else D.Data([], 0, 0, 0, []);
                  depth > 0 && r.data == first.Parse(q.data.value.Serialize(), depth - 1))
            && r.unknown == p.unknown + q.unknown
  {
    P.ParseIsMerge(p, q, depth);
    if q.data.Some? { D.ParseIsMerge(p.data.GetOr(D.DEFAULT), q.data.value, depth - 1); }
  }

  // ---------------------------------------------------------------- what is read back

  lemma DataFits(d: D.Data)
    requires |d.uuid| <= 0x7FFF_FFAF && d.unknown == []
    ensures d.Size() <= 0x7FFF_FFEF
  {
    WordFits(ToUint64(d.timestamp));
    WordFits(|d.uuid|);
  }

  lemma StatisticFits(e: E.Statistic)
    requires |e.uuid| <= 0x7FFF_FFAF && e.unknown == []
    ensures e.Size() <= 0x7FFF_FFEF
  {
    WordFits(|e.uuid|);
  }

  /** A packet as a setter can fill it in: of no more bytes than fit. */
  predicate Fits(p: P.Packet) {
    && p.unknown == []
    && (p.data.Some? ==> p.data.value.unknown == [] && |p.data.value.uuid| <= 0x7FFF_FFAF)
  }

  /** A double as it comes back. */
  function Positive(b: uint64): uint64 {
    if b == 0x8000_0000_0000_0000 then 0 else b
  }

  lemma PositiveIsUnsigned(b: uint64)
    ensures Unsigned(b) == Positive(b)
  {
    SkippedIffZero(b);
  }

  /**
    Every packet of any type whose uuid has up to 2^31 - 81 bytes is read back if and only if the uuid is UTF-8,
    and then with the type, the uuid, the time and both doubles as they were, a negative zero apart.
   */
  lemma PacketReturns(p: P.Packet)
    requires Fits(p)
    ensures P.ParseFromString(p.Serialize()) ==
            if p.data.None? then Some(p)
            else if !ValidUtf8(p.data.value.uuid) then None
            else
              var d := p.data.value;
              Some(P.Packet(p.kind, Some(D.Data(d.uuid, d.timestamp, Positive(d.x), Positive(d.y), [])), []))
  {
    if p.data.Some? {
      DataFits(p.data.value);
      PositiveIsUnsigned(p.data.value.x);
      PositiveIsUnsigned(p.data.value.y);
    }
    PacketIsBuildable(p, RECURSION_LIMIT);
    P.ReadableIff(p);
    if p.data.Some? ==> ValidUtf8(p.data.value.uuid) { P.RoundTrip(p); }
  }

  lemma PacketIsBuildable(p: P.Packet, depth: nat)
    requires Fits(p) && depth > 0 && (p.data.Some? ==> p.data.value.Size() <= 0x7FFF_FFEF)
    ensures p.Buildable(depth)
    ensures (p.data.Some? ==> ValidUtf8(p.data.value.uuid)) ==> p.WellFormed(depth)
  {
  }

  /** A report as the server fills it in. */
  predicate ReportFits(r: R.Report) {
    && r.unknown == []
    && forall i | 0 <= i < |r.clients| :: r.clients[i].unknown == [] && |r.clients[i].uuid| <= 0x7FFF_FFAF
  }

  predicate Returned(c: E.Statistic, back: E.Statistic) {
    back == E.Statistic(c.uuid, Positive(c.x1), Positive(c.y1), Positive(c.x5), Positive(c.y5), [])
  }

  lemma ReturnedIsNormal(c: E.Statistic)
    requires c.unknown == []
    ensures Returned(c, c.Normal())
  {
    PositiveIsUnsigned(c.x1);
    PositiveIsUnsigned(c.y1);
    PositiveIsUnsigned(c.x5);
    PositiveIsUnsigned(c.y5);
  }

  /**
    Every report of any number of rows whose uuids have up to 2^31 - 81 bytes each is read back if and only if
    they are UTF-8, and then row for row with the figures as they were, negative zeros apart.
   */
  lemma ReportReturns(r: R.Report)
    requires ReportFits(r)
    ensures R.ParseFromString(r.Serialize()).Some? <==> forall i | 0 <= i < |r.clients| :: ValidUtf8(r.clients[i].uuid)
    ensures R.ParseFromString(r.Serialize()).Some? ==>
              var back := R.ParseFromString(r.Serialize()).value;
              && back.unknown == [] && |back.clients| == |r.clients|
              && forall i | 0 <= i < |r.clients| :: Returned(r.clients[i], back.clients[i])
  {
    hide R.Report.Parse, R.Report.Serialize, Returned;
    ReportIsBuildable(r, RECURSION_LIMIT);
    R.ReadableIff(r);
    if R.AllUtf8(r.clients) {
      forall i | 0 <= i < |r.clients| ensures ValidUtf8(r.clients[i].uuid) { assert r.clients[i] in r.clients; }
      R.RoundTrip(r);
      forall i | 0 <= i < |r.clients| ensures Returned(r.clients[i], r.Normal().clients[i]) {
        ReturnedIsNormal(r.clients[i]);
      }
    }
  }

  lemma ReportIsBuildable(r: R.Report, depth: nat)
    requires ReportFits(r) && depth > 0
    ensures r.Buildable(depth)
    ensures R.AllUtf8(r.clients) ==> r.WellFormed(depth)
  {
    forall i | 0 <= i < |r.clients| ensures r.clients[i].Size() <= 0x7FFF_FFEF && r.clients[i].Buildable(depth - 1) {
      StatisticFits(r.clients[i]);
    }
    forall i | 0 <= i < |r.clients| && R.AllUtf8(r.clients) ensures r.clients[i].WellFormed(depth - 1) {
      assert r.clients[i] in r.clients;
    }
  }

  /** Groups that nobody knows are kept to a depth of 100, and a deeper one fails the parse. */
  lemma GroupsNest(n: nat)
    ensures P.ParseFromString(EncodeAll(Nest(n))) == if n <= 100 then Some(P.Packet(0, None, Nest(n))) else None
    ensures R.ParseFromString(EncodeAll(Nest(n))) == if n <= 100 then Some(R.Report([], Nest(n))) else None
  {
    NestIff(n, RECURSION_LIMIT);
    if n <= 100 {
      P.UnknownAreKept(P.EMPTY, Nest(n), RECURSION_LIMIT);
      R.UnknownAreKept(R.EMPTY, Nest(n), RECURSION_LIMIT);
      assert [] + Nest(n) == Nest(n);
    }
  }

  lemma {:induction false} NestLength(n: nat)
    ensures |EncodeAll(Nest(n))| == 2 * n
  {
    if n > 0 {
      NestLength(n - 1);
      NestEncoded(n, []);
      assert EncodeAll(Nest(n)) + [] == EncodeAll(Nest(n));
      assert |Varint(27)| == 1 && |Varint(28)| == 1;
    }
  }

  /** A body that is one length-delimited field. */
  lemma OneField(num: nat, payload: bytes, depth: nat)
    requires 1 <= num < 16
    ensures ReadAll(Encode(LenField(num, payload)), depth) ==
            if |payload| <= 0x7FFF_FFEF then Some([LenField(num, payload)]) else None
  {
    var f := LenField(num, payload);
    assert Encode(f) == Varint(TagOf(f)) + EncodePayload(f);
    assert EncodePayload(f) + [] == EncodePayload(f) == Varint(|payload|) + payload + [];
    OneByteTag(num, 2);
    TagRoundTrip(TagOf(f), EncodePayload(f));
    KnownTag(num, 2, EncodePayload(f), depth);
    PayloadIsRead(payload, []);
    assert [f] + [] == [f];
  }

  lemma PacketOfGroups(n: nat, depth: nat)
    requires depth > 0
    ensures P.EMPTY.Parse(Encode(LenField(2, EncodeAll(Nest(n)))), depth) ==
            if n >= depth || 2 * n > 0x7FFF_FFEF then None
            else Some(P.EMPTY.(data := Some(D.DEFAULT.(unknown := Nest(n)))))
  {
    hide EncodeAll, Encode, ReadAll, D.Data.ApplyAll, P.Packet.ApplyAll;
    var f := LenField(2, EncodeAll(Nest(n)));
    OneField(2, EncodeAll(Nest(n)), depth);
    P.ApplyOne(P.EMPTY, f, depth);
    NestIff(n, depth - 1);
    NestLength(n);
    D.UnknownAreKept(D.DEFAULT, Nest(n));
    assert [] + Nest(n) == Nest(n);
  }

  lemma OneRow(r: R.Report, f: Field, depth: nat)
    ensures r.ApplyAll([f], depth) == r.Apply(f, depth)
  {
    assert [f][1..] == [];
  }

  lemma ReportOfGroups(n: nat, depth: nat)
    requires depth > 0
    ensures R.EMPTY.Parse(Encode(LenField(1, EncodeAll(Nest(n)))), depth) ==
            if n >= depth || 2 * n > 0x7FFF_FFEF then None
            else Some(R.Report([E.DEFAULT.(unknown := Nest(n))], []))
  {
    hide EncodeAll, Encode, ReadAll, E.Statistic.ApplyAll, R.Report.ApplyAll;
    var f := LenField(1, EncodeAll(Nest(n)));
    OneField(1, EncodeAll(Nest(n)), depth);
    OneRow(R.EMPTY, f, depth);
    NestIff(n, depth - 1);
    NestLength(n);
    E.UnknownAreKept(E.DEFAULT, Nest(n));
    assert [] + Nest(n) == Nest(n);
    var row := E.DEFAULT.(unknown := Nest(n));
    assert [] + [row] == [row];
  }

  /** A submessage takes one of the hundred levels. */
  lemma SubmessageGroupsNest(n: nat)
    ensures P.ParseFromString(Encode(LenField(2, EncodeAll(Nest(n))))) ==
            if n <= 99 then Some(P.Packet(0, Some(D.Data([], 0, 0, 0, Nest(n))), [])) else None
    ensures R.ParseFromString(Encode(LenField(1, EncodeAll(Nest(n))))) ==
            if n <= 99 then Some(R.Report([E.Statistic([], 0, 0, 0, 0, Nest(n))], [])) else None
  {
    hide EncodeAll, Encode, Nest, P.Packet.Parse, R.Report.Parse;
    PacketOfGroups(n, RECURSION_LIMIT);
    ReportOfGroups(n, RECURSION_LIMIT);
  }

  // ---------------------------------------------------------------- what a failed parse leaves alone

  /** A member can differ from what was read before only if the stuck field is its own, or its tag was not read. */
  lemma DataLeftAlone(o: Outcome<D.Data>, m: D.Data)
    requires o.Stuck? && D.Left(o, m)
    ensures o.tag.Some? && o.tag != Some(10) ==> m.uuid == o.value.uuid
    ensures o.tag.Some? && o.tag != Some(16) ==> m.timestamp == o.value.timestamp
    ensures o.tag.Some? && o.tag != Some(25) ==> m.x == o.value.x
    ensures o.tag.Some? && o.tag != Some(33) ==> m.y == o.value.y
    ensures o.tag in {Some(10), Some(16), Some(25), Some(33)} ==> m.unknown == o.value.unknown
    ensures o.tag.Some? && (o.tag.value == 0 || o.tag.value % 8 == 4) ==> m == o.value
    ensures o.tag.None? ==> || m == o.value.(uuid := m.uuid) || m == o.value.(timestamp := m.timestamp)
                            || m == o.value.(x := m.x) || m == o.value.(y := m.y)
                            || m == o.value.(unknown := m.unknown)
  {
  }

  lemma StatisticLeftAlone(o: Outcome<E.Statistic>, m: E.Statistic)
    requires o.Stuck? && E.Left(o, m)
    ensures o.tag.Some? && o.tag != Some(10) ==> m.uuid == o.value.uuid
    ensures o.tag.Some? && o.tag != Some(17) ==> m.x1 == o.value.x1
    ensures o.tag.Some? && o.tag != Some(25) ==> m.y1 == o.value.y1
    ensures o.tag.Some? && o.tag != Some(33) ==> m.x5 == o.value.x5
    ensures o.tag.Some? && o.tag != Some(41) ==> m.y5 == o.value.y5
    ensures o.tag in {Some(10), Some(17), Some(25), Some(33), Some(41)} ==> m.unknown == o.value.unknown
    ensures o.tag.Some? && (o.tag.value == 0 || o.tag.value % 8 == 4) ==> m == o.value
    ensures o.tag.None? ==> || m == o.value.(uuid := m.uuid) || m == o.value.(x1 := m.x1) || m == o.value.(y1 := m.y1)
                            || m == o.value.(x5 := m.x5) || m == o.value.(y5 := m.y5)
                            || m == o.value.(unknown := m.unknown)
  {
  }

  lemma PacketLeftAlone(o: Outcome<P.Packet>, depth: nat, m: P.Packet)
    requires o.Stuck? && P.Left(o, depth, m)
    ensures o.tag.Some? && o.tag != Some(8) ==> m.kind == o.value.kind
    ensures o.tag.Some? && o.tag != Some(18) ==> m.data == o.value.data
    ensures o.tag in {Some(8), Some(18)} ==> m.unknown == o.value.unknown
    ensures o.tag.Some? && (o.tag.value == 0 || o.tag.value % 8 == 4) ==> m == o.value
    ensures o.tag.None? ==> || m == o.value.(kind := m.kind) || m == o.value.(data := m.data)
                            || m == o.value.(unknown := m.unknown)
  {
  }

  lemma ReportLeftAlone(o: Outcome<R.Report>, depth: nat, m: R.Report)
    requires o.Stuck? && R.Left(o, depth, m)
    ensures o.value.clients <= m.clients && |m.clients| <= |o.value.clients| + 1
    ensures o.tag.Some? && o.tag != Some(10) ==> m.clients == o.value.clients
    ensures o.tag == Some(10) ==> m.unknown == o.value.unknown
    ensures o.tag.Some? && (o.tag.value == 0 || o.tag.value % 8 == 4) ==> m == o.value
    ensures o.tag.None? ==> m.clients == o.value.clients || m.unknown == o.value.unknown
  {
  }
}
