/**
  Where a parse fails. The bytes before that point are a body that parses on its own, the message is what that
  body makes of it, and the next field is one that cannot be read or cannot be applied.
 */
module Prefix {
  import opened Wrappers
  import opened Wire
  import D = ClientPacketData
  import P = ClientPacket
  import E = ServerStatisticEntry
  import R = ServerStatistic

  /** The bytes that a reader took when it left `rest`. */
  function Taken(s: bytes, rest: bytes): bytes
    requires |rest| <= |s|
  {
    s[..|s| - |rest|]
  }

  lemma TakenInTwo(s: bytes, t: bytes, u: bytes)
    requires EndsWith(s, t) && EndsWith(t, u)
    ensures EndsWith(s, u) && Taken(s, u) == Taken(s, t) + Taken(t, u)
    ensures s == Taken(s, t) + t
  {
  }

  // ---------------------------------------------------------------- reading looks at what it takes and no further

  lemma {:induction false} VarintTaken(s: bytes, max: nat, t: bytes)
    requires ReadVarint(s, max).Some?
    ensures EndsWith(s, ReadVarint(s, max).value.rest)
    ensures var r := ReadVarint(s, max).value;
            ReadVarint(Taken(s, r.rest) + t, max) == Some(Read(r.value, t))
    decreases max
  {
    VarintSuffix(s, max);
    var rest := ReadVarint(s, max).value.rest;
    if s[0] < 128 {
      assert Taken(s, rest) == [s[0]];
      assert ([s[0]] + t)[1..] == t;
    } else {
      VarintTaken(s[1..], max - 1, t);
      assert (Taken(s, rest) + t)[1..] == Taken(s[1..], rest) + t;
    }
  }

  lemma LenTaken(s: bytes, t: bytes)
    requires ReadLen(s).Some?
    ensures EndsWith(s, ReadLen(s).value.rest)
    ensures ReadLen(Taken(s, ReadLen(s).value.rest) + t) == Some(Read(ReadLen(s).value.value, t))
  {
    hide ReadVarint;
    LenSuffix(s);
    var v, r := ReadVarint(s, 5).value, ReadLen(s).value;
    VarintTaken(s, 5, r.value + t);
    assert Taken(s, r.rest) + t == Taken(s, v.rest) + (r.value + t);
    assert (r.value + t)[..|r.value|] == r.value && (r.value + t)[|r.value|..] == t;
  }

  lemma FixedTaken(s: bytes, k: nat, t: bytes)
    requires k <= |s|
    ensures |Taken(s, s[k..])| == k
    ensures (Taken(s, s[k..]) + t)[..k] == s[..k] && (Taken(s, s[k..]) + t)[k..] == t
  {
  }

  lemma {:induction false} PayloadTaken(tag: uint32, s: bytes, depth: nat, t: bytes)
    requires ReadPayload(tag, s, depth).Some?
    ensures EndsWith(s, ReadPayload(tag, s, depth).value.rest)
    ensures var r := ReadPayload(tag, s, depth).value;
            ReadPayload(tag, Taken(s, r.rest) + t, depth) == Some(Read(r.value, t))
    decreases |s|, 1
  {
    hide Taken;
    PayloadSuffix(tag, s, depth);
    match tag % 8
    case 0 => VarintTaken(s, 10, t);
    case 1 => FixedTaken(s, 8, t);
    case 2 => LenTaken(s, t);
    case 3 => GroupTaken(tag / 8, s, depth - 1, t);
    case 5 => FixedTaken(s, 4, t);
    case _ =>
  }

  lemma {:induction false} GroupTaken(num: nat, s: bytes, depth: nat, t: bytes)
    requires ReadGroup(num, s, depth).Some?
    ensures EndsWith(s, ReadGroup(num, s, depth).value.rest)
    ensures var r := ReadGroup(num, s, depth).value;
            ReadGroup(num, Taken(s, r.rest) + t, depth) == Some(Read(r.value, t))
    decreases |s|, 0
  {
    hide Taken, ReadVarint, ReadPayload;
    GroupSuffix(num, s, depth);
    var tag, rest := ReadTag(s).value, ReadGroup(num, s, depth).value.rest;
    if tag.value % 8 == END_GROUP {
      VarintTaken(s, 5, t);
    } else {
      var f := ReadPayload(tag.value, tag.rest, depth).value;
      var last := Taken(f.rest, rest) + t;
      GroupTaken(num, f.rest, depth, t);
      PayloadTaken(tag.value, tag.rest, depth, last);
      VarintTaken(s, 5, Taken(tag.rest, f.rest) + last);
      TakenInTwo(tag.rest, f.rest, rest);
      TakenInTwo(s, tag.rest, rest);
      ConcatAssociates(Taken(s, tag.rest), Taken(tag.rest, rest), t);
      ConcatAssociates(Taken(tag.rest, f.rest), Taken(f.rest, rest), t);
    }
  }

  /** A field is settled by its own bytes, whatever comes after them. */
  lemma FieldTaken(s: bytes, depth: nat, t: bytes)
    requires ReadField(s, depth).Some?
    ensures EndsWith(s, ReadField(s, depth).value.rest)
    ensures s == Taken(s, ReadField(s, depth).value.rest) + ReadField(s, depth).value.rest
    ensures var r := ReadField(s, depth).value;
            ReadField(Taken(s, r.rest) + t, depth) == Some(Read(r.value, t))
  {
    hide Taken, ReadVarint, ReadPayload;
    var tag, r := ReadTag(s).value, ReadField(s, depth).value;
    PayloadTaken(tag.value, tag.rest, depth, t);
    VarintTaken(s, 5, Taken(tag.rest, r.rest) + t);
    TakenInTwo(s, tag.rest, r.rest);
    TakenInTwo(s, r.rest, r.rest);
    ConcatAssociates(Taken(s, tag.rest), Taken(tag.rest, r.rest), t);
  }

  // ---------------------------------------------------------------- the point of failure

  /** The outcome is that of a parse which is stuck at its very first field, of which nothing can be made. */
  predicate StuckAt<T>(o: Outcome<T>, b: bytes) {
    && o.Stuck? && b != []
    && match ReadTag(b)
       case None => o.tag == None && o.rest == b
       case Some(t) => o.tag == Some(t.value) && o.rest == t.rest
  }

  /** A payload's parse fails after a body that parses, at a field that cannot be read or is no UTF-8. */
  lemma {:induction false} DataStuck(m: D.Data, s: bytes, depth: nat) returns (a: bytes, b: bytes)
    requires m.Reach(s, depth).Stuck?
    ensures var v := m.Reach(s, depth).value;
            && s == a + b && m.Parse(a, depth) == Some(v)
            && StuckAt(m.Reach(s, depth), b)
            && (ReadField(b, depth).Some? ==> v.Apply(ReadField(b, depth).value.value).None?)
    decreases |s|
  {
    hide Taken, ReadTagged;
    var f := ReadField(s, depth);
    if f.None? || m.Apply(f.value.value).None? {
      a, b := [], s;
    } else {
      var next := m.Apply(f.value.value).value;
      a, b := DataStuck(next, f.value.rest, depth);
      FieldTaken(s, depth, a);
      var head := Taken(s, f.value.rest);
      ConcatAssociates(head, a, b);
      a := head + a;
      D.ParseStep(m, a, depth);
    }
  }

  /** The same for a row. */
  lemma {:induction false} StatisticStuck(m: E.Statistic, s: bytes, depth: nat) returns (a: bytes, b: bytes)
    requires m.Reach(s, depth).Stuck?
    ensures var v := m.Reach(s, depth).value;
            && s == a + b && m.Parse(a, depth) == Some(v)
            && StuckAt(m.Reach(s, depth), b)
            && (ReadField(b, depth).Some? ==> v.Apply(ReadField(b, depth).value.value).None?)
    decreases |s|
  {
    hide Taken, ReadTagged;
    var f := ReadField(s, depth);
    if f.None? || m.Apply(f.value.value).None? {
      a, b := [], s;
    } else {
      var next := m.Apply(f.value.value).value;
      a, b := StatisticStuck(next, f.value.rest, depth);
      FieldTaken(s, depth, a);
      var head := Taken(s, f.value.rest);
      ConcatAssociates(head, a, b);
      a := head + a;
      E.ParseStep(m, a, depth);
    }
  }

  /** The same for a packet, where a payload that does not parse is such a field. */
  lemma {:induction false} PacketStuck(m: P.Packet, s: bytes, depth: nat) returns (a: bytes, b: bytes)
    requires m.Reach(s, depth).Stuck?
    ensures var v := m.Reach(s, depth).value;
            && s == a + b && m.Parse(a, depth) == Some(v)
            && StuckAt(m.Reach(s, depth), b)
            && (ReadField(b, depth).Some? ==> v.Apply(ReadField(b, depth).value.value, depth).None?)
    decreases |s|
  {
    hide Taken, ReadTagged;
    var f := ReadField(s, depth);
    if f.None? || m.Apply(f.value.value, depth).None? {
      a, b := [], s;
    } else {
      var next := m.Apply(f.value.value, depth).value;
      a, b := PacketStuck(next, f.value.rest, depth);
      FieldTaken(s, depth, a);
      var head := Taken(s, f.value.rest);
      ConcatAssociates(head, a, b);
      a := head + a;
      P.ParseStep(m, a, depth);
    }
  }

  /** The same for a report, where a row that does not parse is such a field. */
  lemma {:induction false} ReportStuck(m: R.Report, s: bytes, depth: nat) returns (a: bytes, b: bytes)
    requires m.Reach(s, depth).Stuck?
    ensures var v := m.Reach(s, depth).value;
            && s == a + b && m.Parse(a, depth) == Some(v)
            && StuckAt(m.Reach(s, depth), b)
            && (ReadField(b, depth).Some? ==> v.Apply(ReadField(b, depth).value.value, depth).None?)
    decreases |s|
  {
    hide Taken, ReadTagged;
    var f := ReadField(s, depth);
    if f.None? || m.Apply(f.value.value, depth).None? {
      a, b := [], s;
    } else {
      var next := m.Apply(f.value.value, depth).value;
      a, b := ReportStuck(next, f.value.rest, depth);
      FieldTaken(s, depth, a);
      var head := Taken(s, f.value.rest);
      ConcatAssociates(head, a, b);
      a := head + a;
      R.ParseStep(m, a, depth);
    }
  }
}
