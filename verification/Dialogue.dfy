/** What the server does with a packet, and that it understands what the client sends. */
module Dialogue {
  import opened Wrappers
  import opened Wire
  import opened Scalars
  import D = ClientPacketData
  import P = ClientPacket

  datatype Work = Save(data: D.Data) | Nothing | Collect | Ignore

  /** The switch of the connection thread; a DATA packet without a payload is accepted and does nothing. */
  function Dispatch(p: P.Packet): Work {
    if p.kind == P.DATA then
      if p.data.Some? then Save(p.data.value) else Nothing
    else if p.kind == P.STATISTICS then Collect
    else Ignore
  }

  /** A packet as the client's send loop fills it in. */
  function ClientData(uuid: bytes, timestamp: int64, x: uint64, y: uint64): P.Packet {
    P.Packet(P.DATA, Some(D.Data(uuid, timestamp, x, y, [])), [])
  }

  /** The client's request for statistics: a type and, explicitly, no payload. */
  const REQUEST := P.Packet(P.STATISTICS, None, [])

  lemma ClientDataSize(d: D.Data)
    requires |d.uuid| <= 0x7FFF_FFAF && d.unknown == []
    ensures d.Size() <= MAX_SIZE
  {
    WordFits(ToUint64(d.timestamp));
    WordFits(|d.uuid|);
  }

  lemma SentIsWellFormed(p: P.Packet, depth: nat)
    requires p.data.Some? && p.unknown == [] && depth > 0
    requires ValidUtf8(p.data.value.uuid) && |p.data.value.uuid| <= 0x7FFF_FFAF && p.data.value.unknown == []
    ensures p.WellFormed(depth)
  {
    ClientDataSize(p.data.value);
  }

  lemma DispatchOfNormal(p: P.Packet)
    ensures Dispatch(p.Normal()) == match Dispatch(p) case Save(d) => Save(d.Normal()) case w => w
  {
  }

  /** A sample sent by a client is the sample the server saves, a negative zero apart. */
  lemma SentIsSaved(uuid: bytes, timestamp: int64, x: uint64, y: uint64)
    requires ValidUtf8(uuid) && |uuid| <= 0x7FFF_FFAF
    ensures var sent := P.ParseFromString(ClientData(uuid, timestamp, x, y).Serialize());
            && sent.Some?
            && Dispatch(sent.value) == Save(D.Data(uuid, timestamp, Unsigned(x), Unsigned(y), []))
  {
    var p := ClientData(uuid, timestamp, x, y);
    SentIsWellFormed(p, RECURSION_LIMIT);
    assert P.ParseFromString(p.Serialize()) == Some(p.Normal()) by { P.RoundTrip(p); }
    DispatchOfNormal(p);
  }

  /**
    What the server does with whatever packet was sent: type 0 saves the payload, if there is one, type 1
    collects, and any other number is ignored, payload or not.
   */
  lemma SentIsDispatched(p: P.Packet)
    requires p.WellFormed(RECURSION_LIMIT)
    ensures P.ParseFromString(p.Serialize()).Some?
    ensures var work := Dispatch(P.ParseFromString(p.Serialize()).value);
            && (p.kind == 0 && p.data.Some? ==> work == Save(p.data.value.Normal()))
            && (p.kind == 0 && p.data.None? ==> work == Nothing)
            && (p.kind == 1 ==> work == Collect)
            && (p.kind < 0 || p.kind > 1 ==> work == Ignore)
  {
    P.RoundTrip(p);
  }

  /** The request is two bytes long and starts a collection; a packet all of defaults is no bytes and starts nothing. */
  lemma RequestIsUnderstood()
    ensures REQUEST.Serialize() == [8, 1]
    ensures P.ParseFromString([8, 1]).Some? && Dispatch(P.ParseFromString([8, 1]).value) == Collect
    ensures P.ParseFromString([]) == Some(P.EMPTY) && Dispatch(P.EMPTY) == Nothing
  {
    var f := VarintField(1, 1);
    WriteNext([], [f], []);
    assert [f] + [] == [f];
    assert REQUEST.Fields() == [f];
    assert [] + EncodeAll([f]) == EncodeAll([f]);
    assert Encode(f) == [8, 1];
    P.RoundTrip(REQUEST);
  }
}
