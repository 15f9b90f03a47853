/**
  Where the two programs fill messages in and read them: member by member on the objects, and byte by byte on
  the wire.
 */
module Exchange {
  import opened Wrappers
  import opened Wire
  import opened Scalars
  import opened Layout
  import opened Dialogue
  import D = ClientPacketData
  import P = ClientPacket
  import E = ServerStatisticEntry
  import R = ServerStatistic
  import opened DataObject
  import opened PacketObject
  import opened StatisticObject
  import opened ReportObject

  /** The client's sample: a payload filled in, handed to a packet of type DATA, and written. */
  method WriteSample(uuid: bytes, timestamp: int64, x: uint64, y: uint64) returns (out: bytes)
    ensures out == ClientData(uuid, timestamp, x, y).Serialize()
    ensures out == BodyBytes(18, TextBytes(10, uuid) + (NumberBytes(16, timestamp)
                                                        + (DoubleBytes(25, x) + DoubleBytes(33, y))))
  {
    var data := new DataMessage();
    data.uuid := uuid;
    data.timestamp := timestamp;
    data.x := x;
    data.y := y;
    var packet := new PacketMessage();
    packet.kind := P.DATA;
    packet.SetAllocatedData(data);
    out := packet.SerializeAsString();
    SampleBytes(ClientData(uuid, timestamp, x, y), packet.View().data.value);
  }

  lemma SampleBytes(p: P.Packet, d: D.Data)
    requires p == P.Packet(0, Some(d), []) && d.unknown == []
    ensures p.Serialize() ==
            BodyBytes(18, TextBytes(10, d.uuid) + (NumberBytes(16, d.timestamp)
                                                   + (DoubleBytes(25, d.x) + DoubleBytes(33, d.y))))
  {
    hide BodyBytes, TextBytes, DoubleBytes;
    PacketBytes(p);
    DataBytes(d);
    assert DoubleBytes(33, d.y) + [] == DoubleBytes(33, d.y);
    var body := BodyBytes(18, d.Serialize());
    assert [] + (body + []) == body;
  }

  /** The client's request: a packet of type STATISTICS with no payload, two bytes long. */
  method WriteRequest() returns (out: bytes)
    ensures out == [8, 1]
  {
    var packet := new PacketMessage();
    packet.kind := P.STATISTICS;
    packet.SetAllocatedData(null);
    out := packet.SerializeAsString();
    RequestIsUnderstood();
  }

  /** The server's turn: whatever the parse leaves in the packet is dispatched on. */
  method ReadPacket(buf: bytes) returns (work: Work, ghost p: P.Packet)
    ensures P.ParseFromString(buf).Some? ==> P.ParseFromString(buf) == Some(p)
    ensures P.ParseFromString(buf).None? ==>
              var o := P.EMPTY.Reach(buf, RECURSION_LIMIT);
              o.Stuck? && P.Left(o, RECURSION_LIMIT, p)
    ensures work == Dispatch(p)
    ensures work.Save? <==> p.kind == 0 && p.data.Some?
    ensures work.Save? ==> work.data == p.data.value
    ensures work.Collect? <==> p.kind == 1
  {
    var packet := new PacketMessage();
    var ok := packet.ParseFromString(buf);
    p := packet.View();
    if packet.kind == P.DATA {
      var has := packet.HasData();
      if has {
        var data := packet.GetData();
        work := Save(data);
      } else {
        work := Nothing;
      }
    } else if packet.kind == P.STATISTICS {
      work := Collect;
    } else {
      work := Ignore;
    }
  }

  /** One row of a report, added and filled in. */
  method AddLine(stats: ReportMessage, line: E.Statistic)
    requires stats.Valid() && line.unknown == []
    modifies stats`client, stats`rows
    ensures stats.Valid() && stats.rows == old(stats.rows) + [line]
    ensures exists c :: fresh(c) && stats.client == old(stats.client) + [c]
  {
    var client := stats.AddClient();
    assert client == stats.client[|stats.client| - 1];
    assert client.View() == E.DEFAULT;
    client.uuid := line.uuid;
    client.x1 := line.x1;
    client.y1 := line.y1;
    client.x5 := line.x5;
    client.y5 := line.y5;
    assert client.View() == line;
    stats.rows := old(stats.rows) + [line];
  }

  /** The server's report: a row for each line, and the whole written. */
  method WriteReport(lines: seq<E.Statistic>) returns (out: bytes)
    requires forall l | l in lines :: l.unknown == []
    ensures out == R.Report(lines, []).Serialize()
    ensures out == RowsBytes(lines)
  {
    hide RowsBytes, R.Report.Serialize;
    var stats := new ReportMessage();
    for i := 0 to |lines|
      invariant fresh(stats) && fresh(stats.client)
      invariant stats.Valid() && stats.View() == R.Report(lines[..i], [])
    {
      assert lines[i] in lines;
      assert lines[..i + 1] == lines[..i] + [lines[i]];
      AddLine(stats, lines[i]);
    }
    assert lines[..|lines|] == lines;
    out := stats.SerializeAsString();
    ReportBytes(R.Report(lines, []));
    assert RowsBytes(lines) + [] == RowsBytes(lines);
  }

  /** The client's display: whatever rows the parse leaves in the report are shown, member by member. */
  method ReadReport(buf: bytes) returns (shown: seq<E.Statistic>, ghost r: R.Report)
    ensures R.ParseFromString(buf).Some? ==> R.ParseFromString(buf) == Some(r)
    ensures R.ParseFromString(buf).None? ==>
              var o := R.EMPTY.Reach(buf, RECURSION_LIMIT);
              o.Stuck? && R.Left(o, RECURSION_LIMIT, r)
    ensures |shown| == |r.clients|
    ensures forall i | 0 <= i < |shown| :: shown[i] == r.clients[i].(unknown := [])
  {
    var stats := new ReportMessage();
    var ok := stats.ParseFromString(buf);
    r := stats.View();
    shown := [];
    for i := 0 to |stats.client|
      invariant |shown| == i
      invariant forall j | 0 <= j < i :: shown[j] == r.clients[j].(unknown := [])
    {
      var client := stats.client[i];
      shown := shown + [E.Statistic(client.uuid, client.x1, client.y1, client.x5, client.y5, [])];
      assert client.View() == stats.rows[i];
    }
  }
}
