/**
  One thread at a time: saving a packet and collecting statistics as the imperative code does them on
  the tables, in place and row by row.
 */
module Server {
  import opened Wrappers
  import opened Wire
  import opened Tables
  import opened Connections
  import opened Statistics

  class Store {
    var clients: seq<Client>
    var packets: seq<Row>

    function Db(): Database
      reads this
    {
      Database(clients, packets)
    }

    /** selectOne: fetches rows until one matches. */
    method SelectClient(key: Key) returns (id: Option<int>)
      ensures id == Find(clients, key)
    {
      for i := 0 to |clients|
        invariant Find(clients, key) == Find(clients[i..], key)
      {
        if clients[i].key == key { return Some(clients[i].id); }
      }
      return None;
    }

    /** The next row id: one more than the largest there is. */
    method FreshId() returns (id: int)
      ensures !HasId(clients, id)
    {
      id := 1;
      for i := 0 to |clients|
        invariant forall j | 0 <= j < i :: clients[j].id < id
      {
        if clients[i].id >= id { id := clients[i].id + 1; }
      }
    }

    /** INSERT INTO clients: refused when the uuid is there already. */
    method InsertClient(key: Key) returns (ok: bool)
      requires Consistent(Db())
      modifies `clients
      ensures Consistent(Db())
      ensures ok <==> Find(old(clients), key).None?
      ensures Find(clients, key).Some? && (!ok ==> clients == old(clients))
      ensures forall k: Key :: Content(Db(), k) == old(Content(Db(), k))
    {
      var present := SelectClient(key);
      if present.Some? { return false; }
      var id := FreshId();
      forall k: Key ensures Content(Db().(clients := clients + [Client(id, key)]), k) == Content(Db(), k) {
        NewClientHoldsNothing(Db(), Client(id, key), k);
      }
      NewClientHoldsNothing(Db(), Client(id, key), key);
      FindAppend(clients, Client(id, key), key);
      clients := clients + [Client(id, key)];
      return true;
    }

    /** INSERT INTO packets: refused when a column would be NULL. */
    method InsertPacket(id: int, p: Payload) returns (ok: bool)
      requires Consistent(Db()) && Find(clients, p.Key()) == Some(id)
      modifies `packets
      ensures Consistent(Db())
      ensures ok <==> p.Storable()
      ensures !ok ==> packets == old(packets)
      ensures forall k: Key :: Content(Db(), k) ==
                old(Content(Db(), k)) + if ok && k == p.Key() then multiset{p.Sample()} else multiset{}
    {
      if !p.Storable() { return false; }
      forall k: Key
        ensures Content(Db().(packets := packets + [Row(id, p.Sample())]), k) ==
                Content(Db(), k) + if k == p.Key() then multiset{p.Sample()} else multiset{}
      {
        NewPacketAdds(Db(), p.Key(), p.Sample(), k);
      }
      NewPacketAdds(Db(), p.Key(), p.Sample(), p.Key());
      packets := packets + [Row(id, p.Sample())];
      return true;
    }

    /**
      Alone on the store a save adds exactly its sample under its own key, registering the client first
      if need be; it throws only for a NaN, and then no sample is added, though the client stays.
     */
    method SaveClientPacket(payload: Option<Payload>) returns (ok: bool)
      requires Consistent(Db())
      modifies this
      ensures Consistent(Db())
      ensures payload.None? ==> ok && Db() == old(Db())
      ensures payload.Some? ==> var p := payload.value;
                && (ok <==> p.x.Some? && p.y.Some?) && Find(clients, KeyOf(p.uuid)).Some?
                && forall k: Key ::
                     Content(Db(), k) == old(Content(Db(), k)) +
                       if ok && k == KeyOf(p.uuid) then multiset{Sample(p.timestamp, p.x.value, p.y.value)}
                       else multiset{}
    {
      if payload.None? { return true; }
      var p := payload.value;
      var client := SelectClient(p.Key());
      if client.None? {
        ok := InsertClient(p.Key());
        if !ok { return false; }
        client := SelectClient(p.Key());
      }
      ok := InsertPacket(client.value, p);
    }

    // ------------------------------------------------------------ statistics

    /** The client query: every row once, in an order that is not promised. */
    method SelectClients() returns (rows: seq<Client>)
      requires Unique(clients)
      ensures Unique(rows) && forall c :: c in rows <==> c in clients
    {
      rows := clients;
    }

    /** The packet query for one client: its samples, in an order that is not promised. */
    method SelectPackets(id: int) returns (rows: seq<Sample>)
      ensures multiset(rows) == multiset(SamplesOf(packets, id))
    {
      rows := [];
      for i := 0 to |packets|
        invariant rows == SamplesOf(packets[..i], id)
      {
        if packets[i].clientId == id { rows := rows + [packets[i].sample]; }
        assert packets[..i + 1][..i] == packets[..i];
      }
      assert packets[..|packets|] == packets;
    }

    /**
      The collection reports one line for each key that has one, each the group-by line of that key, and
      nothing else.
     */
    method CollectStatistics(now: int) returns (stats: seq<Stat>)
      requires Consistent(Db())
      ensures forall i, j | 0 <= i < j < |stats| :: stats[i].uuid != stats[j].uuid
      ensures forall st | st in stats :: ReportFor(Db(), st.uuid, now) == Some(st)
      ensures forall key: Key :: ReportFor(Db(), key, now).Some? ==> ReportFor(Db(), key, now).value in stats
    {
      var rows := SelectClients();
      stats := [];
      for i := 0 to |rows|
        invariant Lines(stats, Db(), rows[..i], now)
      {
        var packets := SelectPackets(rows[i].id);
        var line := Summarize(rows[i].key, packets, now - MINUTE, now - 5 * MINUTE, now);
        RowIsReported(Db(), rows[i], packets, now);
        NextLine(stats, Db(), rows, i, now);
        if line.Some? { stats := stats + [line.value]; }
      }
      assert rows[..|rows|] == rows;
      AllLines(stats, Db(), rows, now);
    }

    /** The two-window fold over one client's rows. */
    static method Summarize(uuid: Key, rows: seq<Sample>, interval1: int, interval2: int, ghost now: int)
      returns (line: Option<Stat>)
      requires interval1 == now - MINUTE && interval2 == now - 5 * MINUTE
      ensures line == Summary(uuid, rows, now)
    {
      var sumX1, sumX5, y1, y5 := 0.0, 0.0, 0.0, 0.0;
      var countX1, countX5 := 0, 0;
      var needToAdd1, needToAdd5 := false, false;
      for i := 0 to |rows|
        invariant sumX1 == Total(X, rows[..i], interval1) && sumX5 == Total(X, rows[..i], interval2)
        invariant y1 == Total(AbsY, rows[..i], interval1) && y5 == Total(AbsY, rows[..i], interval2)
        invariant countX1 as real == Total(Count, rows[..i], interval1) && countX1 >= 0
        invariant countX5 as real == Total(Count, rows[..i], interval2) && countX5 >= 0
        invariant needToAdd1 == (countX1 > 0) && needToAdd5 == (countX5 > 0)
      {
        assert rows[..i + 1][..i] == rows[..i];
        var packet := rows[i];
        if packet.timestamp >= interval1 {
          sumX1 := sumX1 + packet.x;
          countX1 := countX1 + 1;
          y1 := y1 + Abs(packet.y);
          needToAdd1 := true;
        }
        if packet.timestamp >= interval2 {
          sumX5 := sumX5 + packet.x;
          countX5 := countX5 + 1;
          y5 := y5 + Abs(packet.y);
          needToAdd5 := true;
        }
      }
      assert rows[..|rows|] == rows;
      TotalShrinks(Count, rows, interval2, interval1);
      var avgX1, avgX5 := 0.0, 0.0;
      if needToAdd1 { avgX1 := sumX1 / countX1 as real; }
      if needToAdd5 { avgX5 := sumX5 / countX5 as real; }
      if needToAdd1 || needToAdd5 {
        line := Some(Stat(uuid, avgX1, y1, avgX5, y5));
      } else {
        line := None;
      }
    }
  }

  /** The lines reported so far: the group-by lines of the client rows gone through, one for each. */
  ghost predicate Lines(stats: seq<Stat>, db: Database, rows: seq<Client>, now: int) {
    && (forall i, j | 0 <= i < j < |stats| :: stats[i].uuid != stats[j].uuid)
    && (forall st | st in stats :: ReportFor(db, st.uuid, now) == Some(st) && exists c :: c in rows && c.key == st.uuid)
    && (forall c | c in rows && ReportFor(db, c.key, now).Some? :: ReportFor(db, c.key, now).value in stats)
  }

  lemma NewUuid(stats: seq<Stat>, db: Database, rows: seq<Client>, i: nat, now: int)
    requires i < |rows| && Unique(rows) && Lines(stats, db, rows[..i], now)
    ensures forall st | st in stats :: st.uuid != rows[i].key
    ensures forall st | st in stats :: exists c :: c in rows[..i + 1] && c.key == st.uuid
  {
    forall st | st in stats
      ensures st.uuid != rows[i].key && exists c :: c in rows[..i + 1] && c.key == st.uuid
    {
      var c :| c in rows[..i] && c.key == st.uuid;
      var j :| 0 <= j < i && rows[j] == c;
      assert c in rows[..i + 1];
    }
  }

  lemma ReportedUuid(db: Database, key: Key, now: int)
    ensures ReportFor(db, key, now).Some? ==> ReportFor(db, key, now).value.uuid == key
  {
  }

  lemma NextLine(stats: seq<Stat>, db: Database, rows: seq<Client>, i: nat, now: int)
    requires i < |rows| && Unique(rows) && Lines(stats, db, rows[..i], now)
    ensures var line := ReportFor(db, rows[i].key, now);
            Lines(if line.Some? then stats + [line.value] else stats, db, rows[..i + 1], now)
  {
    ReportedUuid(db, rows[i].key, now);
    NewUuid(stats, db, rows, i, now);
    assert rows[..i + 1] == rows[..i] + [rows[i]];
    hide ReportFor, Unique;
    if ReportFor(db, rows[i].key, now).Some? { LineAdded(stats, db, rows[..i], rows[i], now); }
  }

  lemma LineAdded(stats: seq<Stat>, db: Database, rows: seq<Client>, row: Client, now: int)
    requires Lines(stats, db, rows, now) && forall st | st in stats :: st.uuid != row.key
    requires ReportFor(db, row.key, now).Some? && ReportFor(db, row.key, now).value.uuid == row.key
    ensures Lines(stats + [ReportFor(db, row.key, now).value], db, rows + [row], now)
  {
    hide ReportFor;
    var more := stats + [ReportFor(db, row.key, now).value];
    forall st | st in more ensures exists c :: c in rows + [row] && c.key == st.uuid {
      if st in stats {
        var c :| c in rows && c.key == st.uuid;
        assert c in rows + [row];
      } else {
        assert row in rows + [row];
      }
    }
  }

  lemma AllLines(stats: seq<Stat>, db: Database, rows: seq<Client>, now: int)
    requires Lines(stats, db, rows, now) && forall c :: c in rows <==> c in db.clients
    ensures forall key: Key :: ReportFor(db, key, now).Some? ==> ReportFor(db, key, now).value in stats
  {
    forall key: Key | ReportFor(db, key, now).Some? ensures ReportFor(db, key, now).value in stats {
      ReportedHasRow(db, key, now);
      var c := Client(Find(db.clients, key).value, key);
      assert c in rows;
    }
  }

  /** Fetching a client's rows by its id is fetching them by its key, in whatever order. */
  lemma RowIsReported(db: Database, c: Client, rows: seq<Sample>, now: int)
    requires Consistent(db) && c in db.clients && multiset(rows) == multiset(SamplesOf(db.packets, c.id))
    ensures Summary(c.key, rows, now) == ReportFor(db, c.key, now)
  {
    var i :| 0 <= i < |db.clients| && db.clients[i] == c;
    FindUnique(db.clients, i);
    SummaryPermutation(c.key, rows, SamplesOf(db.packets, c.id), now);
  }

  lemma ReportedHasRow(db: Database, key: Key, now: int)
    requires ReportFor(db, key, now).Some?
    ensures Find(db.clients, key).Some? && Client(Find(db.clients, key).value, key) in db.clients
  {
    FindSome(db.clients, key);
  }
}
