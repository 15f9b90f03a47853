/**
  Two runs of the server whose collection is no snapshot, step by step: connection 0 collects while
  connection 1 saves two packets.
 */
module TornCollections {
  import opened Wrappers
  import opened Wire
  import opened Tables
  import opened Connections
  import opened Collection
  import opened Loss
  import opened Snapshot

  /** One more step of connection 0 or of connection 1. */
  lemma {:induction false} OneOfTwo(s: State, es: seq<Event>, db: Database, a: Thread, b: Thread,
                                      t: nat, x: Action, db': Database, c: Thread)
    requires Reached(s, es, Two(db, a, b)) && t < 2
    requires Faultless(x) && NoNullsRead([Event(t, x)]) && !x.Stop? && !x.Accept?
    requires Act(db, false, if t == 0 then a else b, x) == Some((db', c))
    ensures Reached(s, es + [Event(t, x)], if t == 0 then Two(db', c, b) else Two(db', a, c))
  {
    hide Run, Step, Act, Reached;
    StepOfTwo(db, a, b, x);
    ReachedNext(s, es, Two(db, a, b), Event(t, x), if t == 0 then Two(db', c, b) else Two(db', a, c));
  }

  /** A saver, how many packets it has taken and how many it has stored. */
  function Saver(pc: Pc, taken: nat, stored: nat): Thread {
    Thread(pc, taken, stored, 0)
  }

  function Collector(pc: Pc): Thread {
    Thread(pc, 0, 0, 0)
  }

  /** Connection 0 has asked for statistics and connection 1 has sent a packet. */
  lemma {:induction false} Asked(db: Database, p: Payload) returns (es: seq<Event>)
    requires p.Storable()
    ensures Reached(State(db, false, map[]), es,
                    Two(db, Collector(StartingCollection), Saver(Selecting(p), 1, 0)))
  {
    hide Run, Step, KeyOf, Reached;
    var reading := Thread(Reading, 0, 0, 0);
    var start, x := State(db, false, map[]), Receive(DataMessage(Some(p)));
    es := BothAccepted(db);
    BothAct(start, es, db, FRESH, FRESH, Poll, Poll, reading, reading);
    es := es + [Event(0, Poll)] + [Event(1, Poll)];
    BothAct(start, es, db, reading, reading, Receive(StatisticsMessage), x,
            Collector(StartingCollection), Saver(Selecting(p), 1, 0));
    es := es + [Event(0, Receive(StatisticsMessage))] + [Event(1, x)];
  }

  /** A run whose first step is the start of connection 0's collection. */
  predicate Gathers(s: State, es: seq<Event>, s': State) {
    Reached(s, es, s') && es != [] && es[0] == Event(0, StartScan) && StillCollecting(es, 0)
  }

  lemma {:induction false} GathersNext(s: State, es: seq<Event>, db: Database, a: Thread, b: Thread,
                                         t: nat, x: Action, db': Database, c: Thread)
    requires Gathers(s, es, Two(db, a, b)) && t < 2
    requires Faultless(x) && NoNullsRead([Event(t, x)]) && !x.Stop? && !x.Accept? && !x.SendReport? && !x.Disconnect?
    requires Act(db, false, if t == 0 then a else b, x) == Some((db', c))
    ensures Gathers(s, es + [Event(t, x)], if t == 0 then Two(db', c, b) else Two(db', a, c))
  {
    hide Act, Reached;
    OneOfTwo(s, es, db, a, b, t, x, db', c);
  }

  lemma ScanAct(db: Database, got: set<nat>, i: nat)
    requires i < |db.clients| && i !in got
    ensures Act(db, false, Collector(ScanningClients(db, got)), ScanClient(i))
            == Some((db, Collector(ScanningClients(db, got + {i}))))
  {
  }

  lemma EndAct(db: Database, got: set<nat>)
    requires forall i: nat | i < |db.clients| :: i in got
    ensures Act(db, false, Collector(ScanningClients(db, got)), EndClients(0, false))
            == Some((db, Collector(Collecting(db, 0, got, map[], false))))
  {
  }

  lemma {:induction false} CollectionStarted(db: Database, b: Thread) returns (es: seq<Event>)
    ensures Gathers(Two(db, Collector(StartingCollection), b), es, Two(db, Collector(ScanningClients(db, {})), b))
  {
    hide Run, Step, Reached;
    var s := Two(db, Collector(StartingCollection), b);
    NoSteps(s);
    es := [Event(0, StartScan)];
    OneOfTwo(s, [], db, Collector(StartingCollection), b, 0, StartScan, db, Collector(ScanningClients(db, {})));
    assert [] + es == es;
  }

  lemma {:induction false} ClientListed(s: State, before: seq<Event>, db: Database, b: Thread, got: set<nat>, i: nat)
    returns (es: seq<Event>)
    requires Gathers(s, before, Two(db, Collector(ScanningClients(db, got)), b))
    requires i < |db.clients| && i !in got
    ensures Gathers(s, es, Two(db, Collector(ScanningClients(db, got + {i})), b))
  {
    hide Gathers, Act;
    ScanAct(db, got, i);
    GathersNext(s, before, db, Collector(ScanningClients(db, got)), b, 0, ScanClient(i),
                db, Collector(ScanningClients(db, got + {i})));
    es := before + [Event(0, ScanClient(i))];
  }

  lemma {:induction false} AllListed(s: State, before: seq<Event>, db: Database, b: Thread, got: set<nat>)
    returns (es: seq<Event>)
    requires Gathers(s, before, Two(db, Collector(ScanningClients(db, got)), b))
    requires forall i: nat | i < |db.clients| :: i in got
    ensures Gathers(s, es, Two(db, Collector(Collecting(db, 0, got, map[], false)), b))
  {
    hide Gathers, Act;
    EndAct(db, got);
    GathersNext(s, before, db, Collector(ScanningClients(db, got)), b, 0, EndClients(0, false),
                db, Collector(Collecting(db, 0, got, map[], false)));
    es := before + [Event(0, EndClients(0, false))];
  }

  /** A client is fetched of which no packets are stored. */
  lemma {:induction false} NoneFetched(s: State, before: seq<Event>, from: Database, db: Database, b: Thread,
                                       todo: set<nat>, done: Fetched, c: nat) returns (es: seq<Event>)
    requires Gathers(s, before, Two(db, Collector(Collecting(from, 0, todo, done, false)), b))
    requires c in todo && db.packets == []
    ensures Gathers(s, es, Two(db, Collector(Collecting(from, 0, todo - {c}, done[c := {}], false)), b))
  {
    hide Gathers;
    var pc := ScanningPackets(from, 0, todo - {c}, done, false, c, 0, {});
    GathersNext(s, before, db, Collector(Collecting(from, 0, todo, done, false)), b, 0, StartPackets(c),
                db, Collector(pc));
    es := before + [Event(0, StartPackets(c))];
    GathersNext(s, es, db, Collector(pc), b, 0, EndPackets(false),
                db, Collector(Collecting(from, 0, todo - {c}, done[c := {}], false)));
    es := es + [Event(0, EndPackets(false))];
  }

  /** A client is fetched that has the second of two packets. */
  lemma {:induction false} SecondFetched(s: State, before: seq<Event>, from: Database, db: Database, b: Thread,
                                         todo: set<nat>, done: Fetched, c: nat) returns (es: seq<Event>)
    requires Gathers(s, before, Two(db, Collector(Collecting(from, 0, todo, done, false)), b))
    requires c in todo && |db.packets| == 2 && Matches(db, c, 1) && !Matches(db, c, 0)
    ensures Gathers(s, es, Two(db, Collector(Collecting(from, 0, todo - {c}, done[c := {1}], false)), b))
  {
    hide Gathers, Matches;
    var none: set<nat>, one: set<nat> := {}, {1};
    var p0 := ScanningPackets(from, 0, todo - {c}, done, false, c, 2, none);
    var p1 := ScanningPackets(from, 0, todo - {c}, done, false, c, 2, one);
    assert none + {1} == one;
    GathersNext(s, before, db, Collector(Collecting(from, 0, todo, done, false)), b, 0, StartPackets(c),
                db, Collector(p0));
    es := before + [Event(0, StartPackets(c))];
    GathersNext(s, es, db, Collector(p0), b, 0, ScanPacket(1), db, Collector(p1));
    es := es + [Event(0, ScanPacket(1))];
    assert forall i: nat | i < 2 && Matches(db, c, i) :: i in one;
    GathersNext(s, es, db, Collector(p1), b, 0, EndPackets(false),
                db, Collector(Collecting(from, 0, todo - {c}, done[c := one], false)));
    es := es + [Event(0, EndPackets(false))];
  }

  lemma NoSteps(s: State)
    ensures Reached(s, [], s)
  {
  }

  /** The saver finds its packet's client and stores the packet. */
  lemma {:induction false} OneSaved(s: State, before: seq<Event>, db: Database, a: Thread,
                                      p: Payload, id: int, n: nat) returns (es: seq<Event>)
    requires p.Storable() && Find(db.clients, p.Key()) == Some(id)
    requires Gathers(s, before, Two(db, a, Saver(Selecting(p), n + 1, n)))
    ensures Gathers(s, es, Two(db.(packets := db.packets + [Row(id, p.Sample())]), a, Saver(Polling, n + 1, n + 1)))
  {
    hide Gathers, KeyOf, Find;
    var x, y := Saver(Selecting(p), n + 1, n), Saver(InsertingPacket(p, id), n + 1, n);
    GathersNext(s, before, db, a, x, 1, Select(false), db, y);
    es := before + [Event(1, Select(false))];
    GathersNext(s, es, db, a, y, 1, InsertPacket,
                db.(packets := db.packets + [Row(id, p.Sample())]), Saver(Polling, n + 1, n + 1));
    es := es + [Event(1, InsertPacket)];
  }

  lemma {:induction false} NextRead(s: State, before: seq<Event>, db: Database, a: Thread, q: Payload, n: nat)
    returns (es: seq<Event>)
    requires q.Storable() && Gathers(s, before, Two(db, a, Saver(Polling, n, n)))
    ensures Gathers(s, es, Two(db, a, Saver(Selecting(q), n + 1, n)))
  {
    hide Gathers, KeyOf;
    var x := Receive(DataMessage(Some(q)));
    GathersNext(s, before, db, a, Saver(Polling, n, n), 1, Poll, db, Saver(Reading, n, n));
    es := before + [Event(1, Poll)];
    GathersNext(s, es, db, a, Saver(Reading, n, n), 1, x, db, Saver(Selecting(q), n + 1, n));
    es := es + [Event(1, x)];
  }

  /** The saver finds no client, registers it and stores the packet. */
  lemma {:induction false} NewSaved(s: State, before: seq<Event>, db: Database, a: Thread,
                                    q: Payload, id: int, n: nat) returns (es: seq<Event>)
    requires q.Storable() && Find(db.clients, q.Key()).None? && !HasId(db.clients, id)
    requires Gathers(s, before, Two(db, a, Saver(Selecting(q), n + 1, n)))
    ensures Gathers(s, es, Two(Database(db.clients + [Client(id, q.Key())], db.packets + [Row(id, q.Sample())]),
                               a, Saver(Polling, n + 1, n + 1)))
  {
    hide Gathers, KeyOf, Find, HasId;
    var db1 := db.(clients := db.clients + [Client(id, q.Key())]);
    FindAppend(db.clients, Client(id, q.Key()), q.Key());
    GathersNext(s, before, db, a, Saver(Selecting(q), n + 1, n), 1, Select(false),
                db, Saver(InsertingClient(q), n + 1, n));
    es := before + [Event(1, Select(false))];
    GathersNext(s, es, db, a, Saver(InsertingClient(q), n + 1, n), 1, InsertClient(id),
                db1, Saver(Reselecting(q), n + 1, n));
    es := es + [Event(1, InsertClient(id))];
    GathersNext(s, es, db1, a, Saver(Reselecting(q), n + 1, n), 1, Reselect(false),
                db1, Saver(InsertingPacket(q, id), n + 1, n));
    es := es + [Event(1, Reselect(false))];
    GathersNext(s, es, db1, a, Saver(InsertingPacket(q, id), n + 1, n), 1, InsertPacket,
                db1.(packets := db1.packets + [Row(id, q.Sample())]), Saver(Polling, n + 1, n + 1));
    es := es + [Event(1, InsertPacket)];
  }

  lemma {:induction false} Finished(db: Database, setup: seq<Event>, s: State, es: seq<Event>, s': State, done: Fetched)
    requires Consistent(db) && Reached(State(db, false, map[]), setup, s) && Gathers(s, es, s')
    requires 0 in s'.threads && exists from, now :: s'.threads[0].pc == Collecting(from, now, {}, done, false)
    requires 1 < |s'.db.packets| && Got(done, 1) && !Got(done, 0)
    ensures Inv(s) && AllFaultless(es) && Collects(s, es, 0) && DoneBy(s, es, 0) == done
    ensures Run(s, es) == Some(s')
    ensures forall n: nat | n <= |es| :: !Explains(Before(s, es, n).db, done)
  {
    hide KeyOf;
    RunKeepsInv(State(db, false, map[]), setup);
    assert Collects(s, es, 0);
    SnapshotIff(s, es, 0);
    assert Missed(s'.db, done, 0);
  }

  // ---------------------------------------------------------------- two clients that were listed

  /** The store before the run: two clients, no packets. */
  function TwoClients(p: Payload, q: Payload): Database {
    Database([Client(1, p.Key()), Client(2, q.Key())], [])
  }

  lemma BothFound(p: Payload, q: Payload, packets: seq<Row>)
    requires p.Key() != q.Key()
    ensures Find(TwoClients(p, q).(packets := packets).clients, p.Key()) == Some(1)
    ensures Find(TwoClients(p, q).(packets := packets).clients, q.Key()) == Some(2)
  {
  }

  function Stored(p: Payload, q: Payload): seq<Row>
    requires p.Storable() && q.Storable()
  {
    [Row(1, p.Sample()), Row(2, q.Sample())]
  }

  /** The saver stores a packet for the first client and then one for the second. */
  lemma {:induction false} BothSaved(s: State, before: seq<Event>, p: Payload, q: Payload, a: Thread)
    returns (es: seq<Event>)
    requires p.Key() != q.Key() && p.Storable() && q.Storable()
    requires Gathers(s, before, Two(TwoClients(p, q), a, Saver(Selecting(p), 1, 0)))
    ensures Gathers(s, es, Two(TwoClients(p, q).(packets := Stored(p, q)), a, Saver(Polling, 2, 2)))
  {
    hide Gathers, KeyOf, Find;
    var db := TwoClients(p, q);
    var db1 := db.(packets := db.packets + [Row(1, p.Sample())]);
    BothFound(p, q, db.packets);
    BothFound(p, q, db1.packets);
    es := OneSaved(s, before, db, a, p, 1, 0);
    es := NextRead(s, es, db1, a, q, 1);
    es := OneSaved(s, es, db1, a, q, 2, 1);
    assert db1.packets + [Row(2, q.Sample())] == Stored(p, q);
  }

  lemma {:induction false} BothListed(db: Database, b: Thread) returns (es: seq<Event>)
    requires |db.clients| == 2 && db.packets == []
    ensures Gathers(Two(db, Collector(StartingCollection), b), es,
                    Two(db, Collector(Collecting(db, 0, {1}, map[0 := {}], false)), b))
  {
    hide Gathers;
    var s := Two(db, Collector(StartingCollection), b);
    var none: set<nat>, zero: set<nat>, both: set<nat> := {}, {0}, {0, 1};
    assert none + {0} == zero && zero + {1} == both && both - {0} == {1};
    es := CollectionStarted(db, b);
    es := ClientListed(s, es, db, b, none, 0);
    es := ClientListed(s, es, db, b, zero, 1);
    es := AllListed(s, es, db, b, both);
    var nothing: Fetched := map[];
    es := NoneFetched(s, es, db, db, b, both, nothing, 0);
    assert nothing[0 := none] == map[0 := none];
  }

  /**
    A faultless run, from a store with two clients and no connections, whose collection is no snapshot: it
    has the second client's new packet and not the first client's, which was committed before it.
   */
  lemma {:induction false} NoStoreExplains(p: Payload, q: Payload)
    returns (setup: seq<Event>, s: State, es: seq<Event>)
    requires p.Key() != q.Key() && p.Storable() && q.Storable()
    ensures Reached(State(TwoClients(p, q), false, map[]), setup, s) && Inv(s)
    ensures AllFaultless(es) && Collects(s, es, 0)
    ensures DoneBy(s, es, 0) == map[0 := {}, 1 := {1}]
    ensures forall n: nat | n <= |es| :: !Explains(Before(s, es, n).db, DoneBy(s, es, 0))
  {
    hide KeyOf, Gathers, Reached;
    var db0, b := TwoClients(p, q), Saver(Selecting(p), 1, 0);
    var db := db0.(packets := Stored(p, q));
    var one: set<nat>, first: Fetched := {1}, map[0 := {}];
    setup := Asked(db0, p);
    s := Two(db0, Collector(StartingCollection), b);
    es := BothListed(db0, b);
    es := BothSaved(s, es, p, q, Collector(Collecting(db0, 0, one, first, false)));
    es := SecondFetched(s, es, db0, db, Saver(Polling, 2, 2), one, first, 1);
    assert one - {1} == {} && first[1 := one] == map[0 := {}, 1 := one];
    assert 1 in first[1 := one][1];
    var end := Two(db, Collector(Collecting(db0, 0, {}, first[1 := one], false)), Saver(Polling, 2, 2));
    Finished(db0, setup, s, es, end, first[1 := one]);
  }

  // ---------------------------------------------------------------- a client that was not

  function OneClient(p: Payload): Database {
    Database([Client(1, p.Key())], [])
  }

  /** After the run: the second client registered and its packet stored, then one of the first client. */
  function NewFirst(p: Payload, q: Payload): Database
    requires p.Storable() && q.Storable()
  {
    Database([Client(1, p.Key()), Client(2, q.Key())], [Row(2, q.Sample()), Row(1, p.Sample())])
  }

  lemma OnlyOne(p: Payload, key: Key)
    requires p.Key() != key
    ensures Find(OneClient(p).clients, key).None? && !HasId(OneClient(p).clients, 2)
  {
    var clients := OneClient(p).clients;
    assert clients[1..] == [];
    forall c | c in clients ensures c.id != 2 { assert c == Client(1, p.Key()); }
  }

  lemma {:induction false} NewThenOldSaved(s: State, before: seq<Event>, p: Payload, q: Payload, a: Thread)
    returns (es: seq<Event>)
    requires p.Key() != q.Key() && p.Storable() && q.Storable()
    requires Gathers(s, before, Two(OneClient(p), a, Saver(Selecting(q), 1, 0)))
    ensures Gathers(s, es, Two(NewFirst(p, q), a, Saver(Polling, 2, 2)))
  {
    var db := OneClient(p);
    OnlyOne(p, q.Key());
    var db1 := Database([Client(1, p.Key()), Client(2, q.Key())], [Row(2, q.Sample())]);
    assert Find(db1.clients, p.Key()) == Some(1);
    hide Gathers, KeyOf, Find, HasId;
    assert db1 == Database(db.clients + [Client(2, q.Key())], db.packets + [Row(2, q.Sample())]);
    assert NewFirst(p, q) == db1.(packets := db1.packets + [Row(1, p.Sample())]);
    es := NewSaved(s, before, db, a, q, 2, 0);
    es := NextRead(s, es, db1, a, p, 1);
    es := OneSaved(s, es, db1, a, p, 1, 1);
  }

  lemma {:induction false} OneListed(db: Database, b: Thread) returns (es: seq<Event>)
    requires |db.clients| == 1
    ensures Gathers(Two(db, Collector(StartingCollection), b), es,
                    Two(db, Collector(Collecting(db, 0, {0}, map[], false)), b))
  {
    hide Gathers;
    var none: set<nat>, zero: set<nat> := {}, {0};
    assert none + {0} == zero;
    es := CollectionStarted(db, b);
    es := ClientListed(Two(db, Collector(StartingCollection), b), es, db, b, none, 0);
    es := AllListed(Two(db, Collector(StartingCollection), b), es, db, b, zero);
  }

  /**
    Another, from a store with one client: while it is being collected a second client is registered and
    its packet committed before the first client's. The second client was never listed, so the collection
    has the younger packet, misses the older one, and lacks a client that every store with the younger one has.
   */
  lemma {:induction false} NewClientIsMissed(p: Payload, q: Payload)
    returns (setup: seq<Event>, s: State, es: seq<Event>)
    requires p.Key() != q.Key() && p.Storable() && q.Storable()
    ensures Reached(State(OneClient(p), false, map[]), setup, s) && Inv(s)
    ensures AllFaultless(es) && Collects(s, es, 0)
    ensures DoneBy(s, es, 0) == map[0 := {1}] && Run(s, es).value.db == NewFirst(p, q)
    ensures Content(NewFirst(p, q), q.Key()) == multiset{q.Sample()}
    ensures forall n: nat | n <= |es| :: !Explains(Before(s, es, n).db, DoneBy(s, es, 0))
  {
    hide KeyOf, Gathers, Reached;
    var db0, db, b := OneClient(p), NewFirst(p, q), Saver(Selecting(q), 1, 0);
    var zero: set<nat>, one: set<nat>, none: Fetched := {0}, {1}, map[];
    setup := Asked(db0, q);
    s := Two(db0, Collector(StartingCollection), b);
    es := OneListed(db0, b);
    es := NewThenOldSaved(s, es, p, q, Collector(Collecting(db0, 0, zero, none, false)));
    es := SecondFetched(s, es, db0, db, Saver(Polling, 2, 2), zero, none, 0);
    assert zero - {0} == {} && none[0 := one] == map[0 := one];
    assert 1 in none[0 := one][0];
    var end := Two(db, Collector(Collecting(db0, 0, {}, none[0 := one], false)), Saver(Polling, 2, 2));
    Finished(db0, setup, s, es, end, none[0 := one]);
    NewFirstHolds(p, q);
  }

  lemma NewFirstHolds(p: Payload, q: Payload)
    requires p.Key() != q.Key() && p.Storable() && q.Storable()
    ensures Content(NewFirst(p, q), q.Key()) == multiset{q.Sample()}
  {
    hide KeyOf;
    var r0, r1 := Row(2, q.Sample()), Row(1, p.Sample());
    BothFound(p, q, []);
    assert SamplesOf([], 2) == [];
    SamplesAppend([], r0, 2);
    SamplesAppend([] + [r0], r1, 2);
    assert [] + [r0] + [r1] == NewFirst(p, q).packets;
  }
}
