/**
  Statistics collected while other connections keep saving. The client query and the packet queries
  are separate statements whose rows are fetched one by one, so what is collected need not be a snapshot
  (Snapshot.dfy says when it is); but it always lies between the store as the collection found it and the
  store as it leaves it.
 */
module Collection {
  import opened Wrappers
  import opened Wire
  import opened Tables
  import opened Connections
  import opened Statistics
  import R = Refinement

  /** The samples of the fetched rows; the order in which they were fetched is not modelled. */
  function Picked(packets: seq<Row>, got: set<nat>): seq<Sample> {
    if packets == [] then []
    else
      var n := |packets| - 1;
      Picked(packets[..n], got) + if n in got then [packets[n].sample] else []
  }

  function Within(got: set<nat>, n: nat): set<nat> {
    set i | i in got && i < n
  }

  /** One sample for each row fetched, the row's own. */
  lemma {:induction false} PickedIff(packets: seq<Row>, got: set<nat>, s: Sample)
    ensures s in Picked(packets, got) <==> exists i :: i in Within(got, |packets|) && packets[i].sample == s
    ensures |Picked(packets, got)| == |Within(got, |packets|)|
  {
    if packets == [] {
      assert Within(got, 0) == {};
    } else {
      var n := |packets| - 1;
      PickedIff(packets[..n], got, s);
      assert Within(got, |packets|) == Within(got, n) + if n in got then {n} else {};
      assert forall i | i in Within(got, n) :: packets[..n][i] == packets[i];
      if s in Picked(packets[..n], got) {
        var i :| i in Within(got, n) && packets[..n][i].sample == s;
        assert i in Within(got, |packets|);
      }
    }
  }

  lemma {:induction false} PickedAtMost(packets: seq<Row>, got: set<nat>, id: int)
    requires forall i | i in got && i < |packets| :: packets[i].clientId == id
    ensures multiset(Picked(packets, got)) <= multiset(SamplesOf(packets, id))
  {
    if packets != [] {
      var rest := packets[..|packets| - 1];
      assert forall i | i in got && i < |rest| :: rest[i] == packets[i];
      PickedAtMost(rest, got, id);
    }
  }

  lemma {:induction false} PickedGrows(packets: seq<Row>, seen: nat, got: set<nat>)
    requires seen <= |packets|
    ensures multiset(Picked(packets[..seen], got)) <= multiset(Picked(packets, got))
    decreases |packets|
  {
    if seen < |packets| {
      var rest := packets[..|packets| - 1];
      PickedGrows(rest, seen, got);
      assert rest[..seen] == packets[..seen];
    } else {
      assert packets[..seen] == packets;
    }
  }

  lemma {:induction false} PickedAtLeast(packets: seq<Row>, got: set<nat>, id: int)
    requires forall i: nat | i < |packets| && packets[i].clientId == id :: i in got
    ensures multiset(SamplesOf(packets, id)) <= multiset(Picked(packets, got))
  {
    if packets != [] {
      var rest := packets[..|packets| - 1];
      assert forall i | 0 <= i < |rest| :: rest[i] == packets[i];
      PickedAtLeast(rest, got, id);
    }
  }

  /** What was fetched for a client lies between what was stored for it before and after. */
  lemma FetchSandwich(db: Database, from: Database, client: nat, got: set<nat>, cut: bool)
    requires Consistent(db) && Grows(from, db) && FetchOk(db, from, client, got, cut)
    ensures multiset(Picked(db.packets, got)) <= Content(db, db.clients[client].key)
    ensures !cut ==> Content(from, db.clients[client].key) <= multiset(Picked(db.packets, got))
  {
    FindUnique(db.clients, client);
    PickedAtMost(db.packets, got, db.clients[client].id);
    if !cut { FetchMisses(db, from, client, got); }
  }

  /** Nothing stored for the client when the collection began was missed. */
  lemma FetchMisses(db: Database, from: Database, client: nat, got: set<nat>)
    requires Consistent(db) && Grows(from, db) && FetchOk(db, from, client, got, false)
    ensures Content(from, db.clients[client].key) <= multiset(Picked(db.packets, got))
  {
    var c := db.clients[client];
    FindUnique(db.clients, client);
    if Find(from.clients, c.key).Some? {
      FindGrows(from.clients, db.clients, c.key);
      PickedGrows(db.packets, |from.packets|, got);
      assert db.packets[..|from.packets|] == from.packets;
      forall i: nat | i < |from.packets| && from.packets[i].clientId == c.id ensures i in got {
        assert Matches(db, client, i);
      }
      PickedAtLeast(from.packets, got, c.id);
    }
  }

  /** A client row that was there when the collection began is among those collected. */
  lemma Covered(db: Database, from: Database, done: map<nat, set<nat>>, key: Key)
    requires CollectOk(db, from, {}, done, false)
    requires Find(from.clients, key).Some?
    ensures exists c :: c in done && db.clients[c].key == key
  {
    FindSome(from.clients, key);
    var row := Client(Find(from.clients, key).value, key);
    var c: nat :| c < |from.clients| && from.clients[c] == row;
    assert c in done && db.clients[c].key == key;
  }

  predicate CollectsFrom(pc: Pc, start: Database) {
    (pc.ScanningClients? || pc.Collecting? || pc.ScanningPackets?) && pc.from == start
  }

  /** The run contains no end of the thread's collection: no report sent, no exception. */
  predicate StillCollecting(es: seq<Event>, t: nat) {
    forall e | e in es && e.thread == t :: !e.action.SendReport? && !e.action.Disconnect? && !e.action.Fault?
  }

  lemma {:induction false} StartIsKept(s: State, es: seq<Event>, t: nat, start: Database)
    requires Run(s, es).Some? && t in s.threads
    requires CollectsFrom(s.threads[t].pc, start) && StillCollecting(es, t)
    ensures t in Run(s, es).value.threads && CollectsFrom(Run(s, es).value.threads[t].pc, start)
    decreases |es|
  {
    if es != [] {
      assert es[0] in es;
      StartIsKept(Step(s, es[0]).value, es[1..], t, start);
    }
  }

  /**
    The sandwich, over every interleaving: a thread begins a collection in `s`, any threads run, and in
    `s'` it has fetched its last row. For every client it collected, the samples fetched are among those
    stored at the end and, unless a scan was cut short by a fault, include all those stored at the start;
    and then every client with samples at the start was collected.
   */
  lemma {:induction false} Sandwich(s: State, es: seq<Event>, t: nat, c: nat, key: Key)
    requires Inv(s) && es != [] && es[0] == Event(t, StartScan)
    requires Run(s, es).Some? && StillCollecting(es, t)
    requires t in Run(s, es).value.threads && Run(s, es).value.threads[t].pc.Collecting?
    requires Run(s, es).value.threads[t].pc.todo == {}
    ensures var s' := Run(s, es).value;
            var pc := s'.threads[t].pc;
            && (c in pc.done ==>
                  && c < |s'.db.clients|
                  && var fetched := multiset(Picked(s'.db.packets, pc.done[c]));
                     && fetched <= Content(s'.db, s'.db.clients[c].key)
                     && (!pc.cut ==> Content(s.db, s'.db.clients[c].key) <= fetched))
            && (!pc.cut && Content(s.db, key) != multiset{} ==>
                  exists i :: i in pc.done && i < |s'.db.clients| && s'.db.clients[i].key == key)
  {
    var s' := Run(s, es).value;
    var pc := s'.threads[t].pc;
    RunKeepsInv(s, es);
    var s1 := Step(s, es[0]).value;
    assert forall e | e in es[1..] :: e in es;
    StartIsKept(s1, es[1..], t, s.db);
    assert CollectOk(s'.db, s.db, {}, pc.done, pc.cut);
    if c in pc.done { FetchSandwich(s'.db, s.db, c, pc.done[c], pc.cut); }
    if !pc.cut && Content(s.db, key) != multiset{} {
      Covered(s'.db, s.db, pc.done, key);
    }
  }

  /** In numbers: each count and each sum of |y| lies between the two stores', whatever order rows came in. */
  lemma MeasureSandwich(m: Measure, before: Database, fetched: seq<Sample>, after: Database, key: Key, since: int)
    requires m != X
    requires Content(before, key) <= multiset(fetched) <= Content(after, key)
    ensures Total(m, RowsOf(before, key), since) <= Total(m, fetched, since) <= Total(m, RowsOf(after, key), since)
  {
    RowsAreContent(before, key);
    RowsAreContent(after, key);
    TotalMonotone(m, RowsOf(before, key), fetched, since);
    TotalMonotone(m, fetched, RowsOf(after, key), since);
  }

  /**
    The line a finished collection computes for a client: its counts and sums lie between those of the
    store at the start and at the end, and if nothing was saved for the client meanwhile it is the
    group-by line of either, whatever was saved for the others.
   */
  lemma {:induction false} CollectedLine(s: State, es: seq<Event>, t: nat, c: nat, now: int, m: Measure, since: int)
    requires Inv(s) && es != [] && es[0] == Event(t, StartScan)
    requires Run(s, es).Some? && StillCollecting(es, t)
    requires t in Run(s, es).value.threads
    requires var pc := Run(s, es).value.threads[t].pc;
             pc.Collecting? && pc.todo == {} && !pc.cut && c in pc.done && c < |Run(s, es).value.db.clients|
    ensures var s' := Run(s, es).value;
            var key := s'.db.clients[c].key;
            var fetched := Picked(s'.db.packets, s'.threads[t].pc.done[c]);
            && (m != X ==> Total(m, RowsOf(s.db, key), since) <= Total(m, fetched, since)
                           <= Total(m, RowsOf(s'.db, key), since))
            && (Content(s'.db, key) == Content(s.db, key) ==> Summary(key, fetched, now) == ReportFor(s.db, key, now))
  {
    var s' := Run(s, es).value;
    var key := s'.db.clients[c].key;
    var fetched := Picked(s'.db.packets, s'.threads[t].pc.done[c]);
    Sandwich(s, es, t, c, key);
    assert Content(s.db, key) <= multiset(fetched) <= Content(s'.db, key);
    if m != X { MeasureSandwich(m, s.db, fetched, s'.db, key, since); }
    if Content(s'.db, key) == Content(s.db, key) {
      RowsAreContent(s.db, key);
      SummaryPermutation(key, fetched, RowsOf(s.db, key), now);
    }
  }

  /**
    A packet committed before a collection begins is counted by it: if the collection was not cut, the
    packet's client was collected and the packet is among the samples fetched for it, even though later
    packets may or may not be.
   */
  lemma {:induction false} EarlierCommitIsCounted(s0: State, before: seq<Event>, c: R.Commit, es: seq<Event>, t: nat)
    requires Inv(s0) && Run(s0, before).Some? && c in R.Commits(s0, before)
    requires var s := Run(s0, before).value;
             && es != [] && es[0] == Event(t, StartScan)
             && Run(s, es).Some? && StillCollecting(es, t)
             && t in Run(s, es).value.threads
             && var pc := Run(s, es).value.threads[t].pc;
                pc.Collecting? && pc.todo == {} && !pc.cut
    ensures var s' := Run(Run(s0, before).value, es).value;
            var done := s'.threads[t].pc.done;
            exists i :: i in done && i < |s'.db.clients| && s'.db.clients[i].key == c.key
                        && c.sample in Picked(s'.db.packets, done[i])
  {
    var s := Run(s0, before).value;
    var s' := Run(s, es).value;
    var done := s'.threads[t].pc.done;
    RunKeepsInv(s0, before);
    R.ContentAfter(s0, before, c.key);
    R.CommitIsUnderItsKey(R.Commits(s0, before), c);
    assert c.sample in multiset(R.CommittedUnder(R.Commits(s0, before), c.key));
    assert c.sample in Content(s.db, c.key);
    Sandwich(s, es, t, 0, c.key);
    var i :| i in done && i < |s'.db.clients| && s'.db.clients[i].key == c.key;
    Sandwich(s, es, t, i, c.key);
    assert c.sample in multiset(Picked(s'.db.packets, done[i]));
  }

  // ---------------------------------------------------------------- one query, and the report

  /** The thread's j-th event starts the packet query for a client, and up to event k it only fetches rows. */
  predicate Queries(es: seq<Event>, t: nat, client: nat, j: nat, k: nat) {
    && j < k <= |es| && es[j] == Event(t, StartPackets(client))
    && forall i | j < i < k && es[i].thread == t :: es[i].action.ScanPacket? || es[i].action.Stop?
  }

  predicate Scans(s: State, t: nat, client: nat, seen: nat) {
    && t in s.threads && s.threads[t].pc.ScanningPackets?
    && s.threads[t].pc.client == client && s.threads[t].pc.seen == seen
  }

  lemma {:induction false} ScanStep(s: State, e: Event, t: nat, client: nat, seen: nat)
    requires Step(s, e).Some?
    ensures e == Event(t, StartPackets(client)) ==> Scans(Step(s, e).value, t, client, |s.db.packets|)
    ensures Scans(s, t, client, seen) && (e.thread != t || e.action.ScanPacket? || e.action.Stop?) ==>
              Scans(Step(s, e).value, t, client, seen)
  {
    hide Find, HasId, KeyOf, Matches;
  }

  lemma {:induction false} QueryIsFixed(s: State, es: seq<Event>, t: nat, client: nat, j: nat, k: nat)
    requires Run(s, es).Some? && Queries(es, t, client, j, k)
    ensures Scans(Before(s, es, k), t, client, |Before(s, es, j).db.packets|)
  {
    hide Run, Before, Step, Scans;
    BeforeNext(s, es, k - 1);
    ScanStep(Before(s, es, k - 1), es[k - 1], t, client, |Before(s, es, j).db.packets|);
    if k - 1 > j { QueryIsFixed(s, es, t, client, j, k - 1); }
  }

  lemma {:induction false} EndOfQuery(s: State, t: nat, client: nat, seen: nat)
    requires Inv(s) && Scans(s, t, client, seen) && Step(s, Event(t, EndPackets(false))).Some?
    ensures t in Step(s, Event(t, EndPackets(false))).value.threads
    ensures var pc := Step(s, Event(t, EndPackets(false))).value.threads[t].pc;
            && pc.Collecting? && client in pc.done
            && (forall i | i in pc.done[client] :: Matches(s.db, client, i))
            && (forall i: nat | i < seen && Matches(s.db, client, i) :: i in pc.done[client])
  {
    hide Find, HasId, KeyOf;
  }

  /**
    Each query is up to date: what is fetched of a client are rows of that client, and among them is every
    row that was in the table when the query for that client began, not only when the collection did.
   */
  lemma {:induction false} QueryIsFresh(s: State, es: seq<Event>, t: nat, client: nat, j: nat, k: nat)
    requires Inv(s) && Run(s, es).Some? && Queries(es, t, client, j, k)
    requires k < |es| && es[k] == Event(t, EndPackets(false))
    ensures t in Before(s, es, k + 1).threads && Before(s, es, k + 1).threads[t].pc.Collecting?
    ensures var done := Before(s, es, k + 1).threads[t].pc.done;
            && client in done
            && (forall i | i in done[client] :: Matches(Before(s, es, k).db, client, i))
            && (forall i: nat | Matches(Before(s, es, j).db, client, i) :: i in done[client])
  {
    hide Run, Step, Inv;
    QueryIsFixed(s, es, t, client, j, k);
    InvBefore(s, es, k);
    BeforeNext(s, es, k);
    EndOfQuery(Before(s, es, k), t, client, |Before(s, es, j).db.packets|);
    RunPrefix(s, es, j, k);
    InvBefore(s, es, j);
    RunKeepsInv(Before(s, es, j), es[j..k]);
  }

  predicate AtTime(s: State, t: nat, now: int) {
    && t in s.threads && (s.threads[t].pc.Collecting? || s.threads[t].pc.ScanningPackets?)
    && s.threads[t].pc.now == now
  }

  lemma {:induction false} TimeStep(s: State, e: Event, t: nat, now: int)
    requires Step(s, e).Some?
    ensures e.thread == t && e.action.EndClients? && e.action.now == now ==> AtTime(Step(s, e).value, t, now)
    ensures AtTime(s, t, now)
            && (e.thread != t || !(e.action.SendReport? || e.action.Disconnect? || e.action.Fault?)) ==>
              AtTime(Step(s, e).value, t, now)
  {
    hide Find, HasId, KeyOf, Matches;
  }

  /** The time that a collection reports for is the one it took when it had listed the clients. */
  lemma {:induction false} TimeIsTaken(s: State, es: seq<Event>, t: nat, j: nat, k: nat)
    requires Run(s, es).Some? && j < k <= |es|
    requires es[j].thread == t && es[j].action.EndClients? && StillCollecting(es[j + 1..k], t)
    ensures AtTime(Before(s, es, k), t, es[j].action.now)
  {
    hide Run, Before, Step, AtTime;
    BeforeNext(s, es, k - 1);
    TimeStep(Before(s, es, k - 1), es[k - 1], t, es[j].action.now);
    if k - 1 > j {
      assert es[j + 1..k] == es[j + 1..k - 1] + [es[k - 1]];
      TimeIsTaken(s, es, t, j, k - 1);
    }
  }

  /**
    A report is sent only when the collection is whole: unless it was cut, every client listed when it began
    is in it, with every row of that client that was there when it began.
   */
  lemma {:induction false} ReportIsWhole(s: State, t: nat, a: Action)
    requires Inv(s) && t in s.threads && s.threads[t].pc.Collecting?
    requires a == SendReport || a == Disconnect
    requires Step(s, Event(t, a)).Some? && !s.threads[t].pc.cut
    ensures var pc := s.threads[t].pc;
            && Grows(pc.from, s.db)
            && (forall c | c in pc.done :: forall i | i in pc.done[c] :: Matches(s.db, c, i))
            && (forall c: nat | c < |pc.from.clients| ::
                  c in pc.done && forall i: nat | i < |pc.from.packets| && Matches(s.db, c, i) :: i in pc.done[c])
  {
    var pc := s.threads[t].pc;
    assert CollectOk(s.db, pc.from, {}, pc.done, false);
    forall c | c in pc.done ensures FetchOk(s.db, pc.from, c, pc.done[c], false) {}
  }
}
