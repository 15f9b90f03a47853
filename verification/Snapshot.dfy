/**
  Whether what a collection fetched is a snapshot: all the rows that one store of the run held, and no
  others. It need not be, since the clients are listed first and each client's rows are fetched by a query
  of their own, while packets are committed and clients registered in between.
 */
module Snapshot {
  import opened Wrappers
  import opened Wire
  import opened Tables
  import opened Connections
  import opened Statistics
  import opened Collection
  import opened Loss
  import R = Refinement

  type Fetched = map<nat, set<nat>>

  /** The row was fetched, for whichever client. */
  predicate Got(done: Fetched, i: nat) {
    exists c | c in done :: i in done[c]
  }

  /** What was fetched for each client is what the store held for it, and no row of the store is left out. */
  ghost predicate Explains(db: Database, done: Fetched) {
    && (forall c: nat, i: nat | c in done :: i in done[c] <==> Matches(db, c, i))
    && (forall i: nat | i < |db.packets| :: Got(done, i))
  }

  /** The row is in the table and was not fetched, perhaps because its client was never listed. */
  predicate Missed(db: Database, done: Fetched, j: nat) {
    j < |db.packets| && !Got(done, j)
  }

  /** No row fetched is younger than a row missed. */
  ghost predicate Aligned(db: Database, done: Fetched) {
    forall i: nat, j: nat | Got(done, i) && Missed(db, done, j) :: i < j
  }

  /** What a finished collection knows of its rows. */
  ghost predicate Complete(from: Database, db: Database, done: Fetched) {
    && Consistent(from) && Consistent(db) && Grows(from, db)
    && CollectOk(db, from, {}, done, false)
  }

  /** Rows and clients keep their places, so a row is a client's in every store that has the row. */
  lemma MatchesInPrefix(d: Database, db: Database, c: nat, i: nat)
    requires Consistent(d) && Consistent(db) && Grows(d, db) && i < |d.packets|
    ensures Matches(d, c, i) <==> Matches(db, c, i)
  {
    if Matches(db, c, i) {
      assert d.packets[i] in d.packets;
      var owner :| owner in d.clients && owner.id == d.packets[i].clientId;
      var k :| 0 <= k < |d.clients| && d.clients[k] == owner;
      assert k == c;
    }
  }

  lemma ExplainedIsAligned(d: Database, db: Database, done: Fetched)
    requires Explains(d, done)
    ensures Aligned(db, done)
  {
    forall i: nat, j: nat | Got(done, i) && Missed(db, done, j) ensures i < j {
      var c :| c in done && i in done[c];
      assert Matches(d, c, i);
    }
  }

  /** The first row missed, or the number of rows when none was. */
  lemma {:induction false} FirstMissed(db: Database, done: Fetched, n: nat) returns (k: nat)
    requires n <= |db.packets|
    ensures k <= n && (k < n ==> Missed(db, done, k))
    ensures forall j: nat | Missed(db, done, j) && j < n :: k <= j
  {
    if n == 0 {
      k := 0;
    } else {
      k := FirstMissed(db, done, n - 1);
      if k == n - 1 && !Missed(db, done, k) { k := n; }
    }
  }

  /** A row belongs to one client, so fetched at all it was fetched for that client. */
  lemma GotForItsClient(from: Database, db: Database, done: Fetched, c: nat, i: nat)
    requires Complete(from, db, done) && c in done && Matches(db, c, i) && Got(done, i)
    ensures i in done[c]
  {
    var e :| e in done && i in done[e];
    assert FetchOk(db, from, e, done[e], false);
    assert e == c;
  }

  lemma AlignedIsExplained(from: Database, d: Database, db: Database, done: Fetched, k: nat)
    requires Complete(from, db, done) && Consistent(d) && Grows(d, db) && Aligned(db, done)
    requires |d.packets| == k && (k < |db.packets| ==> Missed(db, done, k))
    requires forall j: nat | Missed(db, done, j) :: k <= j
    ensures Explains(d, done)
  {
    forall c: nat, i: nat | c in done ensures i in done[c] <==> Matches(d, c, i) {
      assert FetchOk(db, from, c, done[c], false);
      if i in done[c] {
        assert Got(done, i) && Matches(db, c, i);
        MatchesInPrefix(d, db, c, i);
      } else if Matches(d, c, i) {
        MatchesInPrefix(d, db, c, i);
        assert !Missed(db, done, i);
        GotForItsClient(from, db, done, c, i);
      }
    }
    forall i: nat | i < |d.packets| ensures Got(done, i) {
      assert !Missed(db, done, i);
    }
  }

  lemma {:induction false} StepAddsOne(s: State, e: Event)
    requires Step(s, e).Some?
    ensures |s.db.packets| <= |Step(s, e).value.db.packets| <= |s.db.packets| + 1
  {
    hide Find, HasId, KeyOf;
  }

  /** The table grows row by row, so every size between the first and the last is that of some store of the run. */
  lemma {:induction false} StoreOfSize(s: State, es: seq<Event>, m: nat, k: nat) returns (n: nat)
    requires Run(s, es).Some? && m <= |es|
    requires |s.db.packets| <= k <= |Before(s, es, m).db.packets|
    ensures n <= m && |Before(s, es, n).db.packets| == k
  {
    hide Run, Before;
    if |Before(s, es, m).db.packets| == k {
      n := m;
    } else {
      BeforeFirst(s, es);
      BeforeNext(s, es, m - 1);
      StepAddsOne(Before(s, es, m - 1), es[m - 1]);
      n := StoreOfSize(s, es, m - 1, k);
    }
  }

  lemma {:induction false} GrowsTo(s: State, es: seq<Event>, n: nat)
    requires Inv(s) && Run(s, es).Some? && n <= |es|
    ensures Consistent(Before(s, es, n).db) && Grows(Before(s, es, n).db, Run(s, es).value.db)
  {
    RunPrefix(s, es, n, |es|);
    assert es[..|es|] == es;
    InvBefore(s, es, n);
    RunKeepsInv(Before(s, es, n), es[n..|es|]);
  }

  /** A run in which thread t begins a collection and, at the end, has fetched its last row, uncut. */
  predicate Collects(s: State, es: seq<Event>, t: nat) {
    && es != [] && es[0] == Event(t, StartScan) && StillCollecting(es, t)
    && var s' := Run(s, es);
       && s'.Some? && t in s'.value.threads
       && var pc := s'.value.threads[t].pc;
          pc.Collecting? && pc.todo == {} && !pc.cut
  }

  function DoneBy(s: State, es: seq<Event>, t: nat): Fetched
    requires Collects(s, es, t)
  {
    Run(s, es).value.threads[t].pc.done
  }

  lemma {:induction false} CollectsComplete(s: State, es: seq<Event>, t: nat)
    requires Inv(s) && Collects(s, es, t)
    ensures Complete(s.db, Run(s, es).value.db, DoneBy(s, es, t))
  {
    RunKeepsInv(s, es);
    assert forall e | e in es[1..] :: e in es;
    StartIsKept(Step(s, es[0]).value, es[1..], t, s.db);
  }

  /**
    Over every interleaving: what a collection fetched is all that some store of the run held, and nothing
    else, if and only if no row it fetched is younger than a row it missed, of a listed client or of none.
   */
  lemma {:induction false} SnapshotIff(s: State, es: seq<Event>, t: nat)
    requires Inv(s) && Collects(s, es, t)
    ensures (exists n: nat :: n <= |es| && Explains(Before(s, es, n).db, DoneBy(s, es, t)))
            <==> Aligned(Run(s, es).value.db, DoneBy(s, es, t))
  {
    var db, done := Run(s, es).value.db, DoneBy(s, es, t);
    CollectsComplete(s, es, t);
    hide Run, Before, Inv, Collects, Consistent, DoneBy, Explains, Aligned, CollectOk;
    forall n: nat | n <= |es| && Explains(Before(s, es, n).db, done) ensures Aligned(db, done) {
      ExplainedIsAligned(Before(s, es, n).db, db, done);
    }
    if Aligned(db, done) {
      var k := FirstMissed(db, done, |db.packets|);
      NoneMissedBefore(s.db, db, done);
      BeforeFirst(s, es);
      var n := StoreOfSize(s, es, |es|, k);
      GrowsTo(s, es, n);
      AlignedIsExplained(s.db, Before(s, es, n).db, db, done, k);
    }
  }

  /** A row that was there when the collection began was not missed: its client was listed. */
  lemma NoneMissedBefore(from: Database, db: Database, done: Fetched)
    requires Complete(from, db, done)
    ensures forall j: nat | Missed(db, done, j) :: |from.packets| <= j
  {
    forall j: nat | j < |from.packets| ensures Got(done, j) {
      assert from.packets[j] in from.packets;
      var owner :| owner in from.clients && owner.id == from.packets[j].clientId;
      var c: nat :| c < |from.clients| && from.clients[c] == owner;
      assert c in done && FetchOk(db, from, c, done[c], false);
      assert Matches(db, c, j);
    }
  }

  /** If nothing is committed while the collection runs, what it fetched is the store as it was. */
  lemma {:induction false} QuietIsSnapshot(s: State, es: seq<Event>, t: nat)
    requires Inv(s) && Collects(s, es, t) && R.Commits(s, es) == []
    ensures Explains(s.db, DoneBy(s, es, t))
  {
    var db, done := Run(s, es).value.db, DoneBy(s, es, t);
    CollectsComplete(s, es, t);
    R.StoredIsCommitted(s, es, t);
    assert s.db.packets == db.packets;
    NoneMissedBefore(s.db, db, done);
    AlignedIsExplained(s.db, s.db, db, done, |s.db.packets|);
  }

  // ---------------------------------------------------------------- what a snapshot reports

  lemma {:induction false} PickedExactly(packets: seq<Row>, got: set<nat>, k: nat, id: int)
    requires k <= |packets|
    requires forall i: nat | i < |packets| :: i in got <==> i < k && packets[i].clientId == id
    ensures Picked(packets, got) == SamplesOf(packets[..k], id)
    decreases |packets|
  {
    if packets != [] {
      var rest := packets[..|packets| - 1];
      assert forall i: nat | i < |rest| :: rest[i] == packets[i];
      if k == |packets| {
        assert packets[..k] == packets && rest[..k - 1] == rest;
        PickedExactly(rest, got, k - 1, id);
      } else {
        PickedExactly(rest, got, k, id);
        assert rest[..k] == packets[..k];
      }
    } else {
      assert packets[..k] == [];
    }
  }

  lemma SnapshotLine(d: Database, db: Database, done: Fetched, c: nat, now: int)
    requires Consistent(d) && Consistent(db) && Grows(d, db) && Explains(d, done)
    requires c in done && c < |db.clients| && (forall i | i in done[c] :: i < |db.packets|)
    ensures Summary(db.clients[c].key, Picked(db.packets, done[c]), now) == ReportFor(d, db.clients[c].key, now)
  {
    var row, k := db.clients[c], |d.packets|;
    forall i: nat | i < |db.packets| ensures i in done[c] <==> i < k && db.packets[i].clientId == row.id {
      if i < k { MatchesInPrefix(d, db, c, i); }
    }
    PickedExactly(db.packets, done[c], k, row.id);
    assert db.packets[..k] == d.packets;
    if c < |d.clients| {
      FindUnique(d.clients, c);
    } else {
      LateClient(d, db, c);
    }
  }

  lemma ReportedHasRow(d: Database, key: Key, now: int) returns (i: nat)
    requires ReportFor(d, key, now).Some?
    ensures i < |d.packets| && Find(d.clients, key) == Some(d.packets[i].clientId)
  {
    var id := Find(d.clients, key).value;
    if forall r | r in d.packets :: r.clientId != id {
      NoOrphans(d.packets, id);
    }
    var r :| r in d.packets && r.clientId == id;
    i :| 0 <= i < |d.packets| && d.packets[i] == r;
  }

  /** Every key for which the explaining store has a line is the key of a client that was collected. */
  lemma SnapshotCovers(d: Database, db: Database, done: Fetched, key: Key, now: int)
    requires Consistent(d) && Grows(d, db) && Explains(d, done) && ReportFor(d, key, now).Some?
    ensures exists c :: c in done && c < |db.clients| && db.clients[c].key == key
  {
    var i := ReportedHasRow(d, key, now);
    assert Got(done, i);
    var c :| c in done && i in done[c];
    assert Matches(d, c, i);
    FindIff(d.clients, d.clients[c].id, key);
    var k :| 0 <= k < |d.clients| && d.clients[k] == Client(d.clients[c].id, key);
    assert k == c;
  }

  /**
    A collection that is a snapshot reports that one store: the line it computes for each client collected
    is the store's, and the store has no line for any other key.
   */
  lemma SnapshotReports(d: Database, db: Database, done: Fetched, now: int)
    requires Consistent(d) && Consistent(db) && Grows(d, db) && Explains(d, done)
    requires forall c | c in done :: c < |db.clients| && forall i | i in done[c] :: i < |db.packets|
    ensures forall c | c in done ::
              Summary(db.clients[c].key, Picked(db.packets, done[c]), now) == ReportFor(d, db.clients[c].key, now)
    ensures forall key: Key | ReportFor(d, key, now).Some? ::
              exists c :: c in done && db.clients[c].key == key
  {
    forall c | c in done
      ensures Summary(db.clients[c].key, Picked(db.packets, done[c]), now) == ReportFor(d, db.clients[c].key, now)
    {
      SnapshotLine(d, db, done, c, now);
    }
    forall key: Key | ReportFor(d, key, now).Some? ensures exists c :: c in done && db.clients[c].key == key {
      SnapshotCovers(d, db, done, key, now);
    }
  }

  lemma LateClient(d: Database, db: Database, c: nat)
    requires Consistent(d) && Consistent(db) && Grows(d, db) && |d.clients| <= c < |db.clients|
    ensures Find(d.clients, db.clients[c].key).None? && SamplesOf(d.packets, db.clients[c].id) == []
  {
    var row := db.clients[c];
    FindSome(d.clients, row.key);
    forall x | x in d.clients ensures x.key != row.key && x.id != row.id {
      var k :| 0 <= k < |d.clients| && d.clients[k] == x;
      assert db.clients[k] == x;
    }
    forall r | r in d.packets ensures r.clientId != row.id {
      assert HasId(d.clients, r.clientId);
    }
    NoOrphans(d.packets, row.id);
  }
}
