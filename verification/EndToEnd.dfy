/** From one client's timer to the line the server reports for it, through any interleaving of saves. */
module EndToEnd {
  import opened Wrappers
  import opened Wire
  import opened Tables
  import opened Connections
  import opened Statistics
  import opened Sender
  import opened Collection
  import R = Refinement

  /**
    A key whose samples all come from one sender's loop: whatever the server's threads did, and whatever
    part of the stored rows a collection fetched, the reported averages stay within the client's range and
    the sums within what the timer lets through up to `latest`, the newest timestamp fetched. A collection
    takes `now` before it queries the packets, so `latest` may be later than `now`.
   */
  lemma {:induction false} ReportedWithinRate(s: State, es: seq<Event>, key: Key, sent: seq<Sample>,
                                                fetched: seq<Sample>, now: int, latest: int)
    requires Inv(s) && Run(s, es).Some?
    requires Content(s.db, key) + multiset(R.CommittedUnder(R.Commits(s, es), key)) <= multiset(sent)
    requires Spaced(sent) && forall p | p in sent :: Bounded(p)
    requires multiset(fetched) <= Content(Run(s, es).value.db, key)
    requires forall p | p in fetched :: p.timestamp <= latest
    ensures Total(Count, fetched, now - MINUTE) <= Capacity(now - MINUTE, latest) as real
    ensures Total(Count, fetched, now - 5 * MINUTE) <= Capacity(now - 5 * MINUTE, latest) as real
    ensures Summary(key, fetched, now).Some? ==> WithinRate(Summary(key, fetched, now).value, now, latest)
    ensures latest <= now && Summary(key, fetched, now).Some? ==>
              Summary(key, fetched, now).value.y1 <= 1170.0 && Summary(key, fetched, now).value.y5 <= 5490.0
    ensures Summary(key, fetched, now).Some? ==>
              && -90.0 <= Summary(key, fetched, now).value.x1 <= 90.0
              && -90.0 <= Summary(key, fetched, now).value.x5 <= 90.0
  {
    assert multiset(fetched) <= multiset(sent) by { R.ContentAfter(s, es, key); }
    ReportBounds(key, fetched, sent, now, latest);
    hide WithinRate, Capacity, Summary;
    if Summary(key, fetched, now).Some? { RateInNumbers(Summary(key, fetched, now).value, now, latest); }
  }

  lemma RateInNumbers(line: Stat, now: int, latest: int)
    requires WithinRate(line, now, latest)
    ensures -90.0 <= line.x1 <= 90.0 && -90.0 <= line.x5 <= 90.0
    ensures latest <= now ==> line.y1 <= 1170.0 && line.y5 <= 5490.0
  {
    if latest <= now { CapacityAtNow(now, latest); }
  }

  /** What a collection has fetched for a client by some state of a run is among what is stored for it then. */
  lemma {:induction false} CollectedIsStored(db: Database, es: seq<Event>, s: State, t: nat, pc: Pc, c: nat)
    requires Consistent(db) && Run(State(db, false, map[]), es) == Some(s)
    requires t in s.threads && s.threads[t].pc == pc && pc.Collecting? && c in pc.done
    ensures c < |s.db.clients| && multiset(Picked(s.db.packets, pc.done[c])) <= Content(s.db, s.db.clients[c].key)
  {
    hide Run, Picked;
    RunKeepsInv(State(db, false, map[]), es);
    FetchSandwich(s.db, pc.from, c, pc.done[c], pc.cut);
  }

  lemma ActivityIsSpaced(w: World, stop: nat)
    requires w.Monotone() && w.InRange()
    ensures Spaced(Packets(Activity(w, stop))) && forall p | p in Packets(Activity(w, stop)) :: Bounded(p)
  {
    TraceIsSpaced(w, 1, w.Timer(0), stop);
  }

  /**
    The same from the client's side. In any run of a server from any consistent store, and with packets
    saved before, during and after: when a thread has fetched the packets of client `c`, all of them sent by
    one client's loop on a clock that never goes back, the line it computes for that client is within the rate.
   */
  lemma {:induction false} ClientWithinRate(db: Database, es: seq<Event>, s: State, t: nat, pc: Pc, c: nat,
                                              w: World, stop: nat, latest: int)
    requires Consistent(db) && Run(State(db, false, map[]), es) == Some(s)
    requires t in s.threads && s.threads[t].pc == pc && pc.Collecting? && c in pc.done && c < |s.db.clients|
    requires Content(s.db, s.db.clients[c].key) <= multiset(Packets(Activity(w, stop)))
    requires w.Monotone() && w.InRange()
    requires forall p | p in Picked(s.db.packets, pc.done[c]) :: p.timestamp <= latest
    ensures var line := Summary(s.db.clients[c].key, Picked(s.db.packets, pc.done[c]), pc.now);
            && (line.Some? ==> WithinRate(line.value, pc.now, latest))
            && (line.Some? ==> -90.0 <= line.value.x1 <= 90.0 && -90.0 <= line.value.x5 <= 90.0)
            && (latest <= pc.now && line.Some? ==> line.value.y1 <= 1170.0 && line.value.y5 <= 5490.0)
  {
    CollectedIsStored(db, es, s, t, pc, c);
    hide Run, Content, Picked, Packets, Activity, Summary, Inv;
    var key, fetched := s.db.clients[c].key, Picked(s.db.packets, pc.done[c]);
    ActivityIsSpaced(w, stop);
    hide WithinRate, Capacity, Total, CollectOk, FetchOk;
    ReportBounds(key, fetched, Packets(Activity(w, stop)), pc.now, latest);
    if Summary(key, fetched, pc.now).Some? { RateInNumbers(Summary(key, fetched, pc.now).value, pc.now, latest); }
  }

  /** Committing one packet and collecting at the same instant moves only its own client's line. */
  lemma {:induction false} CommitFrame(s: State, e: Event, key: Key, now: int)
    requires Inv(s) && Step(s, e).Some?
    ensures var db', cs := Step(s, e).value.db, R.CommitOf(s, e);
            if cs != [] && cs[0].key == key then
              forall m: Measure, since: int ::
                Total(m, RowsOf(db', key), since) == Total(m, RowsOf(s.db, key), since) + Weight(m, cs[0].sample, since)
            else ReportFor(db', key, now) == ReportFor(s.db, key, now)
  {
    var db', cs := Step(s, e).value.db, R.CommitOf(s, e);
    if cs != [] {
      R.CommitContent(s, e, key);
      SaveFrame(s.db, db', cs[0].key, cs[0].sample, key, now);
    } else if e.action.InsertClient? {
      R.RegisterContent(s, e, key);
      RowsAreContent(s.db, key);
      RowsAreContent(db', key);
      SummaryPermutation(key, RowsOf(db', key), RowsOf(s.db, key), now);
    } else {
      R.OtherStep(s, e);
    }
  }
}
