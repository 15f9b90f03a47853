/**
  When a packet is lost. Apart from storage faults and NaNs a save fails in one situation only: between
  its select and its insert another connection registered the same client. The connection that loses the
  race is closed, and with it the one packet it was saving.
 */
module Loss {
  import opened Wrappers
  import opened Wire
  import opened Tables
  import opened Connections

  /** The event is a successful registration of a client key. */
  predicate Registers(s: State, e: Event, key: Key) {
    && e.action.InsertClient?
    && e.thread in s.threads
    && s.threads[e.thread].pc.InsertingClient?
    && s.threads[e.thread].pc.p.Key() == key
    && Find(s.db.clients, key).None?
    && !HasId(s.db.clients, e.action.id)
  }

  /** Some event of a run registers a key. */
  predicate RunRegisters(s: State, es: seq<Event>, key: Key)
    requires Run(s, es).Some?
    decreases |es|
  {
    es != [] && (Registers(s, es[0], key) || RunRegisters(Step(s, es[0]).value, es[1..], key))
  }

  predicate Idle(es: seq<Event>, t: nat) {
    forall e | e in es :: e.thread != t || e.action.Stop?
  }

  predicate AllFaultless(es: seq<Event>) {
    forall e | e in es :: Faultless(e.action)
  }

  lemma {:induction false} StepFind(s: State, e: Event, key: Key)
    requires Step(s, e).Some?
    ensures Find(Step(s, e).value.db.clients, key).Some? <==> Find(s.db.clients, key).Some? || Registers(s, e, key)
  {
    hide Find, HasId, KeyOf, Matches;
    if e.action.InsertClient? {
      FindAppend(s.db.clients, Client(e.action.id, s.threads[e.thread].pc.p.Key()), key);
    }
  }

  /** A key is in the table after a run exactly when it was before or the run registered it. */
  lemma {:induction false} RunFind(s: State, es: seq<Event>, key: Key)
    requires Run(s, es).Some?
    ensures Find(Run(s, es).value.db.clients, key).Some? <==>
            Find(s.db.clients, key).Some? || RunRegisters(s, es, key)
    decreases |es|
  {
    if es != [] {
      StepFind(s, es[0], key);
      RunFind(Step(s, es[0]).value, es[1..], key);
      if Find(s.db.clients, key).Some? { FindStays(s, es, key); }
    }
  }

  lemma {:induction false} FindStays(s: State, es: seq<Event>, key: Key)
    requires Run(s, es).Some? && Find(s.db.clients, key).Some?
    ensures Find(Run(s, es).value.db.clients, key).Some?
    decreases |es|
  {
    if es != [] {
      StepFind(s, es[0], key);
      FindStays(Step(s, es[0]).value, es[1..], key);
    }
  }

  lemma {:induction false} IdleStays(s: State, es: seq<Event>, t: nat)
    requires Run(s, es).Some? && t in s.threads && Idle(es, t)
    ensures t in Run(s, es).value.threads && Run(s, es).value.threads[t] == s.threads[t]
    decreases |es|
  {
    if es != [] {
      assert es[0] in es;
      IdleStays(Step(s, es[0]).value, es[1..], t);
    }
  }

  /**
    The fate of a save that found no client: while it waits to insert one, other threads run. Its
    insert then loses the packet and the connection if and only if one of them registered the same key.
   */
  lemma {:induction false} LostIffRaced(s: State, es: seq<Event>, t: nat, id: int)
    requires t in s.threads && s.threads[t].pc.InsertingClient?
    requires Find(s.db.clients, s.threads[t].pc.p.Key()).None?
    requires Run(s, es).Some? && Idle(es, t)
    requires !HasId(Run(s, es).value.db.clients, id)
    ensures var key := s.threads[t].pc.p.Key();
            var s' := Run(s, es).value;
            var after := Step(s', Event(t, InsertClient(id)));
            && after.Some?
            && (after.value.threads[t] == Lose(s.threads[t]) <==> RunRegisters(s, es, key))
            && (after.value.threads[t].pc == Reselecting(s.threads[t].pc.p) <==> !RunRegisters(s, es, key))
  {
    RunFind(s, es, s.threads[t].pc.p.Key());
    IdleStays(s, es, t);
  }

  predicate LosingStep(db: Database, pc: Pc, a: Action) {
    Saving(pc) &&
    match a
    case Fault => true
    case Reselect(silent) => silent
    case InsertClient(_) => Find(db.clients, pc.p.Key()).Some?
    case InsertPacket => !pc.p.Storable()
    case _ => false
  }

  /**
    The steps that lose a payload: a registration that comes second, a NaN, which is bound as NULL where
    the column forbids it, and a storage fault during a save.
   */
  lemma {:induction false} LossCauses(s: State, e: Event, t: nat)
    requires Inv(s) && Step(s, e).Some? && t in s.threads
    ensures var th, th' := s.threads[t], Step(s, e).value.threads[t];
            if e.thread == t && LosingStep(s.db, th.pc, e.action) then th' == Lose(th) else th'.lost == th.lost
  {
  }

  /** Once a thread has its client row, no later step of the save can miss it: the re-read finds a row. */
  lemma {:induction false} ReselectNeverEmpty(s: State, es: seq<Event>, t: nat)
    requires Inv(s) && Run(s, es).Some?
    requires t in Run(s, es).value.threads && Run(s, es).value.threads[t].pc.Reselecting?
    ensures var s' := Run(s, es).value;
            var p := s'.threads[t].pc.p;
            var after := Step(s', Event(t, Reselect(false)));
            && after.Some?
            && Find(s'.db.clients, p.Key()).Some?
            && after.value.threads[t].pc == InsertingPacket(p, Find(s'.db.clients, p.Key()).value)
  {
    RunKeepsInv(s, es);
  }

  // ---------------------------------------------------------------- runs without a race

  /** No two threads are in the middle of saving under the same key. */
  predicate DistinctSaves(s: State) {
    forall t, u | t in s.threads && u in s.threads && t != u && Saving(s.threads[t].pc) && Saving(s.threads[u].pc) ::
      s.threads[t].pc.p.Key() != s.threads[u].pc.p.Key()
  }

  predicate AlwaysDistinctSaves(s: State, es: seq<Event>)
    requires Run(s, es).Some?
    decreases |es|
  {
    DistinctSaves(s) && (es != [] ==> AlwaysDistinctSaves(Step(s, es[0]).value, es[1..]))
  }

  /** Every payload in hand can be stored: no NULL would be bound. */
  predicate NoNulls(s: State) {
    forall t | t in s.threads && Saving(s.threads[t].pc) :: s.threads[t].pc.p.Storable()
  }

  predicate NoNullsRead(es: seq<Event>) {
    forall e | e in es && e.action.Receive? && e.action.m.DataMessage? && e.action.m.payload.Some? ::
      e.action.m.payload.value.Storable()
  }

  /** A thread about to register a client is still right that there is none. */
  predicate UpToDate(s: State) {
    forall t | t in s.threads && s.threads[t].pc.InsertingClient? :: Find(s.db.clients, s.threads[t].pc.p.Key()).None?
  }

  /** Another thread's step can only register a key that this thread is not about to register. */
  lemma {:induction false} OthersStayUpToDate(s: State, e: Event, t: nat)
    requires Step(s, e).Some? && DistinctSaves(s) && UpToDate(s)
    requires t in s.threads && t != e.thread && s.threads[t].pc.InsertingClient?
    ensures Find(Step(s, e).value.db.clients, s.threads[t].pc.p.Key()).None?
  {
    StepFind(s, e, s.threads[t].pc.p.Key());
  }

  /** A thread gets to the registration only by a select that found nothing. */
  lemma {:induction false} OwnIsUpToDate(s: State, e: Event)
    requires Step(s, e).Some? && Faultless(e.action) && !e.action.Stop?
    requires Step(s, e).value.threads[e.thread].pc.InsertingClient?
    ensures Find(Step(s, e).value.db.clients, Step(s, e).value.threads[e.thread].pc.p.Key()).None?
  {
    assert e.action.Select?;
  }

  lemma {:induction false} StepKeepsUpToDate(s: State, e: Event)
    requires Step(s, e).Some? && Faultless(e.action)
    requires DistinctSaves(s) && UpToDate(s)
    ensures UpToDate(Step(s, e).value)
  {
    var s' := Step(s, e).value;
    if !e.action.Stop? {
      forall t | t in s'.threads && s'.threads[t].pc.InsertingClient?
        ensures Find(s'.db.clients, s'.threads[t].pc.p.Key()).None?
      {
        if t == e.thread { OwnIsUpToDate(s, e); } else { OthersStayUpToDate(s, e, t); }
      }
    }
  }

  /** What a connection has lost so far; one that is not there yet has lost nothing. */
  function LostBy(s: State, t: nat): nat {
    if t in s.threads then s.threads[t].lost else 0
  }

  lemma {:induction false} StepLosesNothing(s: State, e: Event, t: nat)
    requires Inv(s) && Step(s, e).Some? && Faultless(e.action)
    requires UpToDate(s) && NoNulls(s)
    ensures LostBy(Step(s, e).value, t) == LostBy(s, t)
  {
  }

  /** The payload that a step leaves its thread saving is the one it read or the one it had. */
  lemma {:induction false} SavedPayload(s: State, e: Event)
    requires Step(s, e).Some? && !e.action.Stop? && Saving(Step(s, e).value.threads[e.thread].pc)
    ensures var p := Step(s, e).value.threads[e.thread].pc.p;
            (e.action.Receive? && e.action.m == DataMessage(Some(p)))
            || (e.thread in s.threads && Saving(s.threads[e.thread].pc) && s.threads[e.thread].pc.p == p)
  {
  }

  lemma {:induction false} StepKeepsNoNulls(s: State, e: Event)
    requires Step(s, e).Some? && NoNulls(s) && NoNullsRead([e])
    ensures NoNulls(Step(s, e).value)
  {
    var s' := Step(s, e).value;
    assert e in [e];
    if !e.action.Stop? {
      forall t | t in s'.threads && Saving(s'.threads[t].pc) ensures s'.threads[t].pc.p.Storable() {
        if t == e.thread { SavedPayload(s, e); }
      }
    }
  }

  /**
    If concurrent saves carry distinct keys, no storage fault occurs and no NaN is sent, then no save
    ever fails: no connection loses anything, however the threads interleave.
   */
  lemma {:induction false} DistinctKeysLoseNothing(s: State, es: seq<Event>, t: nat)
    requires Inv(s) && Run(s, es).Some?
    requires AllFaultless(es) && NoNullsRead(es) && NoNulls(s)
    requires AlwaysDistinctSaves(s, es) && UpToDate(s)
    ensures LostBy(Run(s, es).value, t) == LostBy(s, t)
    decreases |es|
  {
    if es != [] {
      assert es[0] in es;
      forall e | e in [es[0]] ensures e in es {}
      StepKeepsInv(s, es[0]);
      StepKeepsUpToDate(s, es[0]);
      StepKeepsNoNulls(s, es[0]);
      StepLosesNothing(s, es[0], t);
      DistinctKeysLoseNothing(Step(s, es[0]).value, es[1..], t);
    }
  }

  // ---------------------------------------------------------------- one key for each connection

  ghost predicate Injective(own: nat -> Key) {
    forall t: nat, u: nat | t != u :: own(t) != own(u)
  }

  predicate Carries(s: State, own: nat -> Key) {
    forall t | t in s.threads && Saving(s.threads[t].pc) :: s.threads[t].pc.p.Key() == own(t)
  }

  predicate ReadsOwn(es: seq<Event>, own: nat -> Key) {
    forall e | e in es && e.action.Receive? && e.action.m.DataMessage? && e.action.m.payload.Some? ::
      e.action.m.payload.value.Key() == own(e.thread)
  }

  lemma {:induction false} StepKeepsCarries(s: State, e: Event, own: nat -> Key)
    requires Step(s, e).Some? && Carries(s, own) && ReadsOwn([e], own)
    ensures Carries(Step(s, e).value, own)
  {
    var s' := Step(s, e).value;
    assert e in [e];
    if !e.action.Stop? {
      forall t | t in s'.threads && Saving(s'.threads[t].pc) ensures s'.threads[t].pc.p.Key() == own(t) {
        if t == e.thread { SavedPayload(s, e); }
      }
    }
  }

  lemma {:induction false} OwnKeysAreDistinct(s: State, es: seq<Event>, own: nat -> Key)
    requires Run(s, es).Some? && Injective(own) && Carries(s, own) && ReadsOwn(es, own)
    ensures AlwaysDistinctSaves(s, es)
    decreases |es|
  {
    if es != [] {
      assert es[0] in es;
      forall e | e in [es[0]] ensures e in es {}
      StepKeepsCarries(s, es[0], own);
      OwnKeysAreDistinct(Step(s, es[0]).value, es[1..], own);
    }
  }

  /**
    A server started on any consistent store, whose connections each send under a key of their own:
    without faults and NaNs every payload that a connection has sent is stored, or is being saved.
   */
  lemma {:induction false} OwnKeysLoseNothing(db: Database, es: seq<Event>, own: nat -> Key, t: nat)
    requires Consistent(db) && Injective(own)
    requires Run(State(db, false, map[]), es).Some?
    requires AllFaultless(es) && NoNullsRead(es) && ReadsOwn(es, own)
    requires t in Run(State(db, false, map[]), es).value.threads
    ensures var th := Run(State(db, false, map[]), es).value.threads[t];
            th.lost == 0 && th.taken == th.stored + if Saving(th.pc) then 1 else 0
  {
    var start := State(db, false, map[]);
    OwnKeysAreDistinct(start, es, own);
    DistinctKeysLoseNothing(start, es, t);
    RunKeepsInv(start, es);
  }

  // ---------------------------------------------------------------- a run with one

  /** A run without faults and NaNs from one state to another. */
  predicate Reached(s: State, es: seq<Event>, s': State) {
    Run(s, es) == Some(s') && AllFaultless(es) && NoNullsRead(es)
  }

  lemma {:induction false} ReachedNext(s: State, es: seq<Event>, s1: State, e: Event, s2: State)
    requires Reached(s, es, s1) && Step(s1, e) == Some(s2)
    requires Faultless(e.action) && NoNullsRead([e])
    ensures Reached(s, es + [e], s2)
  {
    RunConcat(s, es, [e]);
    assert [e][1..] == [] && e in [e];
  }

  /** Two connections, 0 and 1. */
  function Two(db: Database, a: Thread, b: Thread): State {
    State(db, false, map[0 := a, 1 := b])
  }

  lemma StepOfTwo(db: Database, a: Thread, b: Thread, action: Action)
    requires !action.Stop? && !action.Accept?
    ensures Step(Two(db, a, b), Event(0, action)) ==
            var next := Act(db, false, a, action);
            if next.None? then None else Some(Two(next.value.0, next.value.1, b))
    ensures Step(Two(db, a, b), Event(1, action)) ==
            var next := Act(db, false, b, action);
            if next.None? then None else Some(Two(next.value.0, a, next.value.1))
  {
    hide Act;
    var s, x, y := Two(db, a, b), Act(db, false, a, action), Act(db, false, b, action);
    if x.Some? { assert s.threads[0 := x.value.1] == map[0 := x.value.1, 1 := b]; }
    if y.Some? { assert s.threads[1 := y.value.1] == map[0 := a, 1 := y.value.1]; }
  }

  /** The same action by both, one after the other, where it does not touch the store. */
  lemma {:induction false} BothAct(s: State, es: seq<Event>, db: Database, a: Thread, b: Thread,
                                     x: Action, y: Action, a': Thread, b': Thread)
    requires Reached(s, es, Two(db, a, b))
    requires Faultless(x) && Faultless(y) && NoNullsRead([Event(0, x)]) && NoNullsRead([Event(1, y)])
    requires !x.Stop? && !x.Accept? && !y.Stop? && !y.Accept?
    requires Act(db, false, a, x) == Some((db, a')) && Act(db, false, b, y) == Some((db, b'))
    ensures Reached(s, es + [Event(0, x)] + [Event(1, y)], Two(db, a', b'))
  {
    hide Run, Step, Act, Reached;
    StepOfTwo(db, a, b, x);
    StepOfTwo(db, a', b, y);
    ReachedNext(s, es, Two(db, a, b), Event(0, x), Two(db, a', b));
    ReachedNext(s, es + [Event(0, x)], Two(db, a', b), Event(1, y), Two(db, a', b'));
  }

  lemma {:induction false} BothAccepted(db: Database) returns (es: seq<Event>)
    ensures Reached(State(db, false, map[]), es, Two(db, FRESH, FRESH))
  {
    var s, s1 := State(db, false, map[]), State(db, false, map[0 := FRESH]);
    assert Reached(s, [], s);
    ReachedNext(s, [], s, Event(0, Accept), s1);
    ReachedNext(s, [] + [Event(0, Accept)], s1, Event(1, Accept), Two(db, FRESH, FRESH));
    es := [] + [Event(0, Accept)] + [Event(1, Accept)];
  }

  /**
    On an empty store two connections of one new client are accepted, read a packet each and both find
    no client; the second insert closes its connection. No fault occurs and no NaN is sent.
   */
  lemma {:induction false} RaceLosesPacket(p: Payload, q: Payload) returns (es: seq<Event>)
    requires p.Key() == q.Key() && p.Storable() && q.Storable()
    ensures var start := State(Database([], []), false, map[]);
            && Run(start, es).Some? && AllFaultless(es) && NoNullsRead(es)
            && Run(start, es).value == Two(Database([Client(1, p.Key())], []),
                                           Thread(Reselecting(p), 1, 0, 0), Thread(Closed, 1, 0, 1))
  {
    hide Run, Step, KeyOf;
    var db, reading := Database([], []), Thread(Reading, 0, 0, 0);
    var start := State(db, false, map[]);
    var x, y := Receive(DataMessage(Some(p))), Receive(DataMessage(Some(q)));
    es := BothAccepted(db);
    BothAct(start, es, db, FRESH, FRESH, Poll, Poll, reading, reading);
    es := es + [Event(0, Poll)] + [Event(1, Poll)];
    BothAct(start, es, db, reading, reading, x, y, Thread(Selecting(p), 1, 0, 0), Thread(Selecting(q), 1, 0, 0));
    es := es + [Event(0, x)] + [Event(1, y)];
    BothAct(start, es, db, Thread(Selecting(p), 1, 0, 0), Thread(Selecting(q), 1, 0, 0), Select(false), Select(false),
            Thread(InsertingClient(p), 1, 0, 0), Thread(InsertingClient(q), 1, 0, 0));
    es := es + [Event(0, Select(false))] + [Event(1, Select(false))];
    es := SecondInsertLoses(start, es, p, q);
  }

  lemma {:induction false} SecondInsertLoses(s: State, before: seq<Event>, p: Payload, q: Payload)
    returns (es: seq<Event>)
    requires p.Key() == q.Key()
    requires Reached(s, before, Two(Database([], []),
                                    Thread(InsertingClient(p), 1, 0, 0), Thread(InsertingClient(q), 1, 0, 0)))
    ensures Reached(s, es, Two(Database([Client(1, p.Key())], []),
                               Thread(Reselecting(p), 1, 0, 0), Thread(Closed, 1, 0, 1)))
  {
    hide Run, Step, KeyOf, Reached;
    var db, db' := Database([], []), Database([Client(1, p.Key())], []);
    var a, b := Thread(InsertingClient(p), 1, 0, 0), Thread(InsertingClient(q), 1, 0, 0);
    var a' := Thread(Reselecting(p), 1, 0, 0);
    assert db.clients + [Client(1, p.Key())] == db'.clients;
    StepOfTwo(db, a, b, InsertClient(1));
    StepOfTwo(db', a', b, InsertClient(2));
    ReachedNext(s, before, Two(db, a, b), Event(0, InsertClient(1)), Two(db', a', b));
    ReachedNext(s, before + [Event(0, InsertClient(1))], Two(db', a', b), Event(1, InsertClient(2)),
                Two(db', a', Lose(b)));
    es := before + [Event(0, InsertClient(1))] + [Event(1, InsertClient(2))];
  }
}
