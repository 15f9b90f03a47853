/**
  How long a connection lives and what it does with its life. It is closed for one of four reasons and for no
  other, and it stays closed; until then every message it has finished can be followed by any other, and
  whatever message it has in hand it can finish on its own.
 */
module Lifetime {
  import opened Wrappers
  import opened Wire
  import opened Tables
  import opened Connections
  import opened Loss
  import opened LossHistory

  // ---------------------------------------------------------------- why a connection ends

  /** The stop flag was set before a run, or by one of its first n events. */
  predicate StopSet(s: State, es: seq<Event>, n: nat) {
    s.stopped || exists i | 0 <= i < n && i < |es| :: es[i].action.Stop?
  }

  /** The thread's j-th event ends its connection. */
  predicate EndsAt(s: State, es: seq<Event>, t: nat, j: nat)
    requires Run(s, es).Some?
  {
    && j < |es| && es[j].thread == t && t in Before(s, es, j).threads
    && (|| (es[j].action.Poll? && StopSet(s, es, j))
        || es[j].action.Disconnect?
        || es[j].action.Fault?
        || LosesAt(s, es, t, j))
  }

  predicate IsClosed(s: State, t: nat) {
    t in s.threads && s.threads[t].pc.Closed?
  }

  lemma {:induction false} StoppedIff(s: State, es: seq<Event>, n: nat)
    requires Run(s, es).Some? && n <= |es|
    ensures Before(s, es, n).stopped <==> StopSet(s, es, n)
  {
    hide Run, Before;
    BeforeFirst(s, es);
    if n > 0 {
      StoppedIff(s, es, n - 1);
      BeforeNext(s, es, n - 1);
      StopStep(Before(s, es, n - 1), es[n - 1]);
    }
  }

  lemma StopStep(s: State, e: Event)
    requires Step(s, e).Some?
    ensures Step(s, e).value.stopped <==> s.stopped || e.action.Stop?
  {
  }

  lemma {:induction false} ClosingStep(s: State, e: Event, t: nat)
    requires Inv(s) && Step(s, e).Some?
    ensures IsClosed(Step(s, e).value, t) <==>
            || IsClosed(s, t)
            || (&& e.thread == t && t in s.threads
                && (|| (e.action.Poll? && s.stopped) || e.action.Disconnect? || e.action.Fault?
                    || LosingStep(s.db, s.threads[t].pc, e.action)))
    ensures IsClosed(s, t) && e.thread == t ==> e.action.Stop?
  {
    hide Find, HasId, KeyOf;
  }

  /**
    Over every run of a connection from before it was accepted: it is closed if and only if it polled after
    the stop flag was set, was disconnected, met a fault, or lost a save. Nothing else ends it.
   */
  lemma {:induction false} ClosedIff(s: State, es: seq<Event>, t: nat, n: nat)
    requires Inv(s) && t !in s.threads && Run(s, es).Some? && n <= |es|
    ensures IsClosed(Before(s, es, n), t) <==> exists j | 0 <= j < n :: EndsAt(s, es, t, j)
  {
    hide Run, Before, LosingStep, IsClosed, Inv, Step, StopSet;
    BeforeFirst(s, es);
    if n == 0 {
      NotClosedYet(s, t);
    } else {
      ClosedIff(s, es, t, n - 1);
      BeforeNext(s, es, n - 1);
      InvBefore(s, es, n - 1);
      ClosingStep(Before(s, es, n - 1), es[n - 1], t);
      StoppedIff(s, es, n - 1);
      assert EndsAt(s, es, t, n - 1) || !EndsAt(s, es, t, n - 1);
    }
  }

  lemma NotClosedYet(s: State, t: nat)
    requires t !in s.threads
    ensures !IsClosed(s, t)
  {
  }

  /** A closed connection does nothing any more, so it has one end. */
  lemma {:induction false} EndIsLast(s: State, es: seq<Event>, t: nat, j: nat, k: nat)
    requires Inv(s) && t !in s.threads && Run(s, es).Some? && EndsAt(s, es, t, j) && j < k < |es| && es[k].thread == t
    ensures es[k].action.Stop?
  {
    hide Run, Before, Step, IsClosed, Inv;
    ClosedIff(s, es, t, k);
    InvBefore(s, es, k);
    BeforeNext(s, es, k);
    ClosingStep(Before(s, es, k), es[k], t);
  }

  // ---------------------------------------------------------------- what it reads

  /** The thread's j-th event reads a message. */
  predicate ReadsAt(es: seq<Event>, t: nat, j: nat) {
    j < |es| && es[j].thread == t && es[j].action.Receive?
  }

  lemma {:induction false} ReadingStep(s: State, e: Event, t: nat)
    requires Step(s, e).Some?
    ensures e.thread == t && e.action.Receive? ==> t in s.threads && s.threads[t].pc.Reading?
    ensures t in Step(s, e).value.threads && Step(s, e).value.threads[t].pc.Reading? ==>
              t in s.threads && if e.thread == t && !e.action.Stop? then s.threads[t].pc.Polling? && !s.stopped
                                else s.threads[t].pc.Reading?
  {
    hide Find, HasId, KeyOf;
  }

  /** With the stop flag set, a thread that is not blocked in its read will not be. */
  lemma {:induction false} ReadingAfterStop(s: State, es: seq<Event>, t: nat, n: nat, m: nat)
    requires Run(s, es).Some? && n <= m <= |es| && StopSet(s, es, n)
    requires t in Before(s, es, m).threads && Before(s, es, m).threads[t].pc.Reading?
    ensures t in Before(s, es, n).threads && Before(s, es, n).threads[t].pc.Reading?
    ensures forall j | n <= j < m :: !ReadsAt(es, t, j)
    decreases m
  {
    hide Run, Before, Step;
    if n < m {
      BeforeNext(s, es, m - 1);
      StoppedIff(s, es, m - 1);
      ReadingStep(Before(s, es, m - 1), es[m - 1], t);
      ReadingAfterStop(s, es, t, n, m - 1);
    }
  }

  /**
    Once the stop flag is set a connection reads at most one more message, and only if it was blocked in its
    read when the flag was set.
   */
  lemma {:induction false} OneMoreMessage(s: State, es: seq<Event>, t: nat, n: nat, j: nat, k: nat)
    requires Run(s, es).Some? && StopSet(s, es, n) && n <= |es|
    requires n <= j && ReadsAt(es, t, j)
    ensures t in Before(s, es, n).threads && Before(s, es, n).threads[t].pc.Reading?
    ensures n <= k && ReadsAt(es, t, k) ==> k == j
  {
    hide Run, Before, Step;
    BeforeNext(s, es, j);
    ReadingStep(Before(s, es, j), es[j], t);
    ReadingAfterStop(s, es, t, n, j);
    if n <= k && ReadsAt(es, t, k) {
      BeforeNext(s, es, k);
      ReadingStep(Before(s, es, k), es[k], t);
      ReadingAfterStop(s, es, t, n, k);
    }
  }

  // ---------------------------------------------------------------- one message after another

  /** The thread's event accepts its connection or finishes a message: only then does it poll again. */
  predicate Finishes(s: State, e: Event) {
    match e.action
    case Accept => true
    case Receive(m) => m == OtherMessage || m == DataMessage(None)
    case InsertPacket =>
      e.thread in s.threads && s.threads[e.thread].pc.InsertingPacket? && s.threads[e.thread].pc.p.Storable()
    case SendReport => true
    case _ => false
  }

  /** A thread that has read a message: at work on it, with the payload it then has in hand taken. */
  function Handling(th: Thread, m: Message): Thread {
    match m
    case DataMessage(Some(p)) => th.(pc := Selecting(p), taken := th.taken + 1)
    case DataMessage(None) => th.(pc := Polling)
    case StatisticsMessage => th.(pc := StartingCollection)
    case OtherMessage => th.(pc := Polling)
  }

  /** A state with another store and one thread replaced. */
  function With(s: State, db: Database, t: nat, th: Thread): State {
    State(db, s.stopped, s.threads[t := th])
  }

  lemma {:induction false} FinishedPolls(s: State, e: Event)
    requires Step(s, e).Some? && !e.action.Stop?
    ensures e.thread in Step(s, e).value.threads
    ensures Step(s, e).value.threads[e.thread].pc.Polling? <==> Finishes(s, e)
  {
    hide Find, HasId, KeyOf;
  }

  lemma PollThenRead(s: State, t: nat, m: Message)
    requires !s.stopped && t in s.threads && s.threads[t].pc.Polling?
    ensures var reading := With(s, s.db, t, s.threads[t].(pc := Reading));
            && Step(s, Event(t, Poll)) == Some(reading)
            && Step(reading, Event(t, Receive(m))) == Some(With(s, s.db, t, Handling(s.threads[t], m)))
  {
    var th := s.threads[t];
    assert s.threads[t := th.(pc := Reading)][t := Handling(th, m)] == s.threads[t := Handling(th, m)];
  }

  /**
    In every run: as long as the stop flag is not set, a connection that has just been accepted or has
    finished any message, and has done nothing since, can poll and then read any message, and is then at
    work on that message. Other threads may have done anything meanwhile.
   */
  lemma {:induction false} ServesNext(s: State, es: seq<Event>, t: nat, j: nat, m: Message)
    requires Run(s, es).Some? && j < |es| && es[j].thread == t && Finishes(Before(s, es, j), es[j])
    requires Idle(es[j + 1..], t) && !StopSet(s, es, |es|)
    ensures var s' := Run(s, es).value;
            && t in s'.threads && s'.threads[t].pc.Polling?
            && var reading := With(s', s'.db, t, s'.threads[t].(pc := Reading));
               && Step(s', Event(t, Poll)) == Some(reading)
               && Step(reading, Event(t, Receive(m))) == Some(With(s', s'.db, t, Handling(s'.threads[t], m)))
  {
    hide Run, Step, Handling, Finishes;
    StoppedIff(s, es, |es|);
    BeforeFirst(s, es);
    BeforeNext(s, es, j);
    FinishedPolls(Before(s, es, j), es[j]);
    RunPrefix(s, es, j + 1, |es|);
    assert es[j + 1..|es|] == es[j + 1..] && es[..|es|] == es;
    IdleStays(Before(s, es, j + 1), es[j + 1..], t);
    PollThenRead(Run(s, es).value, t, m);
  }

  /**
    What may befall a thread is not limited: its peer may send anything or leave, a statement may fail, and
    a row loop may end early, at each step.
   */
  lemma AnythingCanHappen(s: State, t: nat, m: Message, now: int)
    requires t in s.threads
    ensures var th := s.threads[t];
            && (th.pc.Reading? ==> Step(s, Event(t, Receive(m))).Some?)
            && (th.pc.Reading? ==> Step(s, Event(t, Disconnect)) == Some(With(s, s.db, t, th.(pc := Closed))))
            && (Gathering(th.pc) ==> Step(s, Event(t, Fault)) == Some(With(s, s.db, t, th.(pc := Closed))))
            && (Saving(th.pc) ==>
                  Step(s, Event(t, Fault)) == Some(With(s, s.db, t, th.(pc := Closed, lost := th.lost + 1))))
            && (th.pc.Selecting? ==>
                  Step(s, Event(t, Select(true))) == Some(With(s, s.db, t, th.(pc := InsertingClient(th.pc.p)))))
            && (th.pc.Reselecting? ==>
                  Step(s, Event(t, Reselect(true))) == Some(With(s, s.db, t, th.(pc := Closed, lost := th.lost + 1))))
            && (th.pc.ScanningClients? ==> Step(s, Event(t, EndClients(now, true))).Some?)
            && (th.pc.ScanningPackets? ==> Step(s, Event(t, EndPackets(true))).Some?)
  {
    hide Find, HasId, KeyOf;
  }

  // ---------------------------------------------------------------- finishing alone

  /** A thread's own doing, without faults and without its peer leaving. */
  predicate OwnDoing(es: seq<Event>, t: nat) {
    forall e | e in es :: e.thread == t && Faultless(e.action) && !e.action.Stop? && !e.action.Disconnect?
  }

  /** The messages read in a run. */
  function Messages(es: seq<Event>): seq<Message> {
    if es == [] then [] else (if es[0].action.Receive? then [es[0].action.m] else []) + Messages(es[1..])
  }

  /** A thread gets from one state to another by its own doing, and reads some messages on the way. */
  predicate Does(s: State, es: seq<Event>, t: nat, ms: seq<Message>, s': State) {
    Run(s, es) == Some(s') && OwnDoing(es, t) && Messages(es) == ms
  }

  lemma {:induction false} MessagesConcat(a: seq<Event>, b: seq<Event>)
    ensures Messages(a + b) == Messages(a) + Messages(b)
  {
    if a == [] {
      assert a + b == b;
    } else {
      assert (a + b)[0] == a[0] && (a + b)[1..] == a[1..] + b;
      MessagesConcat(a[1..], b);
    }
  }

  lemma {:induction false} DoesThen(s: State, a: seq<Event>, t: nat, ms: seq<Message>, s1: State,
                                    b: seq<Event>, ns: seq<Message>, s2: State)
    requires Does(s, a, t, ms, s1) && Does(s1, b, t, ns, s2)
    ensures Does(s, a + b, t, ms + ns, s2)
  {
    hide Run, Messages;
    RunConcat(s, a, b);
    MessagesConcat(a, b);
  }

  lemma DoesNothing(s: State, t: nat)
    requires t in s.threads
    ensures With(s, s.db, t, s.threads[t]) == s && Does(s, [], t, [], s)
  {
  }

  lemma DoesOne(s: State, t: nat, a: Action, db: Database, th: Thread)
    requires t in s.threads && Act(s.db, s.stopped, s.threads[t], a) == Some((db, th))
    requires Faultless(a) && !a.Stop? && !a.Disconnect? && !a.Accept?
    ensures Does(s, [Event(t, a)], t, if a.Receive? then [a.m] else [], With(s, db, t, th))
  {
    hide Act;
    var e := Event(t, a);
    assert Step(s, e) == Some(With(s, db, t, th));
    assert [e][1..] == [] && Messages([]) == [];
    assert Run(s, [e]) == Run(With(s, db, t, th), []);
    var read := if a.Receive? then [a.m] else [];
    assert Messages([e]) == read + [] == read;
  }

  /** One more action of a thread that has been doing things on its own. */
  lemma {:induction false} DoesNext(s: State, es: seq<Event>, t: nat, ms: seq<Message>, db: Database, th: Thread,
                                    a: Action, db': Database, th': Thread)
    requires t in s.threads && Does(s, es, t, ms, With(s, db, t, th))
    requires Act(db, s.stopped, th, a) == Some((db', th'))
    requires Faultless(a) && !a.Stop? && !a.Disconnect? && !a.Accept? && !a.Receive?
    ensures Does(s, es + [Event(t, a)], t, ms, With(s, db', t, th'))
  {
    hide Act, Does;
    DoesOne(With(s, db, t, th), t, a, db', th');
    assert With(With(s, db, t, th), db', t, th') == With(s, db', t, th');
    DoesThen(s, es, t, ms, With(s, db, t, th), [Event(t, a)], [], With(s, db', t, th'));
    assert ms + [] == ms;
  }

  // A save.

  lemma {:induction false} FreeId(clients: seq<Client>) returns (id: int)
    ensures !HasId(clients, id) && forall c | c in clients :: c.id < id
  {
    if clients == [] {
      id := 1;
    } else {
      var n := |clients| - 1;
      id := FreeId(clients[..n]);
      if clients[n].id >= id { id := clients[n].id + 1; }
      assert clients == clients[..n] + [clients[n]];
    }
  }

  lemma SaveActs(db: Database, stopped: bool, th: Thread, p: Payload, id: int)
    ensures var found := Find(db.clients, p.Key());
            && Act(db, stopped, th.(pc := Selecting(p)), Select(false))
               == Some((db, th.(pc := if found.Some? then InsertingPacket(p, found.value) else InsertingClient(p))))
            && (found.None? && !HasId(db.clients, id) ==>
                  Act(db, stopped, th.(pc := InsertingClient(p)), InsertClient(id))
                  == Some((db.(clients := db.clients + [Client(id, p.Key())]), th.(pc := Reselecting(p)))))
            && (found.Some? ==>
                  Act(db, stopped, th.(pc := Reselecting(p)), Reselect(false))
                  == Some((db, th.(pc := InsertingPacket(p, found.value)))))
    ensures Act(db, stopped, th.(pc := InsertingPacket(p, id)), InsertPacket)
            == Some(if p.Storable() then
                      (db.(packets := db.packets + [Row(id, p.Sample())]), th.(pc := Polling, stored := th.stored + 1))
                    else (db, Lose(th)))
  {
    hide Find, HasId, KeyOf;
  }

  /** The store after a save: the client's row is there, and one row more for a payload that can be stored. */
  predicate Saved(db: Database, p: Payload, db': Database) {
    && Grows(db, db')
    && Find(db'.clients, p.Key()).Some?
    && |db'.clients| == |db.clients| + (if Find(db.clients, p.Key()).Some? then 0 else 1)
    && db'.packets == db.packets +
                      if p.Storable() then [Row(Find(db'.clients, p.Key()).value, p.Sample())] else []
  }

  /** The thread has its client row: one more step ends the save. */
  lemma {:induction false} StoresAlone(s: State, before: seq<Event>, t: nat, th: Thread, p: Payload, db: Database)
    returns (es: seq<Event>, s': State)
    requires t in s.threads && Find(db.clients, p.Key()).Some?
    requires Does(s, before, t, [], With(s, db, t, th.(pc := InsertingPacket(p, Find(db.clients, p.Key()).value))))
    ensures Does(s, es, t, [], s') && Saved(db, p, s'.db) && s'.db.clients == db.clients
    ensures s' == With(s, s'.db, t, if p.Storable() then th.(pc := Polling, stored := th.stored + 1) else Lose(th))
  {
    hide Does, Act, Find, HasId;
    var id := Find(db.clients, p.Key()).value;
    SaveActs(db, s.stopped, th, p, id);
    var next := Act(db, s.stopped, th.(pc := InsertingPacket(p, id)), InsertPacket).value;
    DoesNext(s, before, t, [], db, th.(pc := InsertingPacket(p, id)), InsertPacket, next.0, next.1);
    es, s' := before + [Event(t, InsertPacket)], With(s, next.0, t, next.1);
  }

  /** A thread about to save, and left alone, registers the client if need be and stores the sample. */
  lemma {:induction false} SavesAlone(s: State, t: nat, p: Payload) returns (es: seq<Event>, s': State)
    requires t in s.threads && s.threads[t].pc == Selecting(p)
    ensures Does(s, es, t, [], s') && Saved(s.db, p, s'.db)
    ensures var th := s.threads[t];
            s' == With(s, s'.db, t, if p.Storable() then th.(pc := Polling, stored := th.stored + 1) else Lose(th))
  {
    hide Does, Act, HasId;
    var db, th := s.db, s.threads[t];
    var id := FreeId(db.clients);
    DoesNothing(s, t);
    SaveActs(db, s.stopped, th, p, id);
    var found := Find(db.clients, p.Key());
    var select := Event(t, Select(false));
    var chosen := th.(pc := if found.Some? then InsertingPacket(p, found.value) else InsertingClient(p));
    DoesNext(s, [], t, [], db, th, Select(false), db, chosen);
    if found.Some? {
      es, s' := StoresAlone(s, [] + [select], t, th, p, db);
    } else {
      var db' := db.(clients := db.clients + [Client(id, p.Key())]);
      FindAppend(db.clients, Client(id, p.Key()), p.Key());
      DoesNext(s, [] + [select], t, [], db, chosen, InsertClient(id), db', th.(pc := Reselecting(p)));
      es := [] + [select] + [Event(t, InsertClient(id))];
      SaveActs(db', s.stopped, th, p, id);
      DoesNext(s, es, t, [], db', th.(pc := Reselecting(p)), Reselect(false), db', th.(pc := InsertingPacket(p, id)));
      es, s' := StoresAlone(s, es + [Event(t, Reselect(false))], t, th, p, db');
    }
  }

  // A collection.

  function Unlisted(n: nat, got: set<nat>): set<nat> {
    set i: nat | i < n && i !in got
  }

  function Unfetched(db: Database, client: nat, seen: nat, got: set<nat>): set<nat> {
    set i: nat | i < seen && Matches(db, client, i) && i !in got
  }

  // What a collection has still to do: the stages ahead, then the clients, then the rows of the one at hand.

  function Stages(pc: Pc): nat {
    match pc
    case StartingCollection => 2
    case ScanningClients(_, _) => 1
    case _ => 0
  }

  function Clients(pc: Pc): nat {
    match pc
    case ScanningClients(from, got) => |Unlisted(|from.clients|, got)|
    case Collecting(_, _, todo, _, _) => |todo|
    case ScanningPackets(_, _, todo, _, _, _, _, _) => |todo|
    case _ => 0
  }

  function Rows(db: Database, pc: Pc): nat {
    match pc
    case ScanningPackets(_, _, _, _, _, client, seen, got) => 1 + |Unfetched(db, client, seen, got)|
    case _ => 0
  }

  predicate Less(db: Database, a: Pc, b: Pc) {
    || Stages(a) < Stages(b)
    || (Stages(a) == Stages(b) && Clients(a) < Clients(b))
    || (Stages(a) == Stages(b) && Clients(a) == Clients(b) && Rows(db, a) < Rows(db, b))
  }

  /** A step that a collecting thread can take, and that brings it nearer to its report. */
  lemma {:induction false} NextOfCollection(db: Database, stopped: bool, th: Thread) returns (a: Action, pc: Pc)
    requires Gathering(th.pc) && PcOk(db, th.pc)
    ensures Faultless(a) && !a.Stop? && !a.Disconnect? && !a.Accept? && !a.Receive?
    ensures Act(db, stopped, th, a) == Some((db, th.(pc := pc)))
    ensures pc.Polling? || (Gathering(pc) && Less(db, pc, th.pc))
  {
    match th.pc
    case StartingCollection =>
      a, pc := StartScan, ScanningClients(db, {});
    case ScanningClients(from, got) =>
      a, pc := NextListed(db, stopped, th, from, got);
    case Collecting(from, now, todo, done, cut) =>
      if todo == {} {
        a, pc := SendReport, Polling;
      } else {
        var c :| c in todo;
        a, pc := StartPackets(c), ScanningPackets(from, now, todo - {c}, done, cut, c, |db.packets|, {});
      }
    case ScanningPackets(from, now, todo, done, cut, client, seen, got) =>
      a, pc := NextFetched(db, stopped, th, from, now, todo, done, cut, client, seen, got);
  }

  lemma {:induction false} NextListed(db: Database, stopped: bool, th: Thread, from: Database, got: set<nat>)
    returns (a: Action, pc: Pc)
    requires th.pc == ScanningClients(from, got) && Grows(from, db)
    ensures Faultless(a) && (a.ScanClient? || a.EndClients?)
    ensures Act(db, stopped, th, a) == Some((db, th.(pc := pc)))
    ensures Gathering(pc) && Less(db, pc, th.pc)
  {
    var rest := Unlisted(|from.clients|, got);
    if i :| i in rest {
      a, pc := ScanClient(i), ScanningClients(from, got + {i});
      assert Unlisted(|from.clients|, got + {i}) == rest - {i};
    } else {
      a, pc := EndClients(0, false), Collecting(from, 0, got, map[], false);
      forall i: nat | i < |from.clients| ensures i in got { assert i !in rest; }
    }
  }

  lemma {:induction false} NextFetched(db: Database, stopped: bool, th: Thread,
                                       from: Database, now: int, todo: set<nat>, done: map<nat, set<nat>>,
                                       cut: bool, client: nat, seen: nat, got: set<nat>)
    returns (a: Action, pc: Pc)
    requires th.pc == ScanningPackets(from, now, todo, done, cut, client, seen, got)
    ensures Faultless(a) && (a.ScanPacket? || a.EndPackets?)
    ensures Act(db, stopped, th, a) == Some((db, th.(pc := pc)))
    ensures Gathering(pc) && Less(db, pc, th.pc)
  {
    var rest := Unfetched(db, client, seen, got);
    if i :| i in rest {
      a, pc := ScanPacket(i), ScanningPackets(from, now, todo, done, cut, client, seen, got + {i});
      assert Unfetched(db, client, seen, got + {i}) == rest - {i};
    } else {
      a, pc := EndPackets(false), Collecting(from, now, todo, done[client := got], cut);
      forall i: nat | i < seen && Matches(db, client, i) ensures i in got { assert i !in rest; }
    }
  }

  /** A thread that is collecting, and left alone, comes to its report, and the store is as it was. */
  lemma {:induction false} CollectsAlone(s: State, t: nat) returns (es: seq<Event>, s': State)
    requires t in s.threads && Gathering(s.threads[t].pc)
    requires Consistent(s.db) && PcOk(s.db, s.threads[t].pc)
    ensures Does(s, es, t, [], s')
    ensures s' == With(s, s.db, t, s.threads[t].(pc := Polling))
    decreases Stages(s.threads[t].pc), Clients(s.threads[t].pc), Rows(s.db, s.threads[t].pc)
  {
    hide Does, Act, PcOk, Consistent, Stages, Clients, Rows;
    var none: seq<Message> := [];
    assert none + none == none;
    var th := s.threads[t];
    var a, pc := NextOfCollection(s.db, s.stopped, th);
    DoesOne(s, t, a, s.db, th.(pc := pc));
    es, s' := [Event(t, a)], With(s, s.db, t, th.(pc := pc));
    if !pc.Polling? {
      ActKeepsPc(s.db, s.stopped, th, a);
      var rest, s2 := CollectsAlone(s', t);
      DoesThen(s, es, t, [], s', rest, [], s2);
      es, s' := es + rest, s2;
    }
  }

  // A conversation.

  predicate CanStore(m: Message) {
    m.DataMessage? && m.payload.Some? ==> m.payload.value.Storable()
  }

  /** What the store holds for a key once a message has been served. */
  ghost predicate Served(db: Database, m: Message, db': Database, key: Key)
    requires CanStore(m)
  {
    Content(db', key) == Content(db, key) +
    if m.DataMessage? && m.payload.Some? && m.payload.value.Key() == key then multiset{m.payload.value.Sample()}
    else multiset{}
  }

  lemma SavedIsServed(db: Database, p: Payload, db': Database, key: Key)
    requires Consistent(db) && Consistent(db') && p.Storable() && Saved(db, p, db')
    ensures Served(db, DataMessage(Some(p)), db', key)
  {
    var mid := Database(db'.clients, db.packets);
    if Find(db.clients, p.Key()).None? {
      assert db'.clients == db.clients + [db'.clients[|db.clients|]];
      var c := db'.clients[|db.clients|];
      FindAppend(db.clients, c, p.Key());
      assert !HasId(db.clients, c.id);
      NewClientHoldsNothing(db, c, key);
      NewClientHoldsNothing(db, c, p.Key());
    } else {
      assert db'.clients == db.clients;
    }
    NewPacketAdds(mid, p.Key(), p.Sample(), key);
  }

  lemma {:induction false} ReadsAlone(s: State, t: nat, m: Message) returns (es: seq<Event>, s': State)
    requires !s.stopped && t in s.threads && s.threads[t].pc.Polling?
    ensures Does(s, es, t, [m], s') && s' == With(s, s.db, t, Handling(s.threads[t], m))
  {
    hide Step, Handling;
    PollThenRead(s, t, m);
    var reading := With(s, s.db, t, s.threads[t].(pc := Reading));
    es, s' := [Event(t, Poll), Event(t, Receive(m))], With(s, s.db, t, Handling(s.threads[t], m));
    assert es[1..] == [Event(t, Receive(m))] && es[1..][1..] == [];
    assert Run(reading, es[1..]) == Some(s');
    assert Messages(es[1..]) == [m];
  }

  lemma {:induction false} DoesKeepsInv(s: State, es: seq<Event>, t: nat, ms: seq<Message>, s': State)
    requires Inv(s) && Does(s, es, t, ms, s')
    ensures Inv(s')
  {
    hide Inv, Run;
    RunKeepsInv(s, es);
  }

  lemma InvParts(s: State, t: nat)
    requires Inv(s) && t in s.threads
    ensures Consistent(s.db) && PcOk(s.db, s.threads[t].pc)
  {
  }

  /** Alone and not stopped, a connection reads and serves whatever message comes, and is ready for the next. */
  lemma {:induction false} ServesAlone(s: State, t: nat, m: Message) returns (es: seq<Event>, s': State)
    requires Inv(s) && !s.stopped && t in s.threads && s.threads[t].pc.Polling? && CanStore(m)
    ensures Does(s, es, t, [m], s')
    ensures Inv(s') && !s'.stopped && t in s'.threads && s'.threads[t].pc.Polling?
    ensures forall key: Key :: Served(s.db, m, s'.db, key)
  {
    hide Does, Inv, Served, Saved, Consistent, PcOk, Content;
    var first, s1 := ReadsAlone(s, t, m);
    DoesKeepsInv(s, first, t, [m], s1);
    InvParts(s1, t);
    var rest, s2 := [], s1;
    DoesNothing(s1, t);
    match m {
      case StatisticsMessage => rest, s2 := CollectsAlone(s1, t);
      case DataMessage(Some(p)) => rest, s2 := SavesAlone(s1, t, p);
      case _ =>
    }
    DoesThen(s, first, t, [m], s1, rest, [], s2);
    assert [m] + [] == [m];
    es, s' := first + rest, s2;
    DoesKeepsInv(s1, rest, t, [], s2);
    InvParts(s', t);
    forall key: Key ensures Served(s.db, m, s'.db, key) {
      if m.DataMessage? && m.payload.Some? { SavedIsServed(s.db, m.payload.value, s'.db, key); }
      else { NothingIsServed(s.db, m, key); }
    }
  }

  lemma NothingIsServed(db: Database, m: Message, key: Key)
    requires !(m.DataMessage? && m.payload.Some?)
    ensures Served(db, m, db, key)
  {
  }

  /** The samples that a list of messages brings for a key. */
  function SamplesFor(ms: seq<Message>, key: Key): multiset<Sample>
    requires forall m | m in ms :: CanStore(m)
  {
    if ms == [] then multiset{}
    else
      assert CanStore(ms[0]);
      (if ms[0].DataMessage? && ms[0].payload.Some? && ms[0].payload.value.Key() == key then
         multiset{ms[0].payload.value.Sample()}
       else multiset{}) + SamplesFor(ms[1..], key)
  }

  /**
    A conversation of any length: without faults, NaNs and rivals a connection reads any messages that come,
    in their order, stores the sample of each under its own key, and is then ready to poll again.
   */
  lemma {:induction false} Conversation(s: State, t: nat, ms: seq<Message>) returns (es: seq<Event>, s': State)
    requires Inv(s) && !s.stopped && t in s.threads && s.threads[t].pc.Polling?
    requires forall m | m in ms :: CanStore(m)
    ensures Does(s, es, t, ms, s')
    ensures Inv(s') && !s'.stopped && t in s'.threads && s'.threads[t].pc.Polling?
    ensures forall key: Key :: Content(s'.db, key) == Content(s.db, key) + SamplesFor(ms, key)
    decreases |ms|
  {
    hide Does, Inv, Content;
    if ms == [] {
      DoesNothing(s, t);
      es, s' := [], s;
    } else {
      var first, s1 := ServesAlone(s, t, ms[0]);
      var rest, s2 := Conversation(s1, t, ms[1..]);
      DoesThen(s, first, t, [ms[0]], s1, rest, ms[1..], s2);
      assert [ms[0]] + ms[1..] == ms;
      es, s' := first + rest, s2;
      forall key: Key ensures Content(s'.db, key) == Content(s.db, key) + SamplesFor(ms, key) {
        assert Served(s.db, ms[0], s1.db, key);
      }
    }
  }
}
