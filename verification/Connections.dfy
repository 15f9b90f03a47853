/**
  The server as its connection threads run it: one thread per connection, all on one SQLite handle
  that executes one statement, or one row fetch, at a time. Between two such steps of a thread any
  other thread may run, so a run is any sequence of steps of any threads.

  A thread saves a packet by select, insert, select, insert without a transaction, and collects
  statistics by a client query followed by one packet query per client, each fetched row by row.
 */
module Connections {
  import opened Wrappers
  import opened Wire
  import opened Tables

  /** The data of a packet as it is bound to a statement; SQLite takes a NaN for NULL. */
  datatype Payload = Payload(uuid: bytes, timestamp: int64, x: Option<real>, y: Option<real>) {
    function Key(): Key {
      KeyOf(uuid)
    }

    predicate Storable() {
      x.Some? && y.Some?
    }

    function Sample(): Sample
      requires Storable()
    {
      Tables.Sample(timestamp, x.value, y.value)
    }
  }

  datatype Message = DataMessage(payload: Option<Payload>) | StatisticsMessage | OtherMessage

  /** Where a thread stands. `from` is the store as it was when the client query began. */
  datatype Pc =
    | Polling
    | Reading
    | Selecting(p: Payload)
    | InsertingClient(p: Payload)
    | Reselecting(p: Payload)
    | InsertingPacket(p: Payload, id: int)
    | StartingCollection
    | ScanningClients(from: Database, got: set<nat>)
    | Collecting(from: Database, now: int, todo: set<nat>, done: map<nat, set<nat>>, cut: bool)
    | ScanningPackets(from: Database, now: int, todo: set<nat>, done: map<nat, set<nat>>, cut: bool,
                      client: nat, seen: nat, got: set<nat>)
    | Closed

  /**
    A thread and the account of its connection: payloads taken from the socket, rows stored for them,
    and payloads lost with the connection.
   */
  datatype Thread = Thread(pc: Pc, taken: nat, stored: nat, lost: nat)

  datatype State = State(db: Database, stopped: bool, threads: map<nat, Thread>)

  /**
    What a thread does next. `silent` and `cut` are storage faults that a SELECT does not report: the
    row loop just ends early. `Fault` is a storage fault that throws.
   */
  datatype Action =
    | Accept
    | Stop
    | Poll
    | Receive(m: Message)
    | Disconnect
    | Select(silent: bool)
    | InsertClient(id: int)
    | Reselect(silent: bool)
    | InsertPacket
    | StartScan
    | ScanClient(i: nat)
    | EndClients(now: int, cut: bool)
    | StartPackets(client: nat)
    | ScanPacket(i: nat)
    | EndPackets(cut: bool)
    | SendReport
    | Fault

  datatype Event = Event(thread: nat, action: Action)

  predicate Saving(pc: Pc) {
    pc.Selecting? || pc.InsertingClient? || pc.Reselecting? || pc.InsertingPacket?
  }

  predicate Gathering(pc: Pc) {
    pc.StartingCollection? || pc.ScanningClients? || pc.Collecting? || pc.ScanningPackets?
  }

  predicate Faultless(a: Action) {
    !a.Fault? && (a.Select? || a.Reselect? ==> !a.silent) && (a.EndClients? || a.EndPackets? ==> !a.cut)
  }

  const FRESH := Thread(Polling, 0, 0, 0)

  /** The exception that ends a connection in the middle of a save. */
  function Lose(th: Thread): Thread {
    th.(pc := Closed, lost := th.lost + 1)
  }

  /** One step of one thread on the store, or None when the thread is not at that step. */
  function Act(db: Database, stopped: bool, th: Thread, a: Action): Option<(Database, Thread)> {
    if a.Fault? then
      if Saving(th.pc) then Some((db, Lose(th)))
      else if Gathering(th.pc) then Some((db, th.(pc := Closed)))
      else None
    else match th.pc
      case Polling =>
        if a.Poll? then Some((db, th.(pc := if stopped then Closed else Reading))) else None
      case Reading =>
        if a.Disconnect? then Some((db, th.(pc := Closed)))
        else if !a.Receive? then None
        else
          (match a.m
           case DataMessage(Some(p)) => Some((db, th.(pc := Selecting(p), taken := th.taken + 1)))
           case DataMessage(None) => Some((db, th.(pc := Polling)))
           case StatisticsMessage => Some((db, th.(pc := StartingCollection)))
           case OtherMessage => Some((db, th.(pc := Polling))))
      case Selecting(p) =>
        if !a.Select? then None
        else
          var found := if a.silent then None else Find(db.clients, p.Key());
          Some((db, th.(pc := if found.Some? then InsertingPacket(p, found.value) else InsertingClient(p))))
      case InsertingClient(p) =>
        if !a.InsertClient? || HasId(db.clients, a.id) then None
        else if Find(db.clients, p.Key()).Some? then Some((db, Lose(th)))
        else Some((db.(clients := db.clients + [Client(a.id, p.Key())]), th.(pc := Reselecting(p))))
      case Reselecting(p) =>
        if !a.Reselect? then None
        else
          var found := if a.silent then None else Find(db.clients, p.Key());
          Some((db, if found.Some? then th.(pc := InsertingPacket(p, found.value)) else Lose(th)))
      case InsertingPacket(p, id) =>
        if !a.InsertPacket? then None
        else if p.Storable() then
          Some((db.(packets := db.packets + [Row(id, p.Sample())]), th.(pc := Polling, stored := th.stored + 1)))
        else Some((db, Lose(th)))
      case StartingCollection =>
        if a.StartScan? then Some((db, th.(pc := ScanningClients(db, {})))) else None
      case ScanningClients(from, got) =>
        if a.ScanClient? && a.i < |db.clients| && a.i !in got then
          Some((db, th.(pc := ScanningClients(from, got + {a.i}))))
        else if a.EndClients? && (a.cut || forall i: nat | i < |from.clients| :: i in got) then
          Some((db, th.(pc := Collecting(from, a.now, got, map[], a.cut))))
        else None
      case Collecting(from, now, todo, done, cut) =>
        if a.StartPackets? && a.client in todo then
          var client := a.client;
          Some((db, th.(pc := ScanningPackets(from, now, todo - {client}, done, cut, client, |db.packets|, {}))))
        else if a.SendReport? && todo == {} then Some((db, th.(pc := Polling)))
        else if a.Disconnect? && todo == {} then Some((db, th.(pc := Closed)))
        else None
      case ScanningPackets(from, now, todo, done, cut, client, seen, got) =>
        if a.ScanPacket? && Matches(db, client, a.i) && a.i !in got then
          Some((db, th.(pc := ScanningPackets(from, now, todo, done, cut, client, seen, got + {a.i}))))
        else if a.EndPackets? && (a.cut || forall i: nat | i < seen && Matches(db, client, i) :: i in got) then
          Some((db, th.(pc := Collecting(from, now, todo, done[client := got], cut || a.cut))))
        else None
      case Closed => None
  }

  /** Whether the packet row at `i` is one the packet query for a client returns. */
  predicate Matches(db: Database, client: nat, i: nat) {
    i < |db.packets| && client < |db.clients| && db.packets[i].clientId == db.clients[client].id
  }

  function Step(s: State, e: Event): Option<State> {
    if e.action.Stop? then Some(s.(stopped := true))
    else if e.action.Accept? then
      if e.thread in s.threads then None else Some(s.(threads := s.threads[e.thread := FRESH]))
    else if e.thread !in s.threads then None
    else
      var next :- Act(s.db, s.stopped, s.threads[e.thread], e.action);
      Some(State(next.0, s.stopped, s.threads[e.thread := next.1]))
  }

  function Run(s: State, es: seq<Event>): Option<State>
    decreases |es|
  {
    if es == [] then Some(s)
    else
      var s' :- Step(s, es[0]);
      Run(s', es[1..])
  }

  // ---------------------------------------------------------------- the invariant

  /** The rows fetched for a client are rows of that client, and unless a scan was cut all that were there. */
  predicate FetchOk(db: Database, from: Database, client: nat, rows: set<nat>, cut: bool) {
    && client < |db.clients|
    && (forall i | i in rows :: Matches(db, client, i))
    && (!cut ==> forall i: nat | i < |from.packets| && Matches(db, client, i) :: i in rows)
  }

  predicate CollectOk(db: Database, from: Database, todo: set<nat>, done: map<nat, set<nat>>, cut: bool) {
    && Grows(from, db)
    && (forall c | c in todo :: c < |db.clients|)
    && (forall c | c in done :: FetchOk(db, from, c, done[c], cut))
    && (!cut ==> forall c: nat | c < |from.clients| :: c in todo || c in done)
  }

  predicate PcOk(db: Database, pc: Pc) {
    match pc
    case Reselecting(p) => Find(db.clients, p.Key()).Some?
    case InsertingPacket(p, id) => Find(db.clients, p.Key()) == Some(id)
    case ScanningClients(from, got) => Grows(from, db) && forall i | i in got :: i < |db.clients|
    case Collecting(from, _, todo, done, cut) => CollectOk(db, from, todo, done, cut)
    case ScanningPackets(from, _, todo, done, cut, client, seen, got) =>
      && CollectOk(db, from, todo + {client}, done, cut)
      && |from.packets| <= seen <= |db.packets|
      && FetchOk(db, from, client, got, true)
    case _ => true
  }

  /** Every payload taken is stored, lost with its connection, or the one being saved. */
  predicate AccountOk(th: Thread) {
    && th.taken == th.stored + th.lost + (if Saving(th.pc) then 1 else 0)
    && th.lost <= 1 && (th.lost == 1 ==> th.pc.Closed?)
  }

  predicate Inv(s: State) {
    && Consistent(s.db)
    && forall t | t in s.threads :: PcOk(s.db, s.threads[t].pc) && AccountOk(s.threads[t])
  }

  // ---------------------------------------------------------------- every step keeps it

  lemma ActKeepsStore(db: Database, stopped: bool, th: Thread, a: Action)
    requires Consistent(db) && PcOk(db, th.pc)
    requires Act(db, stopped, th, a).Some?
    ensures Consistent(Act(db, stopped, th, a).value.0)
    ensures Grows(db, Act(db, stopped, th, a).value.0)
  {
    match (th.pc, a)
    case (InsertingClient(p), InsertClient(id)) =>
      if Find(db.clients, p.Key()).None? { NewClientHoldsNothing(db, Client(id, p.Key()), []); }
    case (InsertingPacket(p, id), InsertPacket) =>
      if p.Storable() { NewPacketAdds(db, p.Key(), p.Sample(), []); }
    case _ =>
  }

  lemma ActKeepsAccount(db: Database, stopped: bool, th: Thread, a: Action)
    requires AccountOk(th)
    requires Act(db, stopped, th, a).Some?
    ensures AccountOk(Act(db, stopped, th, a).value.1)
  {
  }

  lemma ActKeepsPc(db: Database, stopped: bool, th: Thread, a: Action)
    requires Consistent(db) && PcOk(db, th.pc)
    requires Act(db, stopped, th, a).Some?
    ensures PcOk(Act(db, stopped, th, a).value.0, Act(db, stopped, th, a).value.1.pc)
  {
    hide Find, HasId, KeyOf, Consistent, Referential, Unique, AccountOk;
    match (th.pc, a)
    case (InsertingClient(p), InsertClient(id)) =>
      FindAppend(db.clients, Client(id, p.Key()), p.Key());
    case (ScanningPackets(from, now, todo, done, cut, client, seen, got), EndPackets(c)) =>
      assert FetchOk(db, from, client, got, cut || c);
    case _ =>
  }

  /** No step of one thread disturbs what another thread relies on. */
  lemma GrowthKeepsPc(db: Database, db': Database, pc: Pc)
    requires Grows(db, db') && PcOk(db, pc)
    ensures PcOk(db', pc)
  {
    match pc
    case Reselecting(p) => FindGrows(db.clients, db'.clients, p.Key());
    case InsertingPacket(p, _) => FindGrows(db.clients, db'.clients, p.Key());
    case Collecting(from, _, todo, done, cut) => GrowthKeepsCollection(db, db', from, todo, done, cut);
    case ScanningPackets(from, _, todo, done, cut, client, seen, got) =>
      GrowthKeepsCollection(db, db', from, todo + {client}, done, cut);
      GrowthKeepsFetch(db, db', from, client, got, true);
    case _ =>
  }

  lemma GrowthKeepsFetch(db: Database, db': Database, from: Database, client: nat, rows: set<nat>, cut: bool)
    requires Grows(db, db') && Grows(from, db) && FetchOk(db, from, client, rows, cut)
    ensures FetchOk(db', from, client, rows, cut)
  {
    forall i: nat | i < |db.packets| ensures Matches(db', client, i) <==> Matches(db, client, i) {
    }
  }

  lemma GrowthKeepsCollection(
    db: Database, db': Database, from: Database, todo: set<nat>, done: map<nat, set<nat>>, cut: bool)
    requires Grows(db, db') && CollectOk(db, from, todo, done, cut)
    ensures CollectOk(db', from, todo, done, cut)
  {
    forall c | c in done ensures FetchOk(db', from, c, done[c], cut) {
      GrowthKeepsFetch(db, db', from, c, done[c], cut);
    }
  }

  lemma {:induction false} StepKeepsInv(s: State, e: Event)
    requires Inv(s) && Step(s, e).Some?
    ensures Inv(Step(s, e).value) && Grows(s.db, Step(s, e).value.db)
  {
    if !e.action.Stop? && !e.action.Accept? {
      var th := s.threads[e.thread];
      var next := Act(s.db, s.stopped, th, e.action).value;
      ActKeepsStore(s.db, s.stopped, th, e.action);
      ActKeepsAccount(s.db, s.stopped, th, e.action);
      ActKeepsPc(s.db, s.stopped, th, e.action);
      forall t | t in s.threads ensures PcOk(next.0, s.threads[t].pc) {
        GrowthKeepsPc(s.db, next.0, s.threads[t].pc);
      }
    }
  }

  /**
    Over every run of any number of threads: the tables stay consistent, rows are only added and ids
    keep their keys, each thread's held id is its own client's, and every connection's account balances.
   */
  lemma {:induction false} RunKeepsInv(s: State, es: seq<Event>)
    requires Inv(s) && Run(s, es).Some?
    ensures Inv(Run(s, es).value) && Grows(s.db, Run(s, es).value.db)
    decreases |es|
  {
    if es != [] {
      StepKeepsInv(s, es[0]);
      RunKeepsInv(Step(s, es[0]).value, es[1..]);
    }
  }

  lemma {:induction false} RunConcat(s: State, a: seq<Event>, b: seq<Event>)
    ensures Run(s, a + b) == if Run(s, a).None? then None else Run(Run(s, a).value, b)
    decreases |a|
  {
    if a == [] {
      assert a + b == b;
    } else {
      assert (a + b)[0] == a[0] && (a + b)[1..] == a[1..] + b;
      if Step(s, a[0]).Some? { RunConcat(Step(s, a[0]).value, a[1..], b); }
    }
  }

  // ---------------------------------------------------------------- the states of a run

  lemma {:induction false} RunPrefix(s: State, es: seq<Event>, i: nat, j: nat)
    requires Run(s, es).Some? && i <= j <= |es|
    ensures Run(s, es[..i]).Some? && Run(s, es[..j]).Some?
    ensures Run(Run(s, es[..i]).value, es[i..j]) == Run(s, es[..j])
  {
    assert es == es[..j] + es[j..];
    RunConcat(s, es[..j], es[j..]);
    assert es[..j] == es[..i] + es[i..j];
    RunConcat(s, es[..i], es[i..j]);
  }

  /** The state in which the j-th event of a run takes place. */
  function Before(s: State, es: seq<Event>, j: nat): State
    requires Run(s, es).Some? && j <= |es|
  {
    RunPrefix(s, es, j, j);
    Run(s, es[..j]).value
  }

  lemma {:induction false} BeforeFirst(s: State, es: seq<Event>)
    requires Run(s, es).Some?
    ensures Before(s, es, 0) == s && Before(s, es, |es|) == Run(s, es).value
  {
    assert es[..0] == [] && es[..|es|] == es;
  }

  lemma {:induction false} BeforeNext(s: State, es: seq<Event>, j: nat)
    requires Run(s, es).Some? && j < |es|
    ensures Step(Before(s, es, j), es[j]) == Some(Before(s, es, j + 1))
  {
    RunPrefix(s, es, j, j + 1);
    assert es[j..j + 1] == [es[j]] && [es[j]][1..] == [];
  }

  lemma {:induction false} InvBefore(s: State, es: seq<Event>, j: nat)
    requires Inv(s) && Run(s, es).Some? && j <= |es|
    ensures Inv(Before(s, es, j))
  {
    RunPrefix(s, es, j, j);
    RunKeepsInv(s, es[..j]);
  }

  // ---------------------------------------------------------------- stopping

  /** How many messages a thread reads in a run. */
  function Received(es: seq<Event>, t: nat): nat {
    if es == [] then 0
    else (if es[0].thread == t && es[0].action.Receive? then 1 else 0) + Received(es[1..], t)
  }

  /**
    Once the stop flag is set, a connection handles at most one more message, and only if it was
    already blocked in its read; a connection accepted later handles none.
   */
  lemma {:induction false} AtMostOneMoreMessage(s: State, es: seq<Event>, t: nat)
    requires s.stopped && Run(s, es).Some?
    ensures Received(es, t) <= if t in s.threads && s.threads[t].pc.Reading? then 1 else 0
    decreases |es|
  {
    if es != [] {
      AtMostOneMoreMessage(Step(s, es[0]).value, es[1..], t);
    }
  }
}
