/**
  What the interleaved saves amount to: a map from uuid keys to bags of samples, on which each save is
  one atomic append, taking effect at the thread's last INSERT. Every other step of every thread is
  invisible on that level.
 */
module Refinement {
  import opened Wrappers
  import opened Wire
  import opened Tables
  import opened Connections

  datatype Commit = Commit(thread: nat, key: Key, sample: Sample)

  ghost function Abs(db: Database): imap<Key, multiset<Sample>> {
    imap key: Key :: Content(db, key)
  }

  ghost function Append(m: imap<Key, multiset<Sample>>, c: Commit): imap<Key, multiset<Sample>> {
    imap key | key in m :: if key == c.key then m[key] + multiset{c.sample} else m[key]
  }

  ghost function Replay(m: imap<Key, multiset<Sample>>, cs: seq<Commit>): imap<Key, multiset<Sample>> {
    if cs == [] then m else Replay(Append(m, cs[0]), cs[1..])
  }

  /** The append that an event carries out: the last INSERT of a save, when no column is NULL. */
  function CommitOf(s: State, e: Event): seq<Commit> {
    if e.action.InsertPacket? && e.thread in s.threads then
      match s.threads[e.thread].pc
      case InsertingPacket(p, _) =>
        if p.x.Some? && p.y.Some? then
          [Commit(e.thread, KeyOf(p.uuid), Sample(p.timestamp, p.x.value, p.y.value))]
        else []
      case _ => []
    else []
  }

  function Commits(s: State, es: seq<Event>): seq<Commit>
    requires Run(s, es).Some?
    decreases |es|
  {
    if es == [] then [] else CommitOf(s, es[0]) + Commits(Step(s, es[0]).value, es[1..])
  }

  function CountBy(cs: seq<Commit>, t: nat): nat {
    if cs == [] then 0 else (if cs[0].thread == t then 1 else 0) + CountBy(cs[1..], t)
  }

  /** What an event does to the store under a key: append its commit's sample, or nothing. */
  ghost predicate ContentStep(db: Database, db': Database, cs: seq<Commit>, key: Key) {
    Content(db', key) ==
    if |cs| == 1 && cs[0].key == key then Content(db, key) + multiset{cs[0].sample} else Content(db, key)
  }

  lemma {:induction false} CommitStep(s: State, e: Event)
    requires Inv(s) && Step(s, e).Some? && CommitOf(s, e) != []
    ensures var c := CommitOf(s, e)[0];
            && Find(s.db.clients, c.key).Some?
            && Step(s, e).value.db == s.db.(packets := s.db.packets + [Row(Find(s.db.clients, c.key).value, c.sample)])
  {
  }

  lemma {:induction false} CommitContent(s: State, e: Event, key: Key)
    requires Inv(s) && Step(s, e).Some? && CommitOf(s, e) != []
    ensures ContentStep(s.db, Step(s, e).value.db, CommitOf(s, e), key)
  {
    CommitStep(s, e);
    var c := CommitOf(s, e)[0];
    NewPacketAdds(s.db, c.key, c.sample, key);
  }

  lemma {:induction false} RegisterStep(s: State, e: Event)
    requires Step(s, e).Some? && e.action.InsertClient?
    ensures var c := Client(e.action.id, s.threads[e.thread].pc.p.Key());
            && !HasId(s.db.clients, c.id)
            && Step(s, e).value.db ==
               if Find(s.db.clients, c.key).None? then s.db.(clients := s.db.clients + [c]) else s.db
  {
  }

  lemma {:induction false} RegisterContent(s: State, e: Event, key: Key)
    requires Inv(s) && Step(s, e).Some? && e.action.InsertClient?
    ensures ContentStep(s.db, Step(s, e).value.db, [], key)
  {
    RegisterStep(s, e);
    var c := Client(e.action.id, s.threads[e.thread].pc.p.Key());
    if Find(s.db.clients, c.key).None? { NewClientHoldsNothing(s.db, c, key); }
  }

  lemma {:induction false} OtherStep(s: State, e: Event)
    requires Step(s, e).Some? && CommitOf(s, e) == [] && !e.action.InsertClient?
    ensures Step(s, e).value.db == s.db
  {
  }

  lemma ReplayOne(m: imap<Key, multiset<Sample>>, c: Commit)
    ensures Replay(m, [c]) == Append(m, c)
  {
    assert [c][1..] == [];
  }

  lemma ContentAppend(db: Database, db': Database, c: Commit)
    requires forall key: Key :: ContentStep(db, db', [c], key)
    ensures Abs(db') == Append(Abs(db), c)
  {
    forall key: Key
      ensures Content(db', key) == if key == c.key then Content(db, key) + multiset{c.sample} else Content(db, key)
    {
      assert ContentStep(db, db', [c], key);
    }
  }

  lemma ContentStutter(db: Database, db': Database)
    requires forall key: Key :: ContentStep(db, db', [], key)
    ensures Abs(db') == Abs(db)
  {
    forall key: Key ensures Content(db', key) == Content(db, key) {
      assert ContentStep(db, db', [], key);
    }
  }

  /** A step either appends its one sample under its own key or leaves the abstract store alone. */
  lemma {:induction false} StepRefines(s: State, e: Event)
    requires Inv(s) && Step(s, e).Some?
    ensures Abs(Step(s, e).value.db) == Replay(Abs(s.db), CommitOf(s, e))
  {
    var db', cs := Step(s, e).value.db, CommitOf(s, e);
    if cs != [] {
      var c := cs[0];
      assert cs == [c];
      forall key: Key ensures ContentStep(s.db, db', [c], key) { CommitContent(s, e, key); }
      ContentAppend(s.db, db', c);
      ReplayOne(Abs(s.db), c);
    } else if e.action.InsertClient? {
      forall key: Key ensures ContentStep(s.db, db', [], key) { RegisterContent(s, e, key); }
      ContentStutter(s.db, db');
    } else {
      OtherStep(s, e);
    }
  }

  lemma {:induction false} ReplayConcat(m: imap<Key, multiset<Sample>>, a: seq<Commit>, b: seq<Commit>)
    ensures Replay(m, a + b) == Replay(Replay(m, a), b)
    decreases |a|
  {
    if a == [] {
      assert a + b == b;
    } else {
      assert (a + b)[0] == a[0] && (a + b)[1..] == a[1..] + b;
      ReplayConcat(Append(m, a[0]), a[1..], b);
    }
  }

  /**
    Every run, whatever the interleaving and whatever faults occur, leaves the store as the same
    appends done one after the other would, in the order of the saves' last INSERTs.
   */
  lemma {:induction false} RunRefines(s: State, es: seq<Event>)
    requires Inv(s) && Run(s, es).Some?
    ensures Abs(Run(s, es).value.db) == Replay(Abs(s.db), Commits(s, es))
    decreases |es|
  {
    if es != [] {
      var s' := Step(s, es[0]).value;
      StepKeepsInv(s, es[0]);
      StepRefines(s, es[0]);
      RunRefines(s', es[1..]);
      ReplayConcat(Abs(s.db), CommitOf(s, es[0]), Commits(s', es[1..]));
    }
  }

  /** The samples committed under a key, in order. */
  function CommittedUnder(cs: seq<Commit>, key: Key): seq<Sample> {
    if cs == [] then []
    else (if cs[0].key == key then [cs[0].sample] else []) + CommittedUnder(cs[1..], key)
  }

  lemma {:induction false} ReplayAt(m: imap<Key, multiset<Sample>>, cs: seq<Commit>, key: Key)
    requires key in m
    ensures key in Replay(m, cs) && Replay(m, cs)[key] == m[key] + multiset(CommittedUnder(cs, key))
    decreases |cs|
  {
    if cs != [] { ReplayAt(Append(m, cs[0]), cs[1..], key); }
  }

  /** Key by key: the store holds what it held before and what the run committed under that key. */
  lemma {:induction false} ContentAfter(s: State, es: seq<Event>, key: Key)
    requires Inv(s) && Run(s, es).Some?
    ensures Content(Run(s, es).value.db, key) ==
            Content(s.db, key) + multiset(CommittedUnder(Commits(s, es), key))
  {
    RunRefines(s, es);
    ReplayAt(Abs(s.db), Commits(s, es), key);
    assert Abs(Run(s, es).value.db)[key] == Content(Run(s, es).value.db, key);
  }

  lemma {:induction false} CommitIsUnderItsKey(cs: seq<Commit>, c: Commit)
    requires c in cs
    ensures c.sample in CommittedUnder(cs, c.key)
  {
    if cs[0] != c { CommitIsUnderItsKey(cs[1..], c); }
  }

  lemma {:induction false} CountByConcat(a: seq<Commit>, b: seq<Commit>, t: nat)
    ensures CountBy(a + b, t) == CountBy(a, t) + CountBy(b, t)
  {
    if a == [] {
      assert a + b == b;
    } else {
      assert (a + b)[0] == a[0] && (a + b)[1..] == a[1..] + b;
      CountByConcat(a[1..], b, t);
    }
  }

  /**
    The accounts are accounts of the table: a connection's stored count goes up by exactly the appends
    it made, and the table grows by exactly one row for each append of any connection.
   */
  lemma {:induction false} StoredIsCommitted(s: State, es: seq<Event>, t: nat)
    requires Run(s, es).Some? && t in s.threads
    ensures t in Run(s, es).value.threads
    ensures Run(s, es).value.threads[t].stored == s.threads[t].stored + CountBy(Commits(s, es), t)
    ensures |Run(s, es).value.db.packets| == |s.db.packets| + |Commits(s, es)|
    decreases |es|
  {
    if es != [] {
      var s' := Step(s, es[0]).value;
      StepStores(s, es[0], t);
      StoredIsCommitted(s', es[1..], t);
      CountByConcat(CommitOf(s, es[0]), Commits(s', es[1..]), t);
    }
  }

  lemma {:induction false} StepStores(s: State, e: Event, t: nat)
    requires Step(s, e).Some? && t in s.threads
    ensures t in Step(s, e).value.threads
    ensures Step(s, e).value.threads[t].stored == s.threads[t].stored + CountBy(CommitOf(s, e), t)
    ensures |Step(s, e).value.db.packets| == |s.db.packets| + |CommitOf(s, e)|
  {
    var cs := CommitOf(s, e);
    if cs != [] { assert cs[1..] == []; }
  }
}
