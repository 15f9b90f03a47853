/**
  Why a packet was lost, read off the whole run. A connection has lost a packet if and only if some save of
  it was raced, bound a NaN or met a storage fault; without faults the first two are all there is. The
  connection is closed then, so that save was its last.
 */
module LossHistory {
  import opened Wrappers
  import opened Wire
  import opened Tables
  import opened Connections
  import opened Loss

  // ---------------------------------------------------------------- the causes

  /** Thread t's j-th event ends what its i-th began: a select, after which it did nothing else. */
  predicate SelectThen(s: State, es: seq<Event>, t: nat, i: nat, j: nat)
    requires Run(s, es).Some?
  {
    && i < j < |es|
    && es[i].thread == t && es[i].action.Select?
    && t in Before(s, es, i).threads && Before(s, es, i).threads[t].pc.Selecting?
    && Idle(es[i + 1..j], t)
  }

  function SelectedKey(s: State, es: seq<Event>, t: nat, i: nat): Key
    requires Run(s, es).Some? && i <= |es|
    requires t in Before(s, es, i).threads && Before(s, es, i).threads[t].pc.Selecting?
  {
    Before(s, es, i).threads[t].pc.p.Key()
  }

  predicate Stored(s: State, es: seq<Event>, i: nat, key: Key)
    requires Run(s, es).Some? && i <= |es|
  {
    Find(Before(s, es, i).db.clients, key).Some?
  }

  /** The insert comes after a select that rightly found no client and a registration by another thread. */
  ghost predicate Raced(s: State, es: seq<Event>, t: nat, i: nat, j: nat)
    requires Run(s, es).Some?
  {
    && SelectThen(s, es, t, i, j)
    && es[j].thread == t && es[j].action.InsertClient?
    && !Stored(s, es, i, SelectedKey(s, es, t, i))
    && Run(Before(s, es, i + 1), es[i + 1..j]).Some?
    && RunRegisters(Before(s, es, i + 1), es[i + 1..j], SelectedKey(s, es, t, i))
  }

  /** The insert comes after a select that a fault ended before it could find the client. */
  ghost predicate Misled(s: State, es: seq<Event>, t: nat, i: nat, j: nat)
    requires Run(s, es).Some?
  {
    && SelectThen(s, es, t, i, j)
    && es[j].thread == t && es[j].action.InsertClient?
    && es[i].action.silent && Stored(s, es, i, SelectedKey(s, es, t, i))
  }

  /** The thread binds a NaN. */
  predicate BoundNull(s: State, es: seq<Event>, t: nat, j: nat)
    requires Run(s, es).Some?
  {
    && j < |es| && es[j].thread == t && es[j].action.InsertPacket?
    && t in Before(s, es, j).threads && Before(s, es, j).threads[t].pc.InsertingPacket?
    && !Before(s, es, j).threads[t].pc.p.Storable()
  }

  /** A storage fault strikes while the thread is saving. */
  predicate Struck(s: State, es: seq<Event>, t: nat, j: nat)
    requires Run(s, es).Some?
  {
    && j < |es| && es[j].thread == t
    && t in Before(s, es, j).threads && Saving(Before(s, es, j).threads[t].pc)
    && (es[j].action.Fault? || (es[j].action.Reselect? && es[j].action.silent))
  }

  predicate LosesAt(s: State, es: seq<Event>, t: nat, j: nat)
    requires Run(s, es).Some?
  {
    && j < |es| && es[j].thread == t
    && t in Before(s, es, j).threads
    && LosingStep(Before(s, es, j).db, Before(s, es, j).threads[t].pc, es[j].action)
  }

  // ---------------------------------------------------------------- where a loss comes from

  lemma {:induction false} StepLoses(s: State, e: Event, t: nat)
    requires Inv(s) && Step(s, e).Some?
    ensures LostBy(Step(s, e).value, t) ==
            LostBy(s, t) +
            if e.thread == t && t in s.threads && LosingStep(s.db, s.threads[t].pc, e.action) then 1 else 0
  {
    hide LosingStep;
    if t in s.threads { LossCauses(s, e, t); }
  }

  /** A connection has lost a packet if and only if one of its steps lost it. */
  lemma {:induction false} LostByStep(s: State, es: seq<Event>, t: nat, n: nat)
    requires Inv(s) && t !in s.threads && Run(s, es).Some? && n <= |es|
    ensures LostBy(Before(s, es, n), t) > 0 <==> exists j | 0 <= j < n :: LosesAt(s, es, t, j)
  {
    hide LosingStep, LostBy;
    if n == 0 {
      BeforeFirst(s, es);
      NothingLostYet(s, t);
    } else {
      LostByStep(s, es, t, n - 1);
      BeforeNext(s, es, n - 1);
      InvBefore(s, es, n - 1);
      StepLoses(Before(s, es, n - 1), es[n - 1], t);
      assert LosesAt(s, es, t, n - 1) <==>
             LostBy(Before(s, es, n), t) == LostBy(Before(s, es, n - 1), t) + 1;
    }
  }

  lemma NothingLostYet(s: State, t: nat)
    requires t !in s.threads
    ensures LostBy(s, t) == 0
  {
  }

  /** A thread about to register a client got there by its last select, which found none or was cut short. */
  lemma {:induction false} LastSelect(s: State, es: seq<Event>, t: nat, j: nat) returns (i: nat)
    requires t !in s.threads && Run(s, es).Some? && j < |es|
    requires t in Before(s, es, j).threads && Before(s, es, j).threads[t].pc.InsertingClient?
    ensures SelectThen(s, es, t, i, j)
    ensures Before(s, es, i).threads[t].pc.p == Before(s, es, j).threads[t].pc.p
    ensures Stored(s, es, i, SelectedKey(s, es, t, i)) ==> es[i].action.silent
    ensures Before(s, es, i + 1).db == Before(s, es, i).db
  {
    hide Run, Before, KeyOf;
    BeforeFirst(s, es);
    BeforeNext(s, es, j - 1);
    SelectStep(Before(s, es, j - 1), es[j - 1], t);
    if es[j - 1].thread == t && !es[j - 1].action.Stop? {
      i := j - 1;
      assert es[i + 1..j] == [];
    } else {
      i := LastSelect(s, es, t, j - 1);
      assert es[i + 1..j] == es[i + 1..j - 1] + [es[j - 1]];
    }
  }

  lemma {:induction false} SelectStep(s: State, e: Event, t: nat)
    requires Step(s, e).Some?
    requires t in Step(s, e).value.threads && Step(s, e).value.threads[t].pc.InsertingClient?
    ensures t in s.threads
    ensures if e.thread == t && !e.action.Stop? then
              && e.action.Select? && s.threads[t].pc == Selecting(Step(s, e).value.threads[t].pc.p)
              && Step(s, e).value.db == s.db
              && (Find(s.db.clients, s.threads[t].pc.p.Key()).Some? ==> e.action.silent)
            else Step(s, e).value.threads[t] == s.threads[t]
  {
    hide Find, KeyOf, HasId;
  }

  /** While a thread waits to insert a client, the client is there if and only if it was or is registered. */
  lemma {:induction false} Meanwhile(s: State, es: seq<Event>, t: nat, i: nat, j: nat)
    requires Run(s, es).Some? && SelectThen(s, es, t, i, j)
    ensures Run(Before(s, es, i + 1), es[i + 1..j]) == Some(Before(s, es, j))
    ensures Before(s, es, i + 1).db == Before(s, es, i).db
    ensures var key := SelectedKey(s, es, t, i);
            Stored(s, es, j, key) <==> Stored(s, es, i, key) || RunRegisters(Before(s, es, i + 1), es[i + 1..j], key)
    ensures t in Before(s, es, i + 1).threads
    ensures t in Before(s, es, j).threads && Before(s, es, j).threads[t] == Before(s, es, i + 1).threads[t]
    ensures !Stored(s, es, i, SelectedKey(s, es, t, i)) || es[i].action.silent ==>
              Before(s, es, j).threads[t].pc == InsertingClient(Before(s, es, i).threads[t].pc.p)
  {
    hide KeyOf, Find, HasId;
    RunPrefix(s, es, i + 1, j);
    BeforeNext(s, es, i);
    RunFind(Before(s, es, i + 1), es[i + 1..j], SelectedKey(s, es, t, i));
    IdleStays(Before(s, es, i + 1), es[i + 1..j], t);
  }

  /** A losing step is the end of a raced or misled registration, the binding of a NaN, or a fault. */
  lemma {:induction false} WhyAt(s: State, es: seq<Event>, t: nat, j: nat)
    requires Inv(s) && t !in s.threads && Run(s, es).Some? && j < |es|
    ensures LosesAt(s, es, t, j) <==>
            || (exists i: nat :: Raced(s, es, t, i, j)) || (exists i: nat :: Misled(s, es, t, i, j))
            || BoundNull(s, es, t, j) || Struck(s, es, t, j)
  {
    hide Run, Before, KeyOf, RunRegisters, Inv, SelectThen;
    forall i: nat | Raced(s, es, t, i, j) || Misled(s, es, t, i, j) ensures LosesAt(s, es, t, j) {
      SelectThenParts(s, es, t, i, j);
      Meanwhile(s, es, t, i, j);
    }
    if LosesAt(s, es, t, j) { CauseOf(s, es, t, j); }
    LosingStruck(s, es, t, j);
  }

  lemma {:induction false} SelectThenParts(s: State, es: seq<Event>, t: nat, i: nat, j: nat)
    requires Run(s, es).Some? && SelectThen(s, es, t, i, j)
    ensures i < j < |es| && t in Before(s, es, i).threads && Before(s, es, i).threads[t].pc.Selecting?
    ensures es[i].action.Select?
  {
  }

  lemma {:induction false} LosingStruck(s: State, es: seq<Event>, t: nat, j: nat)
    requires Run(s, es).Some?
    ensures BoundNull(s, es, t, j) || Struck(s, es, t, j) ==> LosesAt(s, es, t, j)
  {
    hide Run, Before;
  }

  lemma {:induction false} CauseOf(s: State, es: seq<Event>, t: nat, j: nat)
    requires t !in s.threads && Run(s, es).Some? && j < |es| && LosesAt(s, es, t, j)
    ensures || (exists i: nat :: Raced(s, es, t, i, j)) || (exists i: nat :: Misled(s, es, t, i, j))
            || BoundNull(s, es, t, j) || Struck(s, es, t, j)
  {
    hide Run, Before, KeyOf, RunRegisters, SelectThen;
    BeforeNext(s, es, j);
    if es[j].action.InsertClient? {
      StepsInPlace(Before(s, es, j), es[j]);
      var i := LastSelect(s, es, t, j);
      SelectThenParts(s, es, t, i, j);
      Meanwhile(s, es, t, i, j);
      assert Raced(s, es, t, i, j) || Misled(s, es, t, i, j);
    } else if es[j].action.InsertPacket? {
      StepsInPlace(Before(s, es, j), es[j]);
    }
  }

  lemma {:induction false} StepsInPlace(s: State, e: Event)
    requires Step(s, e).Some? && e.thread in s.threads
    ensures e.action.InsertClient? ==> s.threads[e.thread].pc.InsertingClient?
    ensures e.action.InsertPacket? ==> s.threads[e.thread].pc.InsertingPacket?
  {
  }

  /**
    Over every run of a connection from before it was accepted: it has lost a packet if and only if some
    save of it was raced, was misled by a fault, bound a NaN, or was struck by a fault. It is then exactly
    one packet, and the connection is closed.
   */
  lemma {:induction false} LostIff(s: State, es: seq<Event>, t: nat)
    requires Inv(s) && t !in s.threads && Run(s, es).Some?
    ensures LostBy(Run(s, es).value, t) <= 1
    ensures LostBy(Run(s, es).value, t) == 1 ==> Run(s, es).value.threads[t].pc.Closed?
    ensures LostBy(Run(s, es).value, t) == 1 <==>
            || (exists i: nat, j: nat :: Raced(s, es, t, i, j)) || (exists i: nat, j: nat :: Misled(s, es, t, i, j))
            || (exists j: nat :: BoundNull(s, es, t, j)) || (exists j: nat :: Struck(s, es, t, j))
  {
    hide Run, Before, Raced, Misled, BoundNull, Struck, LosesAt;
    RunKeepsInv(s, es);
    AtMostOne(Run(s, es).value, t);
    BeforeFirst(s, es);
    LostByStep(s, es, t, |es|);
    CausesAreEvents(s, es, t);
    forall i: nat, j: nat | Raced(s, es, t, i, j) || Misled(s, es, t, i, j) ensures LosesAt(s, es, t, j) {
      WhyAt(s, es, t, j);
    }
    forall j: nat | BoundNull(s, es, t, j) || Struck(s, es, t, j) ensures LosesAt(s, es, t, j) {
      WhyAt(s, es, t, j);
    }
    if LostBy(Run(s, es).value, t) > 0 {
      var j :| 0 <= j < |es| && LosesAt(s, es, t, j);
      WhyAt(s, es, t, j);
    }
  }

  lemma AtMostOne(s: State, t: nat)
    requires Inv(s)
    ensures LostBy(s, t) <= 1
  {
  }

  lemma {:induction false} CausesAreEvents(s: State, es: seq<Event>, t: nat)
    requires Run(s, es).Some?
    ensures forall i: nat, j: nat | Raced(s, es, t, i, j) || Misled(s, es, t, i, j) :: j < |es|
    ensures forall j: nat | BoundNull(s, es, t, j) || Struck(s, es, t, j) :: j < |es|
  {
  }

  lemma {:induction false} NoFaults(s: State, es: seq<Event>, t: nat, i: nat, j: nat)
    requires Run(s, es).Some? && AllFaultless(es)
    ensures !Misled(s, es, t, i, j) && !Struck(s, es, t, j)
  {
    hide Run, Before;
    if i < |es| { assert es[i] in es; }
    if j < |es| { assert es[j] in es; }
  }

  /** Without storage faults a packet is lost exactly to a race or to a NaN. */
  lemma {:induction false} FaultlessLostIff(s: State, es: seq<Event>, t: nat)
    requires Inv(s) && t !in s.threads && Run(s, es).Some? && AllFaultless(es)
    ensures LostBy(Run(s, es).value, t) == 1 <==>
            (exists i: nat, j: nat :: Raced(s, es, t, i, j)) || (exists j: nat :: BoundNull(s, es, t, j))
  {
    hide Run, Before, Raced, BoundNull, SelectThen;
    LostIff(s, es, t);
    forall i: nat, j: nat ensures !Misled(s, es, t, i, j) && !Struck(s, es, t, j) {
      NoFaults(s, es, t, i, j);
    }
  }
}
