/**
  Text that is no UTF-8, from a client to every client. Both sides go on with whatever a failed parse left
  behind. So the server stores such a uuid; and of a report that carries it a client shows the rows before
  it and that uuid with zeros, and nothing of the rows after it.
 */
module Readability {
  import opened Wrappers
  import opened Wire
  import opened Scalars
  import opened Tables
  import opened Connections
  import opened Statistics
  import opened Loss
  import opened Refinement
  import D = ClientPacketData
  import P = ClientPacket
  import R = ServerStatistic
  import E = ServerStatisticEntry
  import Dialogue

  // ---------------------------------------------------------------- how a bad uuid gets in

  /** A DATA packet whose payload holds some readable fields, then a uuid that is no UTF-8, then anything. */
  function BadPacket(fs: seq<Field>, bad: bytes, more: bytes): bytes {
    Encode(LenField(2, EncodeAll(fs) + (Encode(LenField(1, bad)) + more)))
  }

  /**
    The parse of such a packet fails, and whatever it may leave in the object makes the server save a
    sample: the bad uuid with the values that came before it and the defaults for those that did not.
   */
  lemma BadUuidIsSaved(fs: seq<Field>, bad: bytes, more: bytes, m: P.Packet)
    requires AllStorable(fs, RECURSION_LIMIT - 1) && D.DEFAULT.ApplyAll(fs).Some?
    requires !ValidUtf8(bad) && |bad| <= 0x7FFF_FFEF
    requires |EncodeAll(fs) + (Encode(LenField(1, bad)) + more)| <= 0x7FFF_FFEF
    ensures P.ParseFromString(BadPacket(fs, bad, more)).None?
    ensures var o := P.EMPTY.Reach(BadPacket(fs, bad, more), RECURSION_LIMIT);
            && o.Stuck?
            && (P.Left(o, RECURSION_LIMIT, m) ==>
                  Dialogue.Dispatch(m) == Dialogue.Save(D.DEFAULT.ApplyAll(fs).value.(uuid := bad)))
  {
    hide P.Packet.Reach, D.Data.Reach, EncodeAll, ReadLen;
    var payload := EncodeAll(fs) + (Encode(LenField(1, bad)) + more);
    PayloadIsStuck(payload, RECURSION_LIMIT, fs, bad, more);
    P.ReachIsParse(P.EMPTY, BadPacket(fs, bad, more), RECURSION_LIMIT);
    var o := P.EMPTY.Reach(BadPacket(fs, bad, more), RECURSION_LIMIT);
    if P.Left(o, RECURSION_LIMIT, m) {
      LeftPacket(payload, RECURSION_LIMIT, m);
      LeftUuid(D.DEFAULT.ApplyAll(fs).value, bad, more, m.data.value);
    }
  }

  lemma LeftPacket(payload: bytes, depth: nat, m: P.Packet)
    requires depth > 0 && |payload| <= MAX_SIZE
    requires P.Left(Stuck(P.EMPTY, Some(18), EncodePayload(LenField(2, payload))), depth, m)
    ensures m.data.Some? && m == P.EMPTY.(data := m.data)
    ensures var o := D.DEFAULT.Reach(payload, depth - 1);
            o.Stuck? && D.Left(o, m.data.value)
  {
    hide D.Data.Reach, D.Left;
    LenRoundTrip(payload, []);
    assert EncodePayload(LenField(2, payload)) + [] == EncodePayload(LenField(2, payload));
  }

  lemma LeftUuid(d: D.Data, bad: bytes, more: bytes, m: D.Data)
    requires |bad| <= MAX_SIZE
    requires D.Left(Stuck(d, Some(10), EncodePayload(LenField(1, bad)) + more), m)
    ensures m == d.(uuid := bad)
  {
    LenRoundTrip(bad, more);
  }

  lemma PayloadIsStuck(payload: bytes, depth: nat, fs: seq<Field>, bad: bytes, more: bytes)
    requires depth > 0 && |payload| <= MAX_SIZE
    requires payload == EncodeAll(fs) + (Encode(LenField(1, bad)) + more)
    requires AllStorable(fs, depth - 1) && D.DEFAULT.ApplyAll(fs).Some?
    requires !ValidUtf8(bad) && |bad| <= MAX_SIZE
    ensures D.DEFAULT.Reach(payload, depth - 1)
            == Stuck(D.DEFAULT.ApplyAll(fs).value, Some(10), EncodePayload(LenField(1, bad)) + more)
    ensures P.EMPTY.Reach(Encode(LenField(2, payload)), depth)
            == Stuck(P.EMPTY, Some(18), EncodePayload(LenField(2, payload)))
  {
    hide EncodeAll, EncodePayload, ReadTagged, D.Data.ApplyAll, D.Data.Reach, ValidUtf8;
    var f := LenField(2, payload);
    D.ReachBadString(D.DEFAULT, fs, bad, more, depth - 1);
    D.ReachIsParse(D.DEFAULT, payload, depth - 1);
    TaggedRoundTrip(f, [], depth);
    assert Encode(f) + [] == Encode(f) && EncodePayload(f) + [] == EncodePayload(f);
  }

  // ---------------------------------------------------------------- what it does to the reports

  /** A report that was filled in with the lines of a collection. */
  predicate Reports(r: R.Report, stats: seq<Stat>) {
    && |r.clients| == |stats| && r.unknown == []
    && forall i | 0 <= i < |stats| :: r.clients[i].uuid == stats[i].uuid && r.clients[i].unknown == []
  }

  lemma ReportIsBuildable(r: R.Report, stats: seq<Stat>)
    requires Reports(r, stats)
    requires forall st | st in stats :: |st.uuid| <= 0x7FFF_FFAF
    ensures r.Buildable(RECURSION_LIMIT)
  {
    forall i | 0 <= i < |r.clients| ensures r.clients[i].Size() <= MAX_SIZE {
      assert stats[i] in stats;
      WordFits(|r.clients[i].uuid|);
    }
  }

  /** A report can be read if and only if every key in it is UTF-8. */
  lemma ReadableIffKeysAre(r: R.Report, stats: seq<Stat>)
    requires Reports(r, stats)
    requires forall st | st in stats :: |st.uuid| <= 0x7FFF_FFAF
    ensures R.ParseFromString(r.Serialize()).Some? <==> forall st | st in stats :: ValidUtf8(st.uuid)
  {
    ReportIsBuildable(r, stats);
    R.ReadableIff(r);
    if forall st | st in stats :: ValidUtf8(st.uuid) {
      forall c | c in r.clients ensures ValidUtf8(c.uuid) {
        var i :| 0 <= i < |r.clients| && r.clients[i] == c;
        assert stats[i] in stats;
      }
    } else {
      var st :| st in stats && !ValidUtf8(st.uuid);
      var i :| 0 <= i < |stats| && stats[i] == st;
      assert r.clients[i] in r.clients;
    }
  }

  /**
    What a client is left with of a report whose i-th key is the first that is no UTF-8: the rows before
    it, then that key with zeros.
   */
  lemma RowsLeft(r: R.Report, stats: seq<Stat>, i: nat)
    requires Reports(r, stats) && i < |stats|
    requires forall st | st in stats :: |st.uuid| <= 0x7FFF_FFAF
    requires (forall j | 0 <= j < i :: ValidUtf8(stats[j].uuid)) && !ValidUtf8(stats[i].uuid)
    ensures var o := R.EMPTY.Reach(r.Serialize(), RECURSION_LIMIT);
            && o.Stuck?
            && forall m: R.Report | R.Left(o, RECURSION_LIMIT, m) ::
                 m == R.Report(R.NormalAll(r.clients[..i]) + [E.DEFAULT.(uuid := stats[i].uuid)], [])
  {
    ReportIsBuildable(r, stats);
    forall c | c in r.clients[..i] ensures ValidUtf8(c.uuid) {
      var j :| 0 <= j < i && r.clients[..i][j] == c;
      assert c.uuid == stats[j].uuid;
    }
    hide R.Report.Reach, R.Left, R.Report.Serialize;
    forall m: R.Report
      ensures var o := R.EMPTY.Reach(r.Serialize(), RECURSION_LIMIT);
              && o.Stuck?
              && (R.Left(o, RECURSION_LIMIT, m) ==>
                    m == R.Report(R.NormalAll(r.clients[..i]) + [E.DEFAULT.(uuid := stats[i].uuid)], []))
    {
      R.UnreadableLeaves(r, i, m);
    }
    R.UnreadableLeaves(r, i, R.EMPTY);
  }

  /**
    One stored key that is no UTF-8 and has a sample in the last five minutes spoils the report: its parse
    fails, and what is left of it has at most that many rows as there are up to the first such key, whose
    own row has lost its figures.
   */
  lemma OneBadKeySpoils(db: Database, key: Key, now: int, stats: seq<Stat>, r: R.Report) returns (i: nat)
    requires ReportFor(db, key, now).Some? && !ValidUtf8(key)
    requires forall k: Key :: ReportFor(db, k, now).Some? ==> ReportFor(db, k, now).value in stats
    requires Reports(r, stats) && forall st | st in stats :: |st.uuid| <= 0x7FFF_FFAF
    ensures R.ParseFromString(r.Serialize()).None?
    ensures i < |stats| && !ValidUtf8(stats[i].uuid) && forall j | 0 <= j < i :: ValidUtf8(stats[j].uuid)
    ensures var o := R.EMPTY.Reach(r.Serialize(), RECURSION_LIMIT);
            && o.Stuck?
            && forall m: R.Report | R.Left(o, RECURSION_LIMIT, m) ::
                 m == R.Report(R.NormalAll(r.clients[..i]) + [E.DEFAULT.(uuid := stats[i].uuid)], [])
  {
    assert ReportFor(db, key, now).value in stats;
    ReadableIffKeysAre(r, stats);
    i := FirstBad(stats);
    RowsLeft(r, stats, i);
  }

  lemma {:induction false} FirstBad(stats: seq<Stat>) returns (i: nat)
    requires exists st :: st in stats && !ValidUtf8(st.uuid)
    ensures i < |stats| && !ValidUtf8(stats[i].uuid) && forall j | 0 <= j < i :: ValidUtf8(stats[j].uuid)
  {
    if !ValidUtf8(stats[0].uuid) {
      i := 0;
    } else {
      i := FirstBad(stats[1..]);
      i := i + 1;
    }
  }

  // ---------------------------------------------------------------- keeping it out

  lemma Utf8Prefix(s: bytes, t: bytes)
    requires Utf8Length(s) > 0
    ensures Utf8Length(s[..Utf8Length(s)] + t) == Utf8Length(s)
  {
    var n := Utf8Length(s);
    assert forall i | 0 <= i < n :: (s[..n] + t)[i] == s[i];
  }

  /** Only a NUL character has a NUL byte in it, so the key takes whole characters. */
  lemma KeyOfChar(s: bytes)
    requires Utf8Length(s) > 0 && s[0] != 0
    ensures KeyOf(s) == s[..Utf8Length(s)] + KeyOf(s[Utf8Length(s)..])
  {
    var n := Utf8Length(s);
    assert forall i | 0 <= i < n :: s[i] != 0;
    KeyOfPrefix(s, n);
  }

  lemma {:induction false} KeyOfPrefix(s: bytes, n: nat)
    requires n <= |s| && 0 !in s[..n]
    ensures KeyOf(s) == s[..n] + KeyOf(s[n..])
  {
    if n > 0 {
      assert s[0] == s[..n][0] && s[1..][..n - 1] == s[..n][1..] && s[1..][n - 1..] == s[n..];
      KeyOfPrefix(s[1..], n - 1);
      assert s[..n] == [s[0]] + s[1..][..n - 1];
    } else {
      assert s[..n] == [] && s[n..] == s;
    }
  }

  /** The key of UTF-8 text is UTF-8 text. */
  lemma {:induction false} KeyIsUtf8(uuid: bytes)
    requires ValidUtf8(uuid)
    ensures ValidUtf8(KeyOf(uuid))
    decreases |uuid|
  {
    if uuid != [] && uuid[0] != 0 {
      var n := Utf8Length(uuid);
      KeyOfChar(uuid);
      KeyIsUtf8(uuid[n..]);
      var rest := KeyOf(uuid[n..]);
      Utf8Prefix(uuid, rest);
      assert (uuid[..n] + rest)[n..] == rest;
    }
  }

  predicate KeysAreUtf8(db: Database) {
    forall c | c in db.clients :: ValidUtf8(c.key)
  }

  predicate SavesUtf8(s: State) {
    forall t | t in s.threads && Saving(s.threads[t].pc) :: ValidUtf8(s.threads[t].pc.p.uuid)
  }

  predicate ReadsUtf8(es: seq<Event>) {
    forall e | e in es && e.action.Receive? && e.action.m.DataMessage? && e.action.m.payload.Some? ::
      ValidUtf8(e.action.m.payload.value.uuid)
  }

  lemma {:induction false} StepKeepsUtf8(s: State, e: Event)
    requires Step(s, e).Some? && KeysAreUtf8(s.db) && SavesUtf8(s) && ReadsUtf8([e])
    ensures KeysAreUtf8(Step(s, e).value.db) && SavesUtf8(Step(s, e).value)
  {
    var s' := Step(s, e).value;
    assert e in [e];
    if e.action.InsertClient? {
      KeyIsUtf8(s.threads[e.thread].pc.p.uuid);
      RegisterStep(s, e);
    } else {
      OtherStepKeepsClients(s, e);
    }
    if !e.action.Stop? {
      forall t | t in s'.threads && Saving(s'.threads[t].pc) ensures ValidUtf8(s'.threads[t].pc.p.uuid) {
        if t == e.thread { SavedPayload(s, e); }
      }
    }
  }

  lemma {:induction false} OtherStepKeepsClients(s: State, e: Event)
    requires Step(s, e).Some? && !e.action.InsertClient?
    ensures Step(s, e).value.db.clients == s.db.clients
  {
  }

  /** If every uuid that is saved is UTF-8, then over any run every stored key stays so. */
  lemma {:induction false} RunKeepsUtf8(s: State, es: seq<Event>)
    requires Run(s, es).Some? && KeysAreUtf8(s.db) && SavesUtf8(s) && ReadsUtf8(es)
    ensures KeysAreUtf8(Run(s, es).value.db)
    decreases |es|
  {
    if es != [] {
      assert es[0] in es;
      forall e | e in [es[0]] ensures e in es {}
      StepKeepsUtf8(s, es[0]);
      RunKeepsUtf8(Step(s, es[0]).value, es[1..]);
    }
  }

  /** And then every report over clients stored by then can be read, whatever its lines say of them. */
  lemma {:induction false} ReportsStayReadable(s: State, es: seq<Event>, stats: seq<Stat>, r: R.Report)
    requires Run(s, es).Some? && KeysAreUtf8(s.db) && SavesUtf8(s) && ReadsUtf8(es)
    requires forall st | st in stats :: exists c :: c in Run(s, es).value.db.clients && c.key == st.uuid
    requires Reports(r, stats) && forall st | st in stats :: |st.uuid| <= 0x7FFF_FFAF
    ensures R.ParseFromString(r.Serialize()) == Some(r.Normal())
  {
    RunKeepsUtf8(s, es);
    hide Run, R.Report.Serialize, R.Report.Normal;
    ReportIsBuildable(r, stats);
    forall i | 0 <= i < |r.clients| ensures ValidUtf8(r.clients[i].uuid) {
      assert stats[i] in stats;
    }
    R.RoundTrip(r);
  }
}
