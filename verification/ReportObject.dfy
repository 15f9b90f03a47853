/**
  tz.ServerStatistic as the mutable object of the generated code: a list of element objects that are
  created, parsed, sized and written in place. Its parser has a fast path for runs of the repeated
  field, which is proved to agree with dispatching on every tag.
 */
module ReportObject {
  import opened Wrappers
  import opened Wire
  import opened Scalars
  import opened ServerStatistic
  import E = ServerStatisticEntry
  import opened StatisticObject

  class ReportMessage {
    var client: seq<StatisticMessage>
    var unknown: seq<Field>
    var cachedSize: nat
    /** The values of the element objects. */
    ghost var rows: seq<E.Statistic>

    ghost predicate Valid()
      reads `client, `rows
      reads client`uuid, client`x1, client`y1, client`x5, client`y5, client`unknown
    {
      && |rows| == |client|
      && (forall i, j | 0 <= i < j < |client| :: client[i] != client[j])
      && forall i | 0 <= i < |client| :: client[i].View() == rows[i]
    }

    ghost function View(): Report
      reads `rows, `unknown
    {
      Report(rows, unknown)
    }

    constructor ()
      ensures Valid() && View() == EMPTY
    {
      client, unknown, cachedSize, rows := [], [], 0, [];
    }

    /**
      Unlike its siblings' the copy constructor merges: the copied list is filled with fresh elements
      merged from the other's, so a negative zero in them comes out positive.
     */
    constructor Copy(from: ReportMessage)
      requires from.Valid()
      ensures Valid() && View() == from.View().Normal()
      ensures forall c | c in client :: fresh(c)
    {
      client, unknown, cachedSize, rows := [], [], 0, [];
      new;
      MergeFrom(from);
      MergeIntoEmpty(from.View());
    }

    method Clear()
      modifies this
      ensures Valid() && View() == EMPTY
    {
      client, rows := [], [];
      unknown := [];
    }

    /** Appends a fresh element and hands it out to be filled. */
    method AddClient() returns (c: StatisticMessage)
      requires Valid()
      modifies `client, `rows
      ensures Valid() && fresh(c) && client == old(client) + [c] && rows == old(rows) + [E.DEFAULT]
    {
      c := new StatisticMessage();
      client, rows := client + [c], rows + [c.View()];
    }

    /** Appends a fresh element that another element was merged into. */
    method AppendCopy(from: StatisticMessage)
      requires Valid()
      modifies `client, `rows
      ensures Valid() && rows == old(rows) + [from.View().Normal()]
      ensures |client| == |old(client)| + 1 && client[..|old(client)|] == old(client) && fresh(client[|old(client)|])
    {
      var c := AddClient();
      c.MergeFrom(from);
      E.MergeIntoDefault(from.View());
      rows := old(rows) + [c.View()];
    }

    /** Elements are appended one by one, each a fresh object merged from the other's. */
    method MergeFrom(from: ReportMessage)
      requires Valid() && from.Valid() && from != this
      modifies this
      ensures Valid() && from.Valid()
      ensures View() == old(View()).Merge(from.View())
      ensures old(client) <= client
      ensures forall i | |old(client)| <= i < |client| :: fresh(client[i])
    {
      hide NormalAll, E.Statistic.Normal;
      ghost var added := NormalAll(from.rows);
      for i := 0 to |from.client|
        invariant Valid() && unknown == old(unknown)
        invariant |client| == |old(client)| + i && old(client) <= client
        invariant forall j | |old(client)| <= j < |client| :: fresh(client[j])
        invariant rows == old(rows) + added[..i]
      {
        AppendCopy(from.client[i]);
        assert added[..i + 1] == added[..i] + [from.rows[i].Normal()];
      }
      assert added[..|added|] == added;
      unknown := unknown + from.unknown;
    }

    method CopyFrom(from: ReportMessage)
      requires Valid() && from.Valid()
      modifies this
      ensures Valid() && from.Valid()
      ensures View() == if from == this then old(View()) else from.View().Normal()
      ensures from != this ==> forall c | c in client :: fresh(c)
    {
      if from == this { return; }
      Clear();
      MergeFrom(from);
      MergeIntoEmpty(from.View());
    }

    method InternalSwap(other: ReportMessage)
      requires Valid() && other.Valid()
      modifies this, other
      ensures Valid() && other.Valid()
      ensures View() == old(other.View()) && other.View() == old(View())
    {
      unknown, other.unknown := other.unknown, unknown;
      client, other.client := other.client, client;
      rows, other.rows := other.rows, rows;
    }

    // ------------------------------------------------------------ parsing

    method InternalParse(buf: bytes, start: nat, limit: nat, depth: nat) returns (ok: bool)
      requires Valid()
      requires start <= limit <= |buf|
      modifies this
      ensures Valid()
      ensures ok <==> old(View()).Parse(Ahead(buf, start, limit), depth).Some?
      ensures ok ==> Some(View()) == old(View()).Parse(Ahead(buf, start, limit), depth)
      ensures var o := old(View()).Reach(Ahead(buf, start, limit), depth);
              if ok then o == Done(View()) else o.Stuck? && Left(o, depth, View())
    {
      hide Report.ReachTagged, Report.Parse;
      var ptr := start;
      ghost var goal := View().Reach(Ahead(buf, start, limit), depth);
      ReachIsParse(View(), Ahead(buf, start, limit), depth);
      while ptr < limit
        invariant Valid() && start <= ptr <= limit
        invariant View().Reach(Ahead(buf, ptr, limit), depth) == goal
        decreases limit - ptr
      {
        var read, tag, next := NextTag(buf, ptr, limit);
        if !read {
          assert SameBut(View(), View(), 0);
          return false;
        }
        if IsTag(tag, 1, 10) {
          read, next := ParseClients(buf, next, limit, depth);
        } else {
          read, next := ParseUnknown(tag, buf, next, limit, depth);
        }
        if !read { return false; }
        ptr := next;
      }
      return true;
    }

    /**
      The fast path: after an element, a further element's tag is recognised by one byte, without
      going back through the switch. The pointer is stepped back first because every turn begins by
      stepping over a one-byte tag. How often the look-ahead is possible does not show in the result.
     */
    method ParseClients(buf: bytes, start: nat, limit: nat, depth: nat) returns (ok: bool, next: nat)
      requires Valid()
      requires 0 < start <= limit <= |buf|
      modifies `client, `rows
      ensures Valid()
      ensures var o := old(View()).ReachTagged(10, Ahead(buf, start, limit), depth);
              if ok then start <= next <= limit && View().Reach(Ahead(buf, next, limit), depth) == o
              else o.Stuck? && Left(o, depth, View())
    {
      ghost var goal := View().ReachTagged(10, Ahead(buf, start, limit), depth);
      next := start - 1;
      var more := true;
      while more
        invariant Valid() && start - 1 <= next <= limit && (!more ==> start <= next)
        invariant Continues(View(), more, buf, next, limit, depth, goal)
        decreases limit - next, more
      {
        ok, more, next := ParseTurn(buf, next, limit, depth, goal);
        if !ok { return; }
      }
      ok := true;
    }

    /** One turn of the fast path: step over the tag, parse an element, look at the next byte. */
    method ParseTurn(buf: bytes, ptr: nat, limit: nat, depth: nat, ghost goal: Outcome<Report>)
      returns (ok: bool, more: bool, next: nat)
      requires Valid()
      requires ptr <= limit <= |buf| && Continues(View(), true, buf, ptr, limit, depth, goal)
      modifies `client, `rows
      ensures Valid()
      ensures ok ==> ptr < next <= limit && Continues(View(), more, buf, next, limit, depth, goal)
      ensures !ok ==> goal.Stuck? && Left(goal, depth, View())
    {
      hide Report.Reach, Report.ReachTagged, Left;
      more := false;
      ok, next := ParseElement(buf, ptr + 1, limit, depth, goal);
      if ok {
        var available := DataAvailable(next, limit);
        if available { more := ExpectTag(View(), buf, next, limit, depth, goal); }
      }
    }

    /** Whether the stream has more input at hand, which depends on how it is buffered. */
    static method DataAvailable(ptr: nat, limit: nat) returns (available: bool)
      ensures available ==> ptr < limit
    {
      available :| available ==> ptr < limit;
    }

    /** Whether the next byte is the tag of another element; the outcome is the same if it is stepped to. */
    static method ExpectTag(
      ghost r: Report, buf: bytes, ptr: nat, limit: nat, ghost depth: nat, ghost goal: Outcome<Report>)
      returns (more: bool)
      requires ptr < limit <= |buf| && Continues(r, false, buf, ptr, limit, depth, goal)
      ensures more <==> buf[ptr] == 10
      ensures Continues(r, more, buf, ptr, limit, depth, goal)
    {
      more := buf[ptr] == 10;
      if more { PeekTag(r, buf, ptr, limit, depth); }
    }

    method ParseElement(buf: bytes, ptr: nat, limit: nat, depth: nat, ghost goal: Outcome<Report>)
      returns (ok: bool, next: nat)
      requires Valid()
      requires ptr <= limit <= |buf| && View().ReachTagged(10, Ahead(buf, ptr, limit), depth) == goal
      modifies `client, `rows
      ensures Valid()
      ensures ok ==> ptr < next <= limit && Continues(View(), false, buf, next, limit, depth, goal)
      ensures !ok ==> goal.Stuck? && Left(goal, depth, View())
    {
      ElementStep(View(), Ahead(buf, ptr, limit), depth);
      ghost var before := View();
      ok, next := ParseMessage(buf, ptr, limit, depth);
      if !ok { ElementLeft(before, Ahead(buf, ptr, limit), depth, View()); }
    }

    /** Adds an element and parses a length-delimited payload into it. */
    method ParseMessage(buf: bytes, ptr: nat, limit: nat, depth: nat) returns (ok: bool, next: nat)
      requires Valid()
      requires ptr <= limit <= |buf|
      modifies `client, `rows
      ensures Valid()
      ensures ok <==> ReadElement(Ahead(buf, ptr, limit), depth).Some?
      ensures ok ==> ptr < next <= limit
                     && ReadElement(Ahead(buf, ptr, limit), depth).value.rest == Ahead(buf, next, limit)
                     && rows == old(rows) + [ReadElement(Ahead(buf, ptr, limit), depth).value.value]
      ensures !ok ==> rows != [] && rows == old(rows) + [rows[|rows| - 1]]
                      && ElementMayBe(Ahead(buf, ptr, limit), depth, rows[|rows| - 1])
    {
      hide Valid, E.Statistic.Reach, E.Statistic.Parse, E.Left;
      var c := AddClient();
      var payload;
      ok, payload, next := NextLen(buf, ptr, limit);
      if !ok || depth == 0 { return false, ptr; }
      ok := ParseLast(c, payload, depth - 1);
    }

    /** Parses a payload into the last element. */
    method ParseLast(c: StatisticMessage, payload: bytes, depth: nat) returns (ok: bool)
      requires Valid() && client != [] && client[|client| - 1] == c && rows[|rows| - 1] == E.DEFAULT
      modifies `rows, c`uuid, c`x1, c`y1, c`x5, c`y5, c`unknown
      ensures Valid() && |rows| == |old(rows)| && rows == old(rows[..|rows| - 1]) + [rows[|rows| - 1]]
      ensures var s, last := Ahead(payload, 0, |payload|), rows[|rows| - 1];
              var o := E.DEFAULT.Reach(s, depth);
              && (ok <==> E.DEFAULT.Parse(s, depth).Some?)
              && (ok ==> E.DEFAULT.Parse(s, depth) == Some(last))
              && (!ok ==> o.Stuck? && E.Left(o, last))
    {
      hide E.Statistic.Reach, E.Statistic.Parse, E.Left;
      ok := c.InternalParse(payload, 0, |payload|, depth);
      rows := rows[..|rows| - 1] + [c.View()];
    }

    method ParseUnknown(tag: uint32, buf: bytes, ptr: nat, limit: nat, depth: nat) returns (ok: bool, next: nat)
      requires tag != 10
      requires ptr <= limit <= |buf|
      modifies `unknown
      ensures var o := old(View()).ReachTagged(tag, Ahead(buf, ptr, limit), depth);
              if ok then ptr <= next <= limit && View().Reach(Ahead(buf, next, limit), depth) == o
              else o.Stuck? && Left(o, depth, View())
    {
      var f;
      ok, f, next := UnknownFieldParse(tag, buf, ptr, limit, depth);
      if ok { unknown := unknown + [f]; }
    }

    method ParseFromString(buf: bytes) returns (ok: bool)
      modifies this
      ensures Valid()
      ensures ok <==> ServerStatistic.ParseFromString(buf).Some?
      ensures ok ==> Some(View()) == ServerStatistic.ParseFromString(buf)
      ensures var o := EMPTY.Reach(buf, RECURSION_LIMIT);
              if ok then o == Done(View()) else o.Stuck? && Left(o, RECURSION_LIMIT, View())
    {
      Clear();
      assert Ahead(buf, 0, |buf|) == buf;
      ok := InternalParse(buf, 0, |buf|, RECURSION_LIMIT);
    }

    // ------------------------------------------------------------ serializing

    /** The size pass over the list; each element keeps its own size for its length prefix. */
    method ByteSizeLong() returns (total: nat)
      requires Valid()
      modifies `cachedSize, client`cachedSize
      ensures Valid()
      ensures total == cachedSize == View().Size() == |View().Serialize()|
      ensures forall i | 0 <= i < |client| :: client[i].cachedSize == |rows[i].Serialize()|
    {
      total := |client|;
      var n := ClientsByteSize();
      total := total + n + UnknownSize(unknown);
      cachedSize := total;
      SizeIsLength(View());
    }

    method ClientsByteSize() returns (total: nat)
      requires Valid()
      modifies client`cachedSize
      ensures Valid()
      ensures total == ClientsSize(rows)
      ensures forall i | 0 <= i < |client| :: client[i].cachedSize == |rows[i].Serialize()|
    {
      hide E.Statistic.Size, E.Statistic.Serialize, LenSize;
      total := 0;
      for i := 0 to |client|
        invariant total == ClientsSize(rows[..i])
        invariant forall j | 0 <= j < i :: client[j].cachedSize == |rows[j].Serialize()|
      {
        ClientsSizeNext(rows, i);
        var n := client[i].ByteSizeLong();
        total := total + LenSize(n);
      }
      assert rows[..|client|] == rows;
    }

    method InternalSerialize(target: bytes) returns (out: bytes)
      requires Valid()
      requires forall i | 0 <= i < |client| :: client[i].cachedSize == |rows[i].Serialize()|
      ensures out == target + View().Serialize()
    {
      out := target;
      for i := 0 to |client|
        invariant out + EncodeAll(ClientFields(rows[i..])) == target + EncodeAll(ClientFields(rows))
      {
        WriteElement(out, rows, i);
        out := out + Varint(Tag(1, 2)) + Varint(client[i].cachedSize);
        out := client[i].InternalSerialize(out);
      }
      assert out + EncodeAll(ClientFields([])) == out;
      WriteNext(target, ClientFields(rows), unknown);
      if unknown != [] { out := out + EncodeAll(unknown); }
    }

    method SerializeAsString() returns (out: bytes)
      requires Valid()
      modifies `cachedSize, client`cachedSize
      ensures Valid()
      ensures out == View().Serialize()
    {
      var n := ByteSizeLong();
      out := InternalSerialize([]);
    }
  }

  /**
    What is left of a parse whose outcome will be `goal`: with `more`, the pointer stands on the
    one-byte tag of a further element; without, at the next turn of the main loop.
   */
  ghost predicate Continues(r: Report, more: bool, buf: bytes, ptr: nat, limit: nat, depth: nat, goal: Outcome<Report>)
    requires ptr <= limit <= |buf|
  {
    if more then ptr < limit && r.ReachTagged(10, Ahead(buf, ptr + 1, limit), depth) == goal
    else r.Reach(Ahead(buf, ptr, limit), depth) == goal
  }

  function ReadElement(s: bytes, depth: nat): Option<Read<E.Statistic>> {
    var v :- ReadLen(s);
    if depth == 0 then None
    else
      var c :- E.DEFAULT.Parse(Ahead(v.value, 0, |v.value|), depth - 1);
      Some(Read(c, v.rest))
  }

  /** What the added element may hold when its parse failed; anything when its payload was not all there. */
  ghost predicate ElementMayBe(s: bytes, depth: nat, c: E.Statistic) {
    ReadLen(s).Some? ==>
      var payload := ReadLen(s).value.value;
      if depth == 0 then c == E.DEFAULT
      else
        var o := E.DEFAULT.Reach(Ahead(payload, 0, |payload|), depth - 1);
        o.Stuck? && E.Left(o, c)
  }

  lemma ElementStep(r: Report, s: bytes, depth: nat)
    ensures r.ReachTagged(10, s, depth) ==
            if ReadElement(s, depth).None? then Stuck(r, Some(10), s)
            else
              var e := ReadElement(s, depth).value;
              Report(r.clients + [e.value], r.unknown).Reach(e.rest, depth)
  {
    KnownTag(1, 2, s, depth);
    if ReadLen(s).Some? {
      var payload := ReadLen(s).value.value;
      assert Ahead(payload, 0, |payload|) == payload;
    }
  }

  lemma ElementLeft(r: Report, s: bytes, depth: nat, m: Report)
    requires m.clients != [] && m == r.(clients := r.clients + [m.clients[|m.clients| - 1]])
    requires ElementMayBe(s, depth, m.clients[|m.clients| - 1])
    ensures Left(Stuck(r, Some(10), s), depth, m)
  {
    if ReadLen(s).Some? {
      var payload := ReadLen(s).value.value;
      assert Ahead(payload, 0, |payload|) == payload;
    }
  }

  /** One byte is enough to recognise the next element's tag. */
  lemma PeekTag(r: Report, buf: bytes, ptr: nat, limit: nat, depth: nat)
    requires ptr < limit <= |buf| && buf[ptr] == 10
    ensures r.Reach(Ahead(buf, ptr, limit), depth) == r.ReachTagged(10, Ahead(buf, ptr + 1, limit), depth)
  {
    var s := Ahead(buf, ptr, limit);
    assert s[1..] == Ahead(buf, ptr + 1, limit);
    assert ReadTag(s) == Some(Read(10, s[1..]));
  }

  lemma ClientsSizeNext(vs: seq<E.Statistic>, i: nat)
    requires i < |vs|
    ensures ClientsSize(vs[..i + 1]) == ClientsSize(vs[..i]) + LenSize(vs[i].Size())
  {
    assert vs[..i + 1] == vs[..i] + [vs[i]];
    ClientsSizeConcat(vs[..i], [vs[i]]);
    assert ClientsSize([vs[i]]) == LenSize(vs[i].Size()) + ClientsSize([]);
  }

  lemma WriteElement(out: bytes, vs: seq<E.Statistic>, i: nat)
    requires i < |vs|
    ensures var body := vs[i].Serialize();
            out + EncodeAll(ClientFields(vs[i..])) ==
            out + Varint(Tag(1, 2)) + Varint(|body|) + body + EncodeAll(ClientFields(vs[i + 1..]))
  {
    var body := vs[i].Serialize();
    assert vs[i..][1..] == vs[i + 1..];
    WriteNext(out, [LenField(1, body)], ClientFields(vs[i + 1..]));
    WriteSubmessage(1, out, body);
  }
}
