/**
  tz.ClientPacket as the mutable object of the generated code: a has-bit beside a submessage that is
  kept, cleared, for reuse. `Valid` is the invariant every method keeps; it is what makes `View` a
  faithful account of the object and keeps a reused packet from bringing old values back.
 */
module PacketObject {
  import opened Wrappers
  import opened Wire
  import opened Scalars
  import opened ClientPacket
  import D = ClientPacketData
  import opened DataObject

  class PacketMessage {
    var hasData: bool
    var data: DataMessage?
    var kind: int32
    var unknown: seq<Field>
    var cachedSize: nat

    predicate Valid()
      reads `hasData, `data, data
    {
      && (hasData ==> data != null)
      && (!hasData && data != null ==> data.View() == D.DEFAULT)
    }

    function View(): Packet
      requires Valid()
      reads `hasData, `data, `kind, `unknown, data
    {
      Packet(kind, if hasData then Some(data.View()) else None, unknown)
    }

    constructor ()
      ensures Valid() && View() == EMPTY && data == null
    {
      hasData, data, kind, unknown, cachedSize := false, null, 0, [], 0;
    }

    /** The copy constructor takes the has-bit as it is and copies the submessage behind it. */
    constructor Copy(from: PacketMessage)
      requires from.Valid()
      ensures Valid() && View() == from.View()
      ensures data != null ==> fresh(data)
    {
      hasData, kind, unknown, cachedSize := from.hasData, from.kind, from.unknown, 0;
      data := null;
      new;
      if from.hasData { data := new DataMessage.Copy(from.data); }
    }

    method Clear()
      requires Valid()
      modifies this, data
      ensures Valid() && data == old(data) && View() == EMPTY
    {
      if hasData { data.Clear(); }
      kind := 0;
      hasData := false;
      unknown := [];
    }

    // ------------------------------------------------------------ accessors

    method HasData() returns (has: bool)
      requires Valid()
      ensures has <==> View().data.Some?
    {
      has := hasData;
    }

    /** Reading the submessage never shows anything but its value or the defaults. */
    method GetData() returns (d: D.Data)
      requires Valid()
      ensures d == View().data.GetOr(D.DEFAULT)
    {
      d := if data != null then data.View() else D.DEFAULT;
    }

    method ClearData()
      requires Valid()
      modifies `hasData, data
      ensures Valid() && data == old(data) && View() == old(View()).(data := None)
    {
      if data != null { data.Clear(); }
      hasData := false;
    }

    method ReleaseData() returns (temp: DataMessage?)
      requires Valid()
      modifies `hasData, `data
      ensures Valid() && data == null && View() == old(View()).(data := None)
      ensures temp == old(data)
      ensures temp != null ==> temp.View() == old(View()).data.GetOr(D.DEFAULT)
    {
      hasData := false;
      temp := data;
      data := null;
    }

    method MutableData() returns (d: DataMessage)
      requires Valid()
      modifies `hasData, `data
      ensures Valid() && hasData && d == data && (d == old(data) || fresh(d))
      ensures View() == old(View()).(data := Some(old(View()).data.GetOr(D.DEFAULT)))
    {
      hasData := true;
      if data == null { data := new DataMessage(); }
      d := data;
    }

    /** Takes over an object, or drops the submessage when there is none to take. */
    method SetAllocatedData(d: DataMessage?)
      requires Valid()
      modifies `hasData, `data
      ensures Valid() && data == d
      ensures View() == old(View()).(data := if d == null then None else Some(d.View()))
    {
      hasData := d != null;
      data := d;
    }

    // ------------------------------------------------------------ merging, copying, swapping

    method MergeFrom(from: PacketMessage)
      requires Valid() && from.Valid()
      requires from != this && (data == null || data != from.data)
      modifies this, data
      ensures Valid() && (data == old(data) || fresh(data))
      ensures View() == old(View()).Merge(old(from.View()))
      ensures from.Valid() && from.View() == old(from.View())
    {
      if from.hasData {
        var d := MutableData();
        d.MergeFrom(from.data);
      }
      if from.kind != 0 { kind := from.kind; }
      unknown := unknown + from.unknown;
    }

    /** Copying keeps everything but the sign of a zero, whatever the target held before. */
    method CopyFrom(from: PacketMessage)
      requires Valid() && from.Valid()
      requires from == this || data == null || data != from.data
      modifies this, data
      ensures Valid() && (data == old(data) || fresh(data))
      ensures from != this ==> View() == old(from.View()).Normal()
      ensures from == this ==> View() == old(View())
      ensures from.Valid() && (from != this ==> from.View() == old(from.View()))
    {
      if from == this { return; }
      Clear();
      MergeFrom(from);
      MergeIntoEmpty(from.View());
    }

    method InternalSwap(other: PacketMessage)
      requires Valid() && other.Valid()
      modifies this, other
      ensures Valid() && other.Valid()
      ensures View() == old(other.View()) && other.View() == old(View())
      ensures data == old(other.data) && other.data == old(data)
    {
      unknown, other.unknown := other.unknown, unknown;
      hasData, other.hasData := other.hasData, hasData;
      data, other.data := other.data, data;
      kind, other.kind := other.kind, kind;
    }

    /**
      Move assignment: objects of one arena trade contents, so the value arrives bit for bit; across
      arenas it is a copy, which loses the sign of a zero and leaves the source alone.
     */
    method MoveAssign(from: PacketMessage, sameArena: bool)
      requires Valid() && from.Valid()
      requires from == this || data == null || data != from.data
      modifies this, data, from
      ensures Valid() && from.Valid()
      ensures from == this ==> View() == old(View())
      ensures from != this && sameArena ==> View() == old(from.View()) && from.View() == old(View())
      ensures from != this && !sameArena ==> View() == old(from.View()).Normal() && from.View() == old(from.View())
    {
      if from == this { return; }
      if sameArena { InternalSwap(from); } else { CopyFrom(from); }
    }

    // ------------------------------------------------------------ parsing

    method InternalParse(buf: bytes, start: nat, limit: nat, depth: nat) returns (ok: bool)
      requires Valid()
      requires start <= limit <= |buf|
      modifies this, data
      ensures Valid() && (data == old(data) || fresh(data))
      ensures ok <==> old(View()).Parse(Ahead(buf, start, limit), depth).Some?
      ensures ok ==> Some(View()) == old(View()).Parse(Ahead(buf, start, limit), depth)
      ensures var o := old(View()).Reach(Ahead(buf, start, limit), depth);
              if ok then o == Done(View()) else o.Stuck? && Left(o, depth, View())
    {
      var ptr := start;
      ghost var goal := View().Reach(Ahead(buf, start, limit), depth);
      ReachIsParse(View(), Ahead(buf, start, limit), depth);
      while ptr < limit
        invariant start <= ptr <= limit
        invariant Valid() && (data == old(data) || fresh(data))
        invariant View().Reach(Ahead(buf, ptr, limit), depth) == goal
        decreases limit - ptr
      {
        var read, tag, next := NextTag(buf, ptr, limit);
        if !read {
          assert SameBut(View(), View(), 0);
          return false;
        }
        read, next := ParseField(tag, buf, next, limit, depth);
        if !read { return false; }
        ptr := next;
      }
      return true;
    }

    method ParseField(tag: uint32, buf: bytes, ptr: nat, limit: nat, depth: nat) returns (ok: bool, next: nat)
      requires Valid()
      requires ptr <= limit <= |buf|
      modifies this, data
      ensures Valid() && (data == old(data) || fresh(data))
      ensures ok ==> ptr <= next <= limit
      ensures var f := ReadTagged(tag, Ahead(buf, ptr, limit), depth);
              && (ok <==> f.Some? && old(View()).Apply(f.value.value, depth).Some?)
              && (ok ==> Some(View()) == old(View()).Apply(f.value.value, depth)
                         && Ahead(buf, next, limit) == f.value.rest)
      ensures !ok ==> Left(Stuck(old(View()), Some(tag), Ahead(buf, ptr, limit)), depth, View())
    {
      ghost var s := Ahead(buf, ptr, limit);
      if IsTag(tag, 1, 8) {
        KnownTag(1, 0, s, depth);
        var v;
        ok, v, next := NextUint64(buf, ptr, limit);
        if ok { kind := ToInt32(v); }
      } else if IsTag(tag, 2, 18) {
        KnownTag(2, 2, s, depth);
        ok, next := ParseMessage(buf, ptr, limit, depth);
      } else {
        var f;
        ok, f, next := UnknownFieldParse(tag, buf, ptr, limit, depth);
        if ok { unknown := unknown + [f]; }
      }
    }

    /** Creates or reuses the submessage, then parses a length-delimited payload into it. */
    method ParseMessage(buf: bytes, ptr: nat, limit: nat, depth: nat) returns (ok: bool, next: nat)
      requires Valid()
      requires ptr <= limit <= |buf|
      modifies this, data
      ensures Valid() && (data == old(data) || fresh(data))
      ensures ok ==> ptr <= next <= limit
      ensures var v := ReadLen(Ahead(buf, ptr, limit));
              && (ok <==> v.Some? && old(View()).Apply(LenField(2, v.value.value), depth).Some?)
              && (ok ==> Some(View()) == old(View()).Apply(LenField(2, v.value.value), depth)
                         && Ahead(buf, next, limit) == v.value.rest)
              && (!ok ==> SameBut(old(View()), View(), 18)
                          && (v.Some? ==> DataLeft(old(View()), v.value.value, depth, View())))
    {
      var d := MutableData();
      var payload;
      ok, payload, next := NextLen(buf, ptr, limit);
      if !ok || depth == 0 { return false, ptr; }
      assert Ahead(payload, 0, |payload|) == payload;
      ok := d.InternalParse(payload, 0, |payload|, depth - 1);
    }

    /** Whatever the packet held before, it ends up holding what the bytes say and nothing else. */
    method ParseFromString(buf: bytes) returns (ok: bool)
      requires Valid()
      modifies this, data
      ensures Valid()
      ensures ok <==> ClientPacket.ParseFromString(buf).Some?
      ensures ok ==> Some(View()) == ClientPacket.ParseFromString(buf)
      ensures var o := EMPTY.Reach(buf, RECURSION_LIMIT);
              if ok then o == Done(View()) else o.Stuck? && Left(o, RECURSION_LIMIT, View())
    {
      Clear();
      assert Ahead(buf, 0, |buf|) == buf;
      ok := InternalParse(buf, 0, |buf|, RECURSION_LIMIT);
    }

    // ------------------------------------------------------------ serializing

    method ByteSizeLong() returns (total: nat)
      requires Valid()
      modifies `cachedSize, data
      ensures Valid() && View() == old(View())
      ensures total == cachedSize == View().Size() == |View().Serialize()|
      ensures hasData ==> data.cachedSize == |data.View().Serialize()|
    {
      total := 0;
      if hasData {
        var n := data.ByteSizeLong();
        total := total + 1 + LenSize(n);
      }
      if kind != 0 { total := total + 1 + VarintSize(ToUint64(kind)); }
      total := total + UnknownSize(unknown);
      cachedSize := total;
      SizeIsLength(View());
    }

    /** Writes the cached size as the length prefix; the size pass must have run since the last change. */
    method InternalSerialize(target: bytes) returns (out: bytes)
      requires Valid()
      requires hasData ==> data.cachedSize == |data.View().Serialize()|
      ensures out == target + View().Serialize()
    {
      WriteNext(target, Int64Fields(1, kind), DataFields(View().data) + unknown);
      out := target;
      if kind != 0 { out := out + Encode(VarintField(1, ToUint64(kind))); }
      WriteNext(out, DataFields(View().data), unknown);
      if hasData {
        ghost var before := out;
        out := out + Varint(Tag(2, 2)) + Varint(data.cachedSize);
        out := data.InternalSerialize(out);
        WriteSubmessage(2, before, data.View().Serialize());
      }
      if unknown != [] { out := out + EncodeAll(unknown); }
    }

    /** The two passes together: every length prefix is the length of what follows it. */
    method SerializeAsString() returns (out: bytes)
      requires Valid()
      modifies `cachedSize, data
      ensures Valid() && View() == old(View())
      ensures out == View().Serialize()
    {
      var n := ByteSizeLong();
      out := InternalSerialize([]);
    }
  }
}
