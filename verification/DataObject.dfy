/**
  tz.ClientPacket.Data as the mutable object the generated code works on. Every method is proved
  against the value that the object stands for.
 */
module DataObject {
  import opened Wrappers
  import opened Wire
  import opened Scalars
  import opened ClientPacketData

  class DataMessage {
    var uuid: bytes
    var timestamp: int64
    var x: uint64
    var y: uint64
    var unknown: seq<Field>
    var cachedSize: nat

    function View(): Data
      reads `uuid, `timestamp, `x, `y, `unknown
    {
      Data(uuid, timestamp, x, y, unknown)
    }

    constructor ()
      ensures View() == DEFAULT
    {
      uuid, timestamp, x, y, unknown, cachedSize := [], 0, 0, 0, [], 0;
    }

    /** The copy constructor takes the scalars bit for bit, negative zeros included. */
    constructor Copy(from: DataMessage)
      ensures View() == from.View()
    {
      unknown := from.unknown;
      uuid := if from.uuid != [] then from.uuid else [];
      timestamp, x, y := from.timestamp, from.x, from.y;
      cachedSize := 0;
    }

    method Clear()
      modifies `uuid, `timestamp, `x, `y, `unknown
      ensures View() == DEFAULT
    {
      uuid := [];
      timestamp, x, y := 0, 0, 0;
      unknown := [];
    }

    method MergeFrom(from: DataMessage)
      requires from != this
      modifies `uuid, `timestamp, `x, `y, `unknown
      ensures View() == old(View()).Merge(from.View())
    {
      if from.uuid != [] { uuid := from.uuid; }
      if from.timestamp != 0 { timestamp := from.timestamp; }
      if !Skipped(from.x) { x := from.x; }
      if !Skipped(from.y) { y := from.y; }
      unknown := unknown + from.unknown;
    }

    /** Copying clears and merges, so the copy of a negative zero is a positive one. */
    method CopyFrom(from: DataMessage)
      modifies `uuid, `timestamp, `x, `y, `unknown
      ensures View() == if from == this then old(View()) else from.View().Normal()
    {
      if from == this { return; }
      Clear();
      MergeFrom(from);
      MergeIntoDefault(from.View());
    }

    method InternalSwap(other: DataMessage)
      modifies `uuid, `timestamp, `x, `y, `unknown
      modifies other`uuid, other`timestamp, other`x, other`y, other`unknown
      ensures View() == old(other.View()) && other.View() == old(View())
    {
      unknown, other.unknown := other.unknown, unknown;
      uuid, other.uuid := other.uuid, uuid;
      timestamp, other.timestamp := other.timestamp, timestamp;
      x, other.x := other.x, x;
      y, other.y := other.y, y;
    }

    /**
      Parses the bytes between `ptr` and `limit` into this object, one tag at a time. When the parse
      fails the fields that were read stay, and callers do use them.
     */
    method InternalParse(buf: bytes, start: nat, limit: nat, depth: nat) returns (ok: bool)
      requires start <= limit <= |buf|
      modifies `uuid, `timestamp, `x, `y, `unknown
      ensures ok <==> old(View()).Parse(Ahead(buf, start, limit), depth).Some?
      ensures ok ==> Some(View()) == old(View()).Parse(Ahead(buf, start, limit), depth)
      ensures var o := old(View()).Reach(Ahead(buf, start, limit), depth);
              if ok then o == Done(View()) else o.Stuck? && Left(o, View())
    {
      var ptr := start;
      ghost var goal := View().Reach(Ahead(buf, start, limit), depth);
      ReachIsParse(View(), Ahead(buf, start, limit), depth);
      while ptr < limit
        invariant start <= ptr <= limit
        invariant View().Reach(Ahead(buf, ptr, limit), depth) == goal
        decreases limit - ptr
      {
        var read, tag, next := NextTag(buf, ptr, limit);
        if !read {
          assert SameBut(View(), View(), 0);
          return false;
        }
        read, next := ParseField(tag, buf, next, limit, depth);
        if !read { return false; }
        ptr := next;
      }
      return true;
    }

    /** The body of the parse loop: the switch over the tag that was just read. */
    method ParseField(tag: uint32, buf: bytes, ptr: nat, limit: nat, depth: nat) returns (ok: bool, next: nat)
      requires ptr <= limit <= |buf|
      modifies `uuid, `timestamp, `x, `y, `unknown
      ensures ok ==> ptr <= next <= limit
      ensures var f := ReadTagged(tag, Ahead(buf, ptr, limit), depth);
              && (ok <==> f.Some? && old(View()).Apply(f.value.value).Some?)
              && (ok ==> Some(View()) == old(View()).Apply(f.value.value) && Ahead(buf, next, limit) == f.value.rest)
      ensures !ok ==> Left(Stuck(old(View()), Some(tag), Ahead(buf, ptr, limit)), View())
    {
      ghost var s := Ahead(buf, ptr, limit);
      if IsTag(tag, 1, 10) {
        KnownTag(1, 2, s, depth);
        var str;
        ok, str, next := NextLen(buf, ptr, limit);
        if ok {
          uuid := str;
          ok := ValidUtf8(uuid);
        }
      } else if IsTag(tag, 2, 16) {
        KnownTag(2, 0, s, depth);
        var v;
        ok, v, next := NextUint64(buf, ptr, limit);
        timestamp := ToInt64(v);
      } else if IsTag(tag, 3, 25) {
        KnownTag(3, 1, s, depth);
        var v;
        ok, v, next := NextDouble(buf, ptr, limit);
        x := v;
      } else if IsTag(tag, 4, 33) {
        KnownTag(4, 1, s, depth);
        var v;
        ok, v, next := NextDouble(buf, ptr, limit);
        y := v;
      } else {
        var f;
        ok, f, next := UnknownFieldParse(tag, buf, ptr, limit, depth);
        if ok { unknown := unknown + [f]; }
      }
    }

    /** The size pass; it leaves the size behind for the length prefix that an enclosing message writes. */
    method ByteSizeLong() returns (total: nat)
      modifies `cachedSize
      ensures total == cachedSize == View().Size() == |View().Serialize()|
    {
      total := 0;
      if uuid != [] { total := total + 1 + LenSize(|uuid|); }
      if timestamp != 0 { total := total + 1 + VarintSize(ToUint64(timestamp)); }
      if !Skipped(x) { total := total + 1 + 8; }
      if !Skipped(y) { total := total + 1 + 8; }
      total := total + UnknownSize(unknown);
      cachedSize := total;
      SizeIsLength(View());
    }

    method InternalSerialize(target: bytes) returns (out: bytes)
      ensures out == target + View().Serialize()
    {
      ghost var ys := DoubleFields(4, y) + unknown;
      ghost var xs := DoubleFields(3, x) + ys;
      ghost var ts := Int64Fields(2, timestamp) + xs;
      out := target;
      WriteNext(out, StringFields(1, uuid), ts);
      if uuid != [] { out := out + Encode(LenField(1, uuid)); }
      WriteNext(out, Int64Fields(2, timestamp), xs);
      if timestamp != 0 { out := out + Encode(VarintField(2, ToUint64(timestamp))); }
      WriteNext(out, DoubleFields(3, x), ys);
      if !Skipped(x) { out := out + Encode(Fixed64Field(3, x)); }
      WriteNext(out, DoubleFields(4, y), unknown);
      if !Skipped(y) { out := out + Encode(Fixed64Field(4, y)); }
      if unknown != [] { out := out + EncodeAll(unknown); }
    }
  }
}
