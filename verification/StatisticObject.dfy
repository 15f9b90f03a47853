/**
  tz.ServerStatistic.Statistic as the mutable object of the generated code, proved like its sibling
  against the value that the object stands for.
 */
module StatisticObject {
  import opened Wrappers
  import opened Wire
  import opened Scalars
  import opened ServerStatisticEntry

  class StatisticMessage {
    var uuid: bytes
    var x1: uint64
    var y1: uint64
    var x5: uint64
    var y5: uint64
    var unknown: seq<Field>
    var cachedSize: nat

    function View(): Statistic
      reads `uuid, `x1, `y1, `x5, `y5, `unknown
    {
      Statistic(uuid, x1, y1, x5, y5, unknown)
    }

    constructor ()
      ensures View() == DEFAULT
    {
      uuid, x1, y1, x5, y5, unknown, cachedSize := [], 0, 0, 0, 0, [], 0;
    }

    /** The copy constructor takes the scalars bit for bit, negative zeros included. */
    constructor Copy(from: StatisticMessage)
      ensures View() == from.View()
    {
      unknown := from.unknown;
      uuid := if from.uuid != [] then from.uuid else [];
      x1, y1, x5, y5 := from.x1, from.y1, from.x5, from.y5;
      cachedSize := 0;
    }

    method Clear()
      modifies `uuid, `x1, `y1, `x5, `y5, `unknown
      ensures View() == DEFAULT
    {
      uuid := [];
      x1, y1, x5, y5 := 0, 0, 0, 0;
      unknown := [];
    }

    method MergeFrom(from: StatisticMessage)
      requires from != this
      modifies `uuid, `x1, `y1, `x5, `y5, `unknown
      ensures View() == old(View()).Merge(from.View())
    {
      if from.uuid != [] { uuid := from.uuid; }
      if !Skipped(from.x1) { x1 := from.x1; }
      if !Skipped(from.y1) { y1 := from.y1; }
      if !Skipped(from.x5) { x5 := from.x5; }
      if !Skipped(from.y5) { y5 := from.y5; }
      unknown := unknown + from.unknown;
    }

    /** Copying clears and merges, so the copy of a negative zero is a positive one. */
    method CopyFrom(from: StatisticMessage)
      modifies `uuid, `x1, `y1, `x5, `y5, `unknown
      ensures View() == if from == this then old(View()) else from.View().Normal()
    {
      if from == this { return; }
      Clear();
      MergeFrom(from);
      MergeIntoDefault(from.View());
    }

    method InternalSwap(other: StatisticMessage)
      modifies `uuid, `x1, `y1, `x5, `y5, `unknown
      modifies other`uuid, other`x1, other`y1, other`x5, other`y5, other`unknown
      ensures View() == old(other.View()) && other.View() == old(View())
    {
      unknown, other.unknown := other.unknown, unknown;
      uuid, other.uuid := other.uuid, uuid;
      x1, other.x1 := other.x1, x1;
      y1, other.y1 := other.y1, y1;
      x5, other.x5 := other.x5, x5;
      y5, other.y5 := other.y5, y5;
    }

    /**
      Parses the bytes between `ptr` and `limit` into this object, one tag at a time. When the parse
      fails the fields that were read stay, and callers do use them.
     */
    method InternalParse(buf: bytes, start: nat, limit: nat, depth: nat) returns (ok: bool)
      requires start <= limit <= |buf|
      modifies `uuid, `x1, `y1, `x5, `y5, `unknown
      ensures ok <==> old(View()).Parse(Ahead(buf, start, limit), depth).Some?
      ensures ok ==> Some(View()) == old(View()).Parse(Ahead(buf, start, limit), depth)
      ensures var o := old(View()).Reach(Ahead(buf, start, limit), depth);
              if ok then o == Done(View()) else o.Stuck? && Left(o, View())
    {
      var ptr := start;
      ghost var goal := View().Reach(Ahead(buf, start, limit), depth);
      ReachIsParse(View(), Ahead(buf, start, limit), depth);
      while ptr < limit
        invariant start <= ptr <= limit
        invariant View().Reach(Ahead(buf, ptr, limit), depth) == goal
        decreases limit - ptr
      {
        var read, tag, next := NextTag(buf, ptr, limit);
        if !read {
          assert SameBut(View(), View(), 0);
          return false;
        }
        read, next := ParseField(tag, buf, next, limit, depth);
        if !read { return false; }
        ptr := next;
      }
      return true;
    }

    /** The body of the parse loop: the switch over the tag that was just read. */
    method ParseField(tag: uint32, buf: bytes, ptr: nat, limit: nat, depth: nat) returns (ok: bool, next: nat)
      requires ptr <= limit <= |buf|
      modifies `uuid, `x1, `y1, `x5, `y5, `unknown
      ensures ok ==> ptr <= next <= limit
      ensures var f := ReadTagged(tag, Ahead(buf, ptr, limit), depth);
              && (ok <==> f.Some? && old(View()).Apply(f.value.value).Some?)
              && (ok ==> Some(View()) == old(View()).Apply(f.value.value) && Ahead(buf, next, limit) == f.value.rest)
      ensures !ok ==> Left(Stuck(old(View()), Some(tag), Ahead(buf, ptr, limit)), View())
    {
      ghost var s := Ahead(buf, ptr, limit);
      if IsTag(tag, 1, 10) {
        KnownTag(1, 2, s, depth);
        var str;
        ok, str, next := NextLen(buf, ptr, limit);
        if ok {
          uuid := str;
          ok := ValidUtf8(uuid);
        }
      } else if IsTag(tag, 2, 17) {
        KnownTag(2, 1, s, depth);
        var v;
        ok, v, next := NextDouble(buf, ptr, limit);
        x1 := v;
      } else if IsTag(tag, 3, 25) {
        KnownTag(3, 1, s, depth);
        var v;
        ok, v, next := NextDouble(buf, ptr, limit);
        y1 := v;
      } else if IsTag(tag, 4, 33) {
        KnownTag(4, 1, s, depth);
        var v;
        ok, v, next := NextDouble(buf, ptr, limit);
        x5 := v;
      } else if IsTag(tag, 5, 41) {
        KnownTag(5, 1, s, depth);
        var v;
        ok, v, next := NextDouble(buf, ptr, limit);
        y5 := v;
      } else {
        var f;
        ok, f, next := UnknownFieldParse(tag, buf, ptr, limit, depth);
        if ok { unknown := unknown + [f]; }
      }
    }

    /** The size pass; it leaves the size behind for the length prefix that an enclosing message writes. */
    method ByteSizeLong() returns (total: nat)
      modifies `cachedSize
      ensures total == cachedSize == View().Size() == |View().Serialize()|
    {
      total := 0;
      if uuid != [] { total := total + 1 + LenSize(|uuid|); }
      if !Skipped(x1) { total := total + 1 + 8; }
      if !Skipped(y1) { total := total + 1 + 8; }
      if !Skipped(x5) { total := total + 1 + 8; }
      if !Skipped(y5) { total := total + 1 + 8; }
      total := total + UnknownSize(unknown);
      cachedSize := total;
      SizeIsLength(View());
    }

    method InternalSerialize(target: bytes) returns (out: bytes)
      ensures out == target + View().Serialize()
    {
      ghost var y5s := DoubleFields(5, y5) + unknown;
      ghost var x5s := DoubleFields(4, x5) + y5s;
      ghost var y1s := DoubleFields(3, y1) + x5s;
      ghost var x1s := DoubleFields(2, x1) + y1s;
      out := target;
      WriteNext(out, StringFields(1, uuid), x1s);
      if uuid != [] { out := out + Encode(LenField(1, uuid)); }
      WriteNext(out, DoubleFields(2, x1), y1s);
      if !Skipped(x1) { out := out + Encode(Fixed64Field(2, x1)); }
      WriteNext(out, DoubleFields(3, y1), x5s);
      if !Skipped(y1) { out := out + Encode(Fixed64Field(3, y1)); }
      WriteNext(out, DoubleFields(4, x5), y5s);
      if !Skipped(x5) { out := out + Encode(Fixed64Field(4, x5)); }
      WriteNext(out, DoubleFields(5, y5), unknown);
      if !Skipped(y5) { out := out + Encode(Fixed64Field(5, y5)); }
      if unknown != [] { out := out + EncodeAll(unknown); }
    }
  }
}
