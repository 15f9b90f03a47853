/**
  The two-window statistics as a group-by: for each client the average of x and the sum of |y| over
  the samples of the last minute and of the last five minutes. All measures are sums of a weight over
  the samples, which is what makes them independent of the order in which rows are fetched.
 */
module Statistics {
  import opened Wrappers
  import opened Wire
  import opened Tables

  /** One minute in ticks of the system clock, 100 nanoseconds each. */
  const TICKS_PER_SECOND := 10_000_000
  const MINUTE := 60 * TICKS_PER_SECOND

  datatype Measure = Count | X | AbsY

  function Abs(r: real): real {
    if r < 0.0 then -r else r
  }

  /** What a sample contributes to a measure of the window that starts at `since`. */
  function Weight(m: Measure, s: Sample, since: int): real {
    if s.timestamp < since then 0.0
    else match m
      case Count => 1.0
      case X => s.x
      case AbsY => Abs(s.y)
  }

  function Total(m: Measure, rows: seq<Sample>, since: int): real {
    if rows == [] then 0.0
    else Total(m, rows[..|rows| - 1], since) + Weight(m, rows[|rows| - 1], since)
  }

  function Average(rows: seq<Sample>, since: int): real {
    if Total(Count, rows, since) == 0.0 then 0.0 else Total(X, rows, since) / Total(Count, rows, since)
  }

  datatype Stat = Stat(uuid: Key, x1: real, y1: real, x5: real, y5: real)

  /** The line reported for a client, when its five-minute window holds anything at all. */
  function Summary(uuid: Key, rows: seq<Sample>, now: int): Option<Stat> {
    var since1, since5 := now - MINUTE, now - 5 * MINUTE;
    var y1, y5 := Total(AbsY, rows, since1), Total(AbsY, rows, since5);
    if Total(Count, rows, since5) == 0.0 then None
    else Some(Stat(uuid, Average(rows, since1), y1, Average(rows, since5), y5))
  }

  function RowsOf(db: Database, key: Key): seq<Sample> {
    match Find(db.clients, key)
    case None => []
    case Some(id) => SamplesOf(db.packets, id)
  }

  /** What a collection at `now` reports for a key. */
  function ReportFor(db: Database, key: Key, now: int): Option<Stat> {
    Summary(key, RowsOf(db, key), now)
  }

  // ---------------------------------------------------------------- sums over samples

  lemma {:induction false} TotalConcat(m: Measure, a: seq<Sample>, b: seq<Sample>, since: int)
    ensures Total(m, a + b, since) == Total(m, a, since) + Total(m, b, since)
    decreases |b|
  {
    if b == [] {
      assert a + b == a;
    } else {
      assert (a + b)[..|a + b| - 1] == a + b[..|b| - 1];
      TotalConcat(m, a, b[..|b| - 1], since);
    }
  }

  lemma TotalOne(m: Measure, s: Sample, since: int)
    ensures Total(m, [s], since) == Weight(m, s, since)
  {
    assert [s][..0] == [];
  }

  lemma TotalWithout(m: Measure, rows: seq<Sample>, i: nat, since: int)
    requires i < |rows|
    ensures Total(m, rows, since) == Total(m, rows[..i] + rows[i + 1..], since) + Weight(m, rows[i], since)
    ensures multiset(rows) == multiset(rows[..i] + rows[i + 1..]) + multiset{rows[i]}
  {
    assert rows == rows[..i] + ([rows[i]] + rows[i + 1..]);
    TotalConcat(m, rows[..i], [rows[i]] + rows[i + 1..], since);
    TotalConcat(m, [rows[i]], rows[i + 1..], since);
    TotalConcat(m, rows[..i], rows[i + 1..], since);
    TotalOne(m, rows[i], since);
  }

  lemma Cancel(a: multiset<Sample>, b: multiset<Sample>, s: Sample)
    ensures a + multiset{s} <= b + multiset{s} ==> a <= b
    ensures a + multiset{s} == b + multiset{s} ==> a == b
  {
    assert a == (a + multiset{s}) - multiset{s};
    assert b == (b + multiset{s}) - multiset{s};
    if a + multiset{s} <= b + multiset{s} {
      forall x ensures a[x] <= b[x] {
        assert (a + multiset{s})[x] <= (b + multiset{s})[x];
      }
    }
  }

  lemma {:induction false} TotalNonNegative(m: Measure, rows: seq<Sample>, since: int)
    requires m != X
    ensures Total(m, rows, since) >= 0.0
  {
    if rows != [] { TotalNonNegative(m, rows[..|rows| - 1], since); }
  }

  /** A bag of samples inside another measures no more than it. */
  lemma {:induction false} TotalMonotone(m: Measure, a: seq<Sample>, b: seq<Sample>, since: int)
    requires m != X && multiset(a) <= multiset(b)
    ensures Total(m, a, since) <= Total(m, b, since)
    decreases |a|
  {
    if a == [] {
      TotalNonNegative(m, b, since);
    } else {
      var s, rest := a[|a| - 1], a[..|a| - 1];
      assert multiset(a) == multiset(rest) + multiset{s} by { assert a == rest + [s]; }
      assert s in multiset(b);
      var i :| 0 <= i < |b| && b[i] == s;
      TotalWithout(m, b, i, since);
      Cancel(multiset(rest), multiset(b[..i] + b[i + 1..]), s);
      TotalMonotone(m, rest, b[..i] + b[i + 1..], since);
    }
  }

  /** Every measure depends on which samples were fetched, not on the order they came in. */
  lemma {:induction false} TotalPermutation(m: Measure, a: seq<Sample>, b: seq<Sample>, since: int)
    requires multiset(a) == multiset(b)
    ensures Total(m, a, since) == Total(m, b, since)
    decreases |a|
  {
    if a == [] {
      assert |b| == |multiset(b)|;
    } else {
      var s, rest := a[|a| - 1], a[..|a| - 1];
      assert multiset(a) == multiset(rest) + multiset{s} by { assert a == rest + [s]; }
      assert s in multiset(b);
      var i :| 0 <= i < |b| && b[i] == s;
      TotalWithout(m, b, i, since);
      Cancel(multiset(rest), multiset(b[..i] + b[i + 1..]), s);
      TotalPermutation(m, rest, b[..i] + b[i + 1..], since);
    }
  }

  lemma SummaryPermutation(uuid: Key, a: seq<Sample>, b: seq<Sample>, now: int)
    requires multiset(a) == multiset(b)
    ensures Summary(uuid, a, now) == Summary(uuid, b, now)
  {
    forall m: Measure, since: int ensures Total(m, a, since) == Total(m, b, since) {
      TotalPermutation(m, a, b, since);
    }
  }

  /** A later start makes a smaller window. */
  lemma {:induction false} TotalShrinks(m: Measure, rows: seq<Sample>, early: int, late: int)
    requires m != X && early <= late
    ensures Total(m, rows, late) <= Total(m, rows, early)
  {
    if rows != [] { TotalShrinks(m, rows[..|rows| - 1], early, late); }
  }

  // ---------------------------------------------------------------- what a line means

  function Window(rows: seq<Sample>, since: int): seq<Sample> {
    if rows == [] then []
    else Window(rows[..|rows| - 1], since) + if rows[|rows| - 1].timestamp >= since then [rows[|rows| - 1]] else []
  }

  /** The count is the number of samples in the window, and an empty window is the only uncounted one. */
  lemma {:induction false} CountIsWindowSize(rows: seq<Sample>, since: int)
    ensures Total(Count, rows, since) == |Window(rows, since)| as real
    ensures Total(Count, rows, since) == 0.0 <==> forall s | s in rows :: s.timestamp < since
  {
    if rows != [] {
      var rest, last := rows[..|rows| - 1], rows[|rows| - 1];
      CountIsWindowSize(rest, since);
      TotalNonNegative(Count, rest, since);
      assert rows == rest + [last];
      assert last in rows;
    }
  }

  /** The sum of x over a window lies between the window's bounds times its count. */
  lemma {:induction false} SumBounds(rows: seq<Sample>, since: int, lo: real, hi: real)
    requires forall s | s in rows && s.timestamp >= since :: lo <= s.x <= hi
    ensures lo * Total(Count, rows, since) <= Total(X, rows, since) <= hi * Total(Count, rows, since)
  {
    if rows != [] {
      var last := rows[|rows| - 1];
      assert last in rows;
      SumBounds(rows[..|rows| - 1], since, lo, hi);
      Distribute(lo, Total(Count, rows[..|rows| - 1], since), Weight(Count, last, since));
      Distribute(hi, Total(Count, rows[..|rows| - 1], since), Weight(Count, last, since));
    }
  }

  lemma Distribute(a: real, b: real, c: real)
    ensures a * (b + c) == a * b + a * c
  {
  }

  /** The reported average lies between the smallest and the largest x of its window. */
  lemma AverageBounds(rows: seq<Sample>, since: int, lo: real, hi: real)
    requires forall s | s in rows && s.timestamp >= since :: lo <= s.x <= hi
    requires exists s | s in rows :: s.timestamp >= since
    ensures lo <= Average(rows, since) <= hi
  {
    CountIsWindowSize(rows, since);
    TotalNonNegative(Count, rows, since);
    SumBounds(rows, since, lo, hi);
    Quotient(Total(X, rows, since), Total(Count, rows, since), lo, hi);
  }

  lemma Quotient(sum: real, count: real, lo: real, hi: real)
    requires count > 0.0 && lo * count <= sum <= hi * count
    ensures lo <= sum / count <= hi
  {
    var q := sum / count;
    assert q * count == sum;
    if q < lo { Scale(q, lo, count); }
    if q > hi { Scale(hi, q, count); }
  }

  lemma Scale(a: real, b: real, c: real)
    requires a < b && c > 0.0
    ensures a * c < b * c
  {
  }

  /**
    One line per client exactly when it has a sample in the last five minutes; the minute is part of
    the five minutes, so its sum is no larger; an empty minute reports zeros.
   */
  lemma SummaryMeaning(uuid: Key, rows: seq<Sample>, now: int)
    ensures Summary(uuid, rows, now).Some? <==> exists s | s in rows :: s.timestamp >= now - 5 * MINUTE
    ensures Summary(uuid, rows, now).Some? ==>
              var r := Summary(uuid, rows, now).value;
              && r.uuid == uuid
              && 0.0 <= r.y1 <= r.y5
              && r.x1 * (|Window(rows, now - MINUTE)| as real) == Total(X, rows, now - MINUTE)
              && r.x5 * (|Window(rows, now - 5 * MINUTE)| as real) == Total(X, rows, now - 5 * MINUTE)
              && ((forall s | s in rows :: s.timestamp < now - MINUTE) ==> r.x1 == 0.0 && r.y1 == 0.0)
  {
    hide Total, Window, Average;
    CountIsWindowSize(rows, now - 5 * MINUTE);
    AverageIsExact(rows, now - MINUTE);
    AverageIsExact(rows, now - 5 * MINUTE);
    TotalNonNegative(AbsY, rows, now - MINUTE);
    TotalShrinks(AbsY, rows, now - 5 * MINUTE, now - MINUTE);
    if forall s | s in rows :: s.timestamp < now - MINUTE {
      EmptyWindow(AbsY, rows, now - MINUTE);
      EmptyAverage(rows, now - MINUTE);
    }
  }

  /** Times the size of its window an average is the window's sum. */
  lemma AverageIsExact(rows: seq<Sample>, since: int)
    ensures Average(rows, since) * (|Window(rows, since)| as real) == Total(X, rows, since)
  {
    hide Total, Window;
    CountIsWindowSize(rows, since);
    var count := Total(Count, rows, since);
    if count == 0.0 {
      EmptyWindow(X, rows, since);
    } else {
      assert Total(X, rows, since) / count * count == Total(X, rows, since);
    }
  }

  // The meaning of a line once more, in plain sums and numbers.

  function Sum(rs: seq<real>): real {
    if rs == [] then 0.0 else rs[0] + Sum(rs[1..])
  }

  lemma {:induction false} SumConcat(a: seq<real>, b: seq<real>)
    ensures Sum(a + b) == Sum(a) + Sum(b)
    ensures |a| == 1 ==> Sum(a) == a[0]
    ensures a == [] ==> Sum(a) == 0.0
  {
    if a == [] {
      assert a + b == b;
    } else {
      assert (a + b)[0] == a[0] && (a + b)[1..] == a[1..] + b;
      SumConcat(a[1..], b);
    }
  }

  /** A window holds exactly the samples from its start on, each as often as it was given. */
  lemma {:induction false} WindowIsFilter(rows: seq<Sample>, since: int, s: Sample)
    ensures multiset(Window(rows, since))[s] == if s.timestamp >= since then multiset(rows)[s] else 0
  {
    if rows != [] {
      WindowIsFilter(rows[..|rows| - 1], since, s);
      assert rows == rows[..|rows| - 1] + [rows[|rows| - 1]];
    }
  }

  /** A measure is the plain sum, over the window, of what each of its samples contributes. */
  lemma {:induction false} TotalIsSum(m: Measure, rows: seq<Sample>, since: int, vs: seq<real>)
    requires |vs| == |Window(rows, since)|
    requires forall i | 0 <= i < |vs| :: vs[i] == Weight(m, Window(rows, since)[i], since)
    ensures Total(m, rows, since) == Sum(vs)
  {
    if rows != [] {
      var rest, last := rows[..|rows| - 1], rows[|rows| - 1];
      var n := |Window(rest, since)|;
      TotalIsSum(m, rest, since, vs[..n]);
      assert vs == vs[..n] + vs[n..];
      SumConcat(vs[..n], vs[n..]);
      SumConcat(vs[n..], []);
    }
  }

  /** `ys` are the absolute values of y over a window: of y and -y the one that is not negative. */
  predicate AbsoluteYs(ys: seq<real>, window: seq<Sample>) {
    && |ys| == |window|
    && forall i | 0 <= i < |ys| :: ys[i] >= 0.0 && (ys[i] == window[i].y || ys[i] == -window[i].y)
  }

  predicate Xs(xs: seq<real>, window: seq<Sample>) {
    |xs| == |window| && forall i | 0 <= i < |xs| :: xs[i] == window[i].x
  }

  /**
    The sums of a line are those of |y| over its two windows, which start 600,000,000 and 3,000,000,000 ticks
    before `now`, and its averages are the sums of x over the sizes of the same windows, or zero.
   */
  lemma LineSums(uuid: Key, rows: seq<Sample>, now: int,
                 ys1: seq<real>, ys5: seq<real>, xs1: seq<real>, xs5: seq<real>)
    requires var w1, w5 := Window(rows, now - 600_000_000), Window(rows, now - 3_000_000_000);
             AbsoluteYs(ys1, w1) && AbsoluteYs(ys5, w5) && Xs(xs1, w1) && Xs(xs5, w5)
    ensures Summary(uuid, rows, now).Some? <==> xs5 != []
    ensures Summary(uuid, rows, now).Some? ==>
              var r := Summary(uuid, rows, now).value;
              && r.uuid == uuid
              && r.y1 == Sum(ys1) && r.y5 == Sum(ys5)
              && r.x1 == (if xs1 == [] then 0.0 else Sum(xs1) / |xs1| as real)
              && r.x5 == Sum(xs5) / |xs5| as real
  {
    hide Total, Window, Average, Sum, AbsoluteYs, Xs;
    var since1, since5 := now - 600_000_000, now - 3_000_000_000;
    WindowSums(rows, since1, ys1, xs1);
    WindowSums(rows, since5, ys5, xs5);
    assert now - MINUTE == since1 && now - 5 * MINUTE == since5;
  }

  lemma WindowSums(rows: seq<Sample>, since: int, ys: seq<real>, xs: seq<real>)
    requires AbsoluteYs(ys, Window(rows, since)) && Xs(xs, Window(rows, since))
    ensures Total(Count, rows, since) == |xs| as real
    ensures Total(AbsY, rows, since) == Sum(ys)
    ensures Total(X, rows, since) == Sum(xs)
    ensures Average(rows, since) == if xs == [] then 0.0 else Sum(xs) / |xs| as real
  {
    hide Total, Window, Sum;
    WindowTimes(rows, since);
    CountIsWindowSize(rows, since);
    var window := Window(rows, since);
    forall i | 0 <= i < |window| ensures window[i].timestamp >= since {
      assert window[i] in window;
    }
    TotalIsSum(AbsY, rows, since, ys);
    TotalIsSum(X, rows, since, xs);
  }

  lemma {:induction false} WindowTimes(rows: seq<Sample>, since: int)
    ensures forall s | s in Window(rows, since) :: s.timestamp >= since
  {
    if rows != [] { WindowTimes(rows[..|rows| - 1], since); }
  }

  lemma EmptyAverage(rows: seq<Sample>, since: int)
    requires forall s | s in rows :: s.timestamp < since
    ensures Average(rows, since) == 0.0
  {
    EmptyWindow(Count, rows, since);
  }

  lemma {:induction false} EmptyWindow(m: Measure, rows: seq<Sample>, since: int)
    requires forall s | s in rows :: s.timestamp < since
    ensures Total(m, rows, since) == 0.0
  {
    if rows != [] {
      assert rows[|rows| - 1] in rows;
      EmptyWindow(m, rows[..|rows| - 1], since);
    }
  }

  // ---------------------------------------------------------------- saving and collecting

  lemma RowsAreContent(db: Database, key: Key)
    ensures multiset(RowsOf(db, key)) == Content(db, key)
  {
  }

  /**
    Saving one sample moves every measure of its own key by exactly that sample's weight, in each
    window it falls in, and leaves every other key's line as it was.
   */
  lemma SaveFrame(db: Database, db': Database, owner: Key, sample: Sample, key: Key, now: int)
    requires Content(db', key) == Content(db, key) + if key == owner then multiset{sample} else multiset{}
    ensures key != owner ==> ReportFor(db', key, now) == ReportFor(db, key, now)
    ensures key == owner ==>
              forall m: Measure, since: int ::
                Total(m, RowsOf(db', key), since) == Total(m, RowsOf(db, key), since) + Weight(m, sample, since)
  {
    RowsAreContent(db, key);
    RowsAreContent(db', key);
    var before, after := RowsOf(db, key), RowsOf(db', key);
    if key != owner {
      SummaryPermutation(key, after, before, now);
    } else {
      forall m: Measure, since: int
        ensures Total(m, after, since) == Total(m, before, since) + Weight(m, sample, since)
      {
        assert multiset(after) == multiset(before + [sample]);
        TotalPermutation(m, after, before + [sample], since);
        TotalConcat(m, before, [sample], since);
        TotalOne(m, sample, since);
      }
    }
  }

  /** With nothing saved, time passing can only drop lines and lower the sums of those that stay. */
  lemma ClockFrame(db: Database, key: Key, now: int, later: int)
    requires now <= later && ReportFor(db, key, later).Some?
    ensures ReportFor(db, key, now).Some?
    ensures ReportFor(db, key, later).value.y1 <= ReportFor(db, key, now).value.y1
    ensures ReportFor(db, key, later).value.y5 <= ReportFor(db, key, now).value.y5
  {
    var rows := RowsOf(db, key);
    TotalShrinks(Count, rows, now - 5 * MINUTE, later - 5 * MINUTE);
    TotalNonNegative(Count, rows, later - 5 * MINUTE);
    TotalShrinks(AbsY, rows, now - MINUTE, later - MINUTE);
    TotalShrinks(AbsY, rows, now - 5 * MINUTE, later - 5 * MINUTE);
  }
}
