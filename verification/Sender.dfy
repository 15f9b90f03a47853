/**
  The client's send loop and what its timer implies for the server. Time is counted in steps of the
  loop: one for each reading of the clock and one for each look at the exit flag. What the clock shows at
  a step, what is drawn there, and before which step the flag is set are parameters.
 */
module Sender {
  import opened Wrappers
  import opened Wire
  import opened Tables
  import opened Statistics

  const INTERVAL_MIN := 5
  const INTERVAL_MAX := 30
  const RANDOM_REAL_MIN := -90.0
  const RANDOM_REAL_MAX := 90.0

  const GAP := INTERVAL_MIN * TICKS_PER_SECOND

  /** The clock and the random draws, by the step at which they are asked for. */
  datatype World = World(clock: nat -> int64, draw: nat -> int, x: nat -> real, y: nat -> real) {
    ghost predicate Monotone() {
      forall i: nat, j: nat | i <= j :: clock(i) <= clock(j)
    }

    /** The integer range is closed, the real one half-open. */
    ghost predicate InRange() {
      forall k: nat ::
        && INTERVAL_MIN <= draw(k) <= INTERVAL_MAX
        && RANDOM_REAL_MIN <= x(k) < RANDOM_REAL_MAX
        && RANDOM_REAL_MIN <= y(k) < RANDOM_REAL_MAX
    }

    /** When the timer set at step k runs out. */
    function Timer(k: nat): int {
      clock(k) + draw(k) * TICKS_PER_SECOND
    }

    function Packet(k: nat): Sample {
      Sample(clock(k), x(k), y(k))
    }
  }

  /** What the loop does at a step; `exit` is whether it found the flag set. */
  datatype Entry = Check | Send(packet: Sample) | SetTimer | Poll(exit: bool)

  predicate Bounded(s: Sample) {
    RANDOM_REAL_MIN <= s.x <= RANDOM_REAL_MAX && RANDOM_REAL_MIN <= s.y <= RANDOM_REAL_MAX
  }

  predicate Spaced(sent: seq<Sample>) {
    forall i | 0 < i < |sent| :: sent[i].timestamp - sent[i - 1].timestamp >= GAP
  }

  /** One turn, from step k on: compare the clock with the timer, send if it is due, look at the flag last. */
  function Turn(w: World, k: nat, nextTime: int, stop: nat): (t: seq<Entry>)
    ensures |t| == if w.clock(k) >= nextTime then 4 else 2
  {
    if w.clock(k) >= nextTime then [Check, Send(w.Packet(k + 1)), SetTimer, Poll(k + 3 >= stop)]
    else [Check, Poll(k + 1 >= stop)]
  }

  function NextTimer(w: World, k: nat, nextTime: int): int {
    if w.clock(k) >= nextTime then w.Timer(k + 2) else nextTime
  }

  /** The steps from step k on, the timer set to `nextTime` and the flag set just before step `stop`. */
  function Trace(w: World, k: nat, nextTime: int, stop: nat): seq<Entry>
    decreases if k < stop then stop - k else 0
  {
    var turn := Turn(w, k, nextTime, stop);
    turn + if k + |turn| > stop then [] else Trace(w, k + |turn|, NextTimer(w, k, nextTime), stop)
  }

  /** A whole run; the timer is first set at step 0. */
  function Activity(w: World, stop: nat): seq<Entry> {
    Trace(w, 1, w.Timer(0), stop)
  }

  function Packets(t: seq<Entry>): seq<Sample> {
    if t == [] then []
    else (if t[0].Send? then [t[0].packet] else []) + Packets(t[1..])
  }

  /**
    Stopping is prompt, in steps counted from k: the loop ends at its first look at the flag at or after
    the moment of stopping, and of two packets sent the earlier was sent before that moment.
   */
  predicate StopsPromptly(t: seq<Entry>, k: nat, stop: nat) {
    && t != [] && t[|t| - 1] == Poll(true)
    && (forall j | 0 <= j < |t| && t[j].Poll? :: (t[j].exit <==> k + j >= stop) && (t[j].exit <==> j == |t| - 1))
    && (forall i, j | 0 <= i < j < |t| && t[i].Send? && t[j].Send? :: k + i < stop)
  }

  /** Step i, among those from step k on, sets the timer; before them it was set at step `armed`. */
  predicate Sets(t: seq<Entry>, k: nat, armed: nat, i: nat) {
    i == armed || (k <= i < k + |t| && t[i - k] == SetTimer)
  }

  /** Of the steps that set the timer, i is the last before index j. */
  predicate LastSet(t: seq<Entry>, k: nat, armed: nat, i: nat, j: nat) {
    && Sets(t, k, armed, i) && i < k + j
    && forall m: nat | m < j && m < |t| && t[m] == SetTimer :: k + m <= i
  }

  /**
    What the loop does at a check is settled by the clock there, the clock when the timer was last set, and
    what was drawn then, in seconds of 10,000,000 ticks; and what it sends are the readings of that step.
   */
  ghost predicate FollowsTimer(w: World, t: seq<Entry>, k: nat, armed: nat) {
    && (forall i: nat, j: nat | j < |t| && t[j] == Check && LastSet(t, k, armed, i, j) ::
          j + 1 < |t| && (t[j + 1].Send? <==> w.clock(k + j) >= w.clock(i) + w.draw(i) * 10_000_000))
    && (forall j: nat | j < |t| && t[j].Send? :: t[j].packet == Sample(w.clock(k + j), w.x(k + j), w.y(k + j)))
  }

  predicate May(first: Entry, next: Entry) {
    match first
    case Check => next.Send? || next.Poll?
    case Send(_) => next == SetTimer
    case SetTimer => next.Poll?
    case Poll(exit) => !exit && next == Check
  }

  /** The order of the steps: check, perhaps send and set the timer, look at the flag, and again. */
  predicate InOrder(t: seq<Entry>) {
    && t != [] && t[0] == Check
    && forall j | 0 < j < |t| :: May(t[j - 1], t[j])
  }

  /** The send loop, started at step 0; `trace` is the account of what it did from step 1 on. */
  method Start(w: World, stop: nat) returns (sent: seq<Sample>, trace: seq<Entry>)
    ensures trace == Activity(w, stop) && sent == Packets(trace)
    ensures StopsPromptly(trace, 1, stop)
    ensures FollowsTimer(w, trace, 1, 0) && InOrder(trace)
    ensures w.Monotone() && w.InRange() ==> Spaced(sent) && forall s | s in sent :: Bounded(s)
  {
    hide StopsPromptly, Packets, Spaced, FollowsTimer, InOrder, Trace;
    sent, trace := [], [];
    NoPackets();
    var nextTime := w.Timer(0);
    var k := 1;
    var exit := false;
    while !exit
      invariant Activity(w, stop) == trace + if exit then [] else Trace(w, k, nextTime, stop)
      invariant sent == Packets(trace)
      decreases !exit, if k < stop then stop - k else 0
    {
      ghost var k0, timer0 := k, nextTime;
      var turn := [Check];
      var now := w.clock(k);
      k := k + 1;
      if now >= nextTime {
        var packet := w.Packet(k);
        sent, turn := sent + [packet], turn + [Send(packet)];
        k := k + 1;
        nextTime := w.Timer(k);
        turn := turn + [SetTimer];
        k := k + 1;
      }
      exit := k >= stop;
      turn := turn + [Poll(exit)];
      k := k + 1;
      assert turn == Turn(w, k0, timer0, stop);
      TurnIsDone(w, k0, timer0, stop, trace, turn);
      trace := trace + turn;
    }
    TraceStops(w, 1, w.Timer(0), stop);
    TimerOf(w, 0);
    TraceFollows(w, 1, w.Timer(0), stop, 0);
    TraceInOrder(w, 1, w.Timer(0), stop);
    if w.Monotone() && w.InRange() { TraceIsSpaced(w, 1, w.Timer(0), stop); }
  }

  lemma TurnIsDone(w: World, k: nat, nextTime: int, stop: nat, trace: seq<Entry>, turn: seq<Entry>)
    requires turn == Turn(w, k, nextTime, stop)
    ensures Packets(trace + turn) ==
            Packets(trace) + if w.clock(k) >= nextTime then [w.Packet(k + 1)] else []
    ensures trace + Trace(w, k, nextTime, stop) ==
            trace + turn + if k + |turn| > stop then [] else Trace(w, k + |turn|, NextTimer(w, k, nextTime), stop)
  {
    hide Packets, Turn;
    TurnPackets(w, k, nextTime, stop);
    PacketsConcat(trace, turn);
    var rest := if k + |turn| > stop then [] else Trace(w, k + |turn|, NextTimer(w, k, nextTime), stop);
    ConcatAssociates(trace, turn, rest);
    if k + |turn| > stop { LastTurn(w, k, nextTime, stop); } else { NotLastTurn(w, k, nextTime, stop); }
  }

  lemma NoPackets()
    ensures Packets([]) == []
  {
  }

  lemma {:induction false} PacketsConcat(a: seq<Entry>, b: seq<Entry>)
    ensures Packets(a + b) == Packets(a) + Packets(b)
  {
    if a == [] {
      assert a + b == b;
    } else {
      assert (a + b)[0] == a[0] && (a + b)[1..] == a[1..] + b;
      PacketsConcat(a[1..], b);
    }
  }

  /** A turn sends one packet or none. */
  lemma TurnPackets(w: World, k: nat, nextTime: int, stop: nat)
    ensures Packets(Turn(w, k, nextTime, stop)) == if w.clock(k) >= nextTime then [w.Packet(k + 1)] else []
  {
    var t := Turn(w, k, nextTime, stop);
    assert Packets([Poll(true)]) == [] && Packets([Poll(false)]) == [];
    if w.clock(k) >= nextTime {
      var poll := [Poll(k + 3 >= stop)];
      assert t[1..] == [t[1]] + ([SetTimer] + poll);
      assert Packets([SetTimer] + poll) == [] by { PacketsConcat([SetTimer], poll); }
      assert Packets(t[1..]) == [w.Packet(k + 1)] by { PacketsConcat([t[1]], [SetTimer] + poll); }
    } else {
      assert t[1..] == [Poll(k + 1 >= stop)];
    }
  }

  /** The packets of a trace are those of its first turn and of the rest. */
  lemma TracePackets(w: World, k: nat, nextTime: int, stop: nat, turn: seq<Entry>, rest: seq<Entry>)
    requires turn == Turn(w, k, nextTime, stop)
    requires rest == if k + |turn| > stop then [] else Trace(w, k + |turn|, NextTimer(w, k, nextTime), stop)
    ensures Packets(Trace(w, k, nextTime, stop))
            == (if w.clock(k) >= nextTime then [w.Packet(k + 1)] else []) + Packets(rest)
  {
    hide Packets;
    TurnPackets(w, k, nextTime, stop);
    PacketsConcat(turn, rest);
  }

  /**
    Stopping, at any moment: before the loop starts, between any two steps of a turn, or between turns.
    At most one packet is sent at or after that moment, and the first look at the flag after it is the last.
   */
  lemma {:induction false} TraceStops(w: World, k: nat, nextTime: int, stop: nat)
    ensures StopsPromptly(Trace(w, k, nextTime, stop), k, stop)
    decreases if k < stop then stop - k else 0
  {
    hide Trace, Turn;
    var turn := Turn(w, k, nextTime, stop);
    TurnPolls(w, k, nextTime, stop);
    if k + |turn| > stop {
      LastTurn(w, k, nextTime, stop);
    } else {
      TraceStops(w, k + |turn|, NextTimer(w, k, nextTime), stop);
      NotLastTurn(w, k, nextTime, stop);
      EarlierTurn(turn, Trace(w, k + |turn|, NextTimer(w, k, nextTime), stop), k, stop);
    }
  }

  lemma LastTurn(w: World, k: nat, nextTime: int, stop: nat)
    requires k + |Turn(w, k, nextTime, stop)| > stop
    ensures Trace(w, k, nextTime, stop) == Turn(w, k, nextTime, stop)
  {
  }

  lemma NotLastTurn(w: World, k: nat, nextTime: int, stop: nat)
    requires k + |Turn(w, k, nextTime, stop)| <= stop
    ensures var turn := Turn(w, k, nextTime, stop);
            Trace(w, k, nextTime, stop) == turn + Trace(w, k + |turn|, NextTimer(w, k, nextTime), stop)
  {
  }

  /** A turn looks at the flag once, at its end, and sends at most once. */
  predicate OneTurn(turn: seq<Entry>, exit: bool) {
    && turn != [] && turn[|turn| - 1] == Poll(exit)
    && (forall j | 0 <= j < |turn| - 1 :: !turn[j].Poll?)
    && (forall i, j | 0 <= i < j < |turn| :: !(turn[i].Send? && turn[j].Send?))
  }

  lemma TurnPolls(w: World, k: nat, nextTime: int, stop: nat)
    ensures var turn := Turn(w, k, nextTime, stop);
            OneTurn(turn, k + |turn| > stop)
  {
  }

  /** A turn that did not find the flag set was over before it was. */
  lemma EarlierTurn(turn: seq<Entry>, rest: seq<Entry>, k: nat, stop: nat)
    requires OneTurn(turn, false) && k + |turn| <= stop
    requires StopsPromptly(rest, k + |turn|, stop)
    ensures StopsPromptly(turn + rest, k, stop)
  {
    var t, n := turn + rest, |turn|;
    assert forall j | n <= j < |t| :: t[j] == rest[j - n];
    assert forall j | 0 <= j < n :: t[j] == turn[j];
  }

  lemma TimerOf(w: World, k: nat)
    ensures w.Timer(k) == w.clock(k) + w.draw(k) * 10_000_000
    ensures w.Packet(k) == Sample(w.clock(k), w.x(k), w.y(k))
  {
  }

  /** The loop follows the timer that was last set, with the seconds drawn when it was. */
  lemma {:induction false} TraceFollows(w: World, k: nat, nextTime: int, stop: nat, armed: nat)
    requires armed < k && nextTime == w.clock(armed) + w.draw(armed) * 10_000_000
    ensures FollowsTimer(w, Trace(w, k, nextTime, stop), k, armed)
    decreases if k < stop then stop - k else 0
  {
    hide Trace, Turn, FollowsTimer, Leaves;
    var turn := Turn(w, k, nextTime, stop);
    TurnFollows(w, k, nextTime, stop, armed);
    if k + |turn| > stop {
      LastTurn(w, k, nextTime, stop);
    } else {
      var timer, armed' := NextTimer(w, k, nextTime), if w.clock(k) >= nextTime then k + 2 else armed;
      TimerOf(w, k + 2);
      TraceFollows(w, k + |turn|, timer, stop, armed');
      NotLastTurn(w, k, nextTime, stop);
      TurnLeaves(w, k, nextTime, stop, armed);
      JoinFollows(w, turn, Trace(w, k + |turn|, timer, stop), k, armed, armed');
    }
  }

  lemma {:induction false} TraceInOrder(w: World, k: nat, nextTime: int, stop: nat)
    ensures InOrder(Trace(w, k, nextTime, stop))
    decreases if k < stop then stop - k else 0
  {
    hide Trace, Turn, InOrder;
    var turn := Turn(w, k, nextTime, stop);
    TurnInOrder(w, k, nextTime, stop);
    if k + |turn| > stop {
      LastTurn(w, k, nextTime, stop);
    } else {
      TraceInOrder(w, k + |turn|, NextTimer(w, k, nextTime), stop);
      NotLastTurn(w, k, nextTime, stop);
      JoinInOrder(turn, Trace(w, k + |turn|, NextTimer(w, k, nextTime), stop));
    }
  }

  lemma TurnInOrder(w: World, k: nat, nextTime: int, stop: nat)
    ensures var turn := Turn(w, k, nextTime, stop);
            InOrder(turn) && turn[|turn| - 1] == Poll(k + |turn| > stop)
  {
  }

  lemma JoinInOrder(turn: seq<Entry>, rest: seq<Entry>)
    requires InOrder(turn) && InOrder(rest) && turn[|turn| - 1] == Poll(false)
    ensures InOrder(turn + rest)
  {
    var t, n := turn + rest, |turn|;
    forall j | 0 < j < |t| ensures May(t[j - 1], t[j]) {
      if j < n {
        assert t[j - 1] == turn[j - 1] && t[j] == turn[j];
      } else if j > n {
        assert t[j - 1] == rest[j - n - 1] && t[j] == rest[j - n];
      }
    }
  }

  /** In a turn from step k on the timer is left set at step `armed'`. */
  predicate Leaves(turn: seq<Entry>, k: nat, armed: nat, armed': nat) {
    if armed' == armed then forall m: nat | m < |turn| :: turn[m] != SetTimer
    else
      && k <= armed' < k + |turn| && turn[armed' - k] == SetTimer
      && forall m: nat | m < |turn| && turn[m] == SetTimer :: k + m == armed'
  }

  lemma TurnLeaves(w: World, k: nat, nextTime: int, stop: nat, armed: nat)
    requires armed < k
    ensures Leaves(Turn(w, k, nextTime, stop), k, armed, if w.clock(k) >= nextTime then k + 2 else armed)
  {
  }

  lemma TurnFollows(w: World, k: nat, nextTime: int, stop: nat, armed: nat)
    requires armed < k && nextTime == w.clock(armed) + w.draw(armed) * 10_000_000
    ensures FollowsTimer(w, Turn(w, k, nextTime, stop), k, armed)
  {
    TimerOf(w, k + 1);
    TurnShape(w, k, nextTime, stop);
    hide Turn, Sets;
    FirstSet(Turn(w, k, nextTime, stop), k, armed);
  }

  /** A turn checks at its first step and nowhere else, and if it sends at all it does so at its second. */
  lemma TurnShape(w: World, k: nat, nextTime: int, stop: nat)
    ensures var turn := Turn(w, k, nextTime, stop);
            && |turn| >= 2
            && (forall j | 0 <= j < |turn| && turn[j] == Check :: j == 0)
            && (forall j | 0 <= j < |turn| && turn[j].Send? :: j == 1)
            && (turn[1].Send? <==> w.clock(k) >= nextTime)
            && (turn[1].Send? ==> turn[1].packet == w.Packet(k + 1))
  {
  }

  lemma FirstSet(turn: seq<Entry>, k: nat, armed: nat)
    requires armed < k
    ensures forall i: nat | LastSet(turn, k, armed, i, 0) :: i == armed
  {
  }

  lemma JoinFollows(w: World, turn: seq<Entry>, rest: seq<Entry>, k: nat, armed: nat, armed': nat)
    requires armed < k && Leaves(turn, k, armed, armed')
    requires FollowsTimer(w, turn, k, armed) && FollowsTimer(w, rest, k + |turn|, armed')
    ensures FollowsTimer(w, turn + rest, k, armed)
  {
    var t, n := turn + rest, |turn|;
    assert forall m | 0 <= m < n :: t[m] == turn[m];
    assert forall m | n <= m < |t| :: t[m] == rest[m - n];
    forall i: nat, j: nat | j < |t| && t[j] == Check && LastSet(t, k, armed, i, j)
      ensures j + 1 < |t| && (t[j + 1].Send? <==> w.clock(k + j) >= w.clock(i) + w.draw(i) * 10_000_000)
    {
      if j < n {
        assert LastSet(turn, k, armed, i, j);
      } else {
        LastSetInRest(turn, rest, k, armed, armed', i, j);
        assert rest[j - n] == Check;
      }
    }
  }

  lemma LastSetInRest(turn: seq<Entry>, rest: seq<Entry>, k: nat, armed: nat, armed': nat, i: nat, j: nat)
    requires armed < k && Leaves(turn, k, armed, armed')
    requires |turn| <= j < |turn + rest| && LastSet(turn + rest, k, armed, i, j)
    ensures LastSet(rest, k + |turn|, armed', i, j - |turn|)
  {
    var t, n := turn + rest, |turn|;
    if armed' != armed { assert t[armed' - k] == SetTimer; }
    forall m: nat | m < j - n && m < |rest| && rest[m] == SetTimer ensures k + n + m <= i {
      assert t[n + m] == SetTimer;
    }
    if k <= i < k + n { assert t[i - k] == turn[i - k]; }
    if i >= k + n { assert t[i - k] == rest[i - k - n]; }
  }

  /** Packets are listed in the order they are sent, and nothing else is. */
  lemma PacketsAre(t: seq<Entry>, e: Entry)
    ensures Packets([]) == []
    ensures Packets(t + [e]) == Packets(t) + if e.Send? then [e.packet] else []
  {
    PacketsConcat(t, [e]);
    assert [e][1..] == [];
  }

  /** What the packets are held to, in numbers: five seconds apart, and within ninety. */
  lemma SpacedMeans(sent: seq<Sample>)
    ensures Spaced(sent) <==> forall i | 0 < i < |sent| :: sent[i].timestamp - sent[i - 1].timestamp >= 50_000_000
    ensures (forall s | s in sent :: Bounded(s)) <==>
            forall s | s in sent :: -90.0 <= s.x <= 90.0 && -90.0 <= s.y <= 90.0
  {
  }

  /** The ranges that the draws come from, and a clock that never goes back. */
  lemma WorldMeans(w: World)
    ensures w.InRange() <==>
            forall k: nat :: 5 <= w.draw(k) <= 30 && -90.0 <= w.x(k) < 90.0 && -90.0 <= w.y(k) < 90.0
    ensures w.Monotone() <==> forall i: nat, j: nat | i <= j :: w.clock(i) <= w.clock(j)
  {
  }

  /** On a clock that never goes back, packets are at least the minimum interval apart. */
  lemma {:induction false} TraceIsSpaced(w: World, k: nat, nextTime: int, stop: nat)
    requires w.Monotone() && w.InRange()
    ensures var sent := Packets(Trace(w, k, nextTime, stop));
            && Spaced(sent)
            && (forall s | s in sent :: Bounded(s))
            && (sent != [] ==> sent[0].timestamp >= nextTime)
    decreases if k < stop then stop - k else 0
  {
    hide Packets, Trace;
    var turn, timer := Turn(w, k, nextTime, stop), NextTimer(w, k, nextTime);
    assert w.clock(k) <= w.clock(k + 1) <= w.clock(k + 2);
    if k + |turn| > stop {
      TracePackets(w, k, nextTime, stop, turn, []);
      NoPackets();
    } else {
      TracePackets(w, k, nextTime, stop, turn, Trace(w, k + |turn|, timer, stop));
      TraceIsSpaced(w, k + |turn|, timer, stop);
    }
  }

  /**
    The timer is never missed: if the clock moves by at most `step` from one step to the next, then
    packets are at most the maximum interval and four steps apart.
   */
  lemma {:induction false} TraceIsPrompt(w: World, k: nat, nextTime: int, stop: nat, step: nat)
    requires w.InRange() && forall j: nat :: w.clock(j + 1) <= w.clock(j) + step
    requires w.clock(k) <= nextTime + 2 * step
    ensures var sent := Packets(Trace(w, k, nextTime, stop));
            && (sent != [] ==> sent[0].timestamp <= nextTime + 3 * step)
            && forall i | 0 < i < |sent| ::
                 sent[i].timestamp - sent[i - 1].timestamp <= 300_000_000 + 4 * step
    decreases if k < stop then stop - k else 0
  {
    hide Packets, Trace;
    var turn, timer := Turn(w, k, nextTime, stop), NextTimer(w, k, nextTime);
    TurnIsShort(w, k, step);
    if k + |turn| > stop {
      TracePackets(w, k, nextTime, stop, turn, []);
      NoPackets();
    } else {
      TracePackets(w, k, nextTime, stop, turn, Trace(w, k + |turn|, timer, stop));
      TraceIsPrompt(w, k + |turn|, timer, stop, step);
    }
  }

  lemma TurnIsShort(w: World, k: nat, step: nat)
    requires forall j: nat :: w.clock(j + 1) <= w.clock(j) + step
    ensures w.clock(k + 1) <= w.clock(k) + step && w.clock(k + 2) <= w.clock(k + 1) + step
    ensures w.clock(k + 4) <= w.clock(k + 2) + 2 * step
  {
    assert w.clock(k + 1 + 1) <= w.clock(k + 1) + step;
    assert w.clock(k + 2 + 1) <= w.clock(k + 2) + step;
    assert w.clock(k + 3 + 1) <= w.clock(k + 3) + step;
  }

  // ---------------------------------------------------------------- what the server can report

  /** How many packets of one client can lie between two moments. */
  function Capacity(since: int, latest: int): nat {
    if latest < since then 0 else (latest - since) / GAP + 1
  }

  /** Samples a gap apart cannot crowd a window: k of them span at least k - 1 gaps. */
  lemma {:induction false} SpacedWindow(sent: seq<Sample>, since: int)
    requires Spaced(sent) && sent != []
    ensures |Window(sent, since)| > 0 ==> GAP * (|Window(sent, since)| - 1) <= sent[|sent| - 1].timestamp - since
    ensures sent[|sent| - 1].timestamp < since ==> Window(sent, since) == []
    decreases |sent|
  {
    var rest := sent[..|sent| - 1];
    if rest != [] {
      assert forall i | 0 <= i < |rest| :: rest[i] == sent[i];
      SpacedWindow(rest, since);
    }
  }

  lemma WindowCapacity(sent: seq<Sample>, since: int, latest: int)
    requires Spaced(sent) && forall s | s in sent :: s.timestamp <= latest
    ensures |Window(sent, since)| <= Capacity(since, latest)
  {
    if sent != [] {
      assert sent[|sent| - 1] in sent;
      SpacedWindow(sent, since);
    } else {
      assert Window(sent, since) == [];
    }
  }

  lemma {:induction false} SumOfBounded(rows: seq<Sample>, since: int)
    requires forall s | s in rows :: Bounded(s)
    ensures Total(AbsY, rows, since) <= RANDOM_REAL_MAX * Total(Count, rows, since)
  {
    if rows != [] {
      assert rows[|rows| - 1] in rows;
      SumOfBounded(rows[..|rows| - 1], since);
    }
  }

  lemma FetchedIsBounded(rows: seq<Sample>, sent: seq<Sample>)
    requires multiset(rows) <= multiset(sent)
    requires forall s | s in sent :: Bounded(s)
    ensures forall s | s in rows :: Bounded(s)
  {
    forall s | s in rows ensures Bounded(s) {
      assert s in multiset(rows) && s in multiset(sent);
    }
  }

  /** Packets a gap apart are in the order of their timestamps, so those up to a moment come first. */
  lemma {:induction false} UpTo(sent: seq<Sample>, latest: int) returns (n: nat)
    requires Spaced(sent)
    ensures n <= |sent|
    ensures forall i | 0 <= i < n :: sent[i].timestamp <= latest
    ensures forall i | n <= i < |sent| :: sent[i].timestamp > latest
  {
    if sent == [] || sent[|sent| - 1].timestamp <= latest {
      n := |sent|;
      EarlierFirst(sent);
    } else {
      n := UpTo(sent[..|sent| - 1], latest);
    }
  }

  lemma {:induction false} EarlierFirst(sent: seq<Sample>)
    requires Spaced(sent)
    ensures forall i | 0 <= i < |sent| :: sent[i].timestamp <= sent[|sent| - 1].timestamp
  {
    if |sent| > 1 { EarlierFirst(sent[..|sent| - 1]); }
  }

  /** What was fetched and is no later than a moment is part of what was sent up to that moment. */
  lemma FetchedUpTo(rows: seq<Sample>, sent: seq<Sample>, latest: int, n: nat)
    requires multiset(rows) <= multiset(sent) && n <= |sent|
    requires forall s | s in rows :: s.timestamp <= latest
    requires forall i | n <= i < |sent| :: sent[i].timestamp > latest
    ensures multiset(rows) <= multiset(sent[..n])
  {
    assert sent == sent[..n] + sent[n..];
    forall s ensures multiset(rows)[s] <= multiset(sent[..n])[s] {
      if s in multiset(rows) {
        assert s in rows;
        assert s !in multiset(sent[n..]);
        assert multiset(sent)[s] == multiset(sent[..n])[s] + multiset(sent[n..])[s];
      }
    }
  }

  /**
    A window of what was fetched of one client's packets, `latest` being no earlier than any of them.
    The window has no upper end, so packets that arrive while the collection runs are in it as well.
   */
  lemma WindowBounds(rows: seq<Sample>, sent: seq<Sample>, since: int, latest: int)
    requires Spaced(sent) && multiset(rows) <= multiset(sent)
    requires forall s | s in sent :: Bounded(s)
    requires forall s | s in rows :: s.timestamp <= latest
    ensures Total(Count, rows, since) <= Capacity(since, latest) as real
    ensures Total(AbsY, rows, since) <= 90.0 * Capacity(since, latest) as real
    ensures -90.0 <= Average(rows, since) <= 90.0
  {
    FetchedIsBounded(rows, sent);
    var n := UpTo(sent, latest);
    FetchedUpTo(rows, sent, latest, n);
    WindowCapacity(sent[..n], since, latest);
    CountIsWindowSize(sent[..n], since);
    CountIsWindowSize(rows, since);
    TotalMonotone(Count, rows, sent[..n], since);
    SumOfBounded(rows, since);
    if exists s | s in rows :: s.timestamp >= since { AverageBounds(rows, since, -90.0, 90.0); }
  }

  /** The bounds on the line reported at `now` for a client of which nothing later than `latest` was fetched. */
  predicate WithinRate(r: Stat, now: int, latest: int) {
    && -90.0 <= r.x1 <= 90.0 && -90.0 <= r.x5 <= 90.0
    && r.y1 <= 90.0 * Capacity(now - MINUTE, latest) as real
    && r.y5 <= 90.0 * Capacity(now - 5 * MINUTE, latest) as real
  }

  /**
    Whatever part of one client's packets a collection fetched, the line it reports for that client
    respects the timer's bounds.
   */
  lemma ReportBounds(uuid: Key, rows: seq<Sample>, sent: seq<Sample>, now: int, latest: int)
    requires Spaced(sent) && multiset(rows) <= multiset(sent)
    requires forall s | s in sent :: Bounded(s)
    requires forall s | s in rows :: s.timestamp <= latest
    ensures Total(Count, rows, now - MINUTE) <= Capacity(now - MINUTE, latest) as real
    ensures Total(Count, rows, now - 5 * MINUTE) <= Capacity(now - 5 * MINUTE, latest) as real
    ensures Summary(uuid, rows, now).Some? ==> WithinRate(Summary(uuid, rows, now).value, now, latest)
  {
    WindowBounds(rows, sent, now - MINUTE, latest);
    WindowBounds(rows, sent, now - 5 * MINUTE, latest);
  }

  /** When nothing later than `now` was fetched that is 13 packets in a minute and 61 in five. */
  lemma CapacityAtNow(now: int, latest: int)
    requires latest <= now
    ensures Capacity(now - MINUTE, latest) <= 13 && Capacity(now - 5 * MINUTE, latest) <= 61
    ensures latest == now ==> Capacity(now - MINUTE, latest) == 13 && Capacity(now - 5 * MINUTE, latest) == 61
  {
  }

  // ---------------------------------------------------------------- the bound is reached

  predicate Int64(n: int) {
    -0x8000_0000_0000_0000 <= n < 0x8000_0000_0000_0000
  }

  /** A clock that stands still within each four-step turn and moves on by one gap from turn to turn. */
  function FastClock(first: int, n: nat, k: nat): int64
    requires Int64(first - GAP) && Int64(first + GAP * n)
  {
    if k == 0 then first - GAP
    else
      var turn := (k - 1) / 4;
      FastClockFits(first, n, if turn < n then turn else n);
      first + GAP * if turn < n then turn else n
  }

  lemma FastClockFits(first: int, n: nat, turn: nat)
    requires Int64(first - GAP) && Int64(first + GAP * n) && turn <= n
    ensures Int64(first + GAP * turn)
  {
  }

  /** The shortest interval is drawn every time, and the y that is farthest from zero. */
  function FastWorld(first: int, n: nat): World
    requires Int64(first - GAP) && Int64(first + GAP * n)
  {
    World((k: nat) => FastClock(first, n, k), k => INTERVAL_MIN, k => RANDOM_REAL_MIN, k => RANDOM_REAL_MIN)
  }

  lemma FastWorldIsAllowed(first: int, n: nat)
    requires Int64(first - GAP) && Int64(first + GAP * n)
    ensures FastWorld(first, n).Monotone() && FastWorld(first, n).InRange()
  {
    var w := FastWorld(first, n);
    forall i: nat, j: nat | i <= j ensures w.clock(i) <= w.clock(j) {
      if i > 0 { assert (i - 1) / 4 <= (j - 1) / 4; }
    }
  }

  lemma FastTurn(first: int, n: nat, turn: nat, r: nat)
    requires Int64(first - GAP) && Int64(first + GAP * n) && turn < n && r < 4
    ensures FastClock(first, n, 4 * turn + 1 + r) == first + GAP * turn
  {
    assert (4 * turn + r) / 4 == turn;
  }

  /** In such a world every turn sends, each time one gap later. */
  lemma {:induction false} FastTrace(first: int, n: nat, turn: nat)
    requires Int64(first - GAP) && Int64(first + GAP * n) && turn < n
    ensures var sent := Packets(Trace(FastWorld(first, n), 4 * turn + 1, first + GAP * turn, 4 * n));
            && |sent| == n - turn
            && forall s | s in sent :: s.y == RANDOM_REAL_MIN && first <= s.timestamp <= first + GAP * (n - 1)
    decreases n - turn
  {
    hide Packets, Trace;
    var w, k, timer := FastWorld(first, n), 4 * turn + 1, first + GAP * turn;
    FastTurn(first, n, turn, 0);
    FastTurn(first, n, turn, 1);
    FastTurn(first, n, turn, 2);
    assert k + 4 > 4 * n <==> turn == n - 1;
    assert GAP * turn <= GAP * (n - 1);
    var entries := Turn(w, k, timer, 4 * n);
    if turn == n - 1 {
      TracePackets(w, k, timer, 4 * n, entries, []);
      NoPackets();
    } else {
      assert NextTimer(w, k, timer) == first + GAP * (turn + 1);
      TracePackets(w, k, timer, 4 * n, entries, Trace(w, k + 4, first + GAP * (turn + 1), 4 * n));
      FastTrace(first, n, turn + 1);
    }
  }

  /** A loop that is stopped at once and is not due sends nothing. */
  lemma IdleActivity(w: World)
    requires w.clock(1) < w.Timer(0)
    ensures Packets(Activity(w, 0)) == []
  {
    TurnPackets(w, 1, w.Timer(0), 0);
    LastTurn(w, 1, w.Timer(0), 0);
  }

  lemma {:induction false} FullWindow(rows: seq<Sample>, since: int)
    requires forall s | s in rows :: s.timestamp >= since && s.y == RANDOM_REAL_MIN
    ensures Total(Count, rows, since) == |rows| as real
    ensures Total(AbsY, rows, since) == 90.0 * |rows| as real
  {
    if rows != [] {
      assert rows[|rows| - 1] in rows;
      FullWindow(rows[..|rows| - 1], since);
    }
  }

  lemma NoRoom(since: int, latest: int)
    requires latest < since
    ensures Capacity(since, latest) == 0
  {
  }

  lemma Room(since: int, latest: int)
    requires since <= latest
    ensures since + GAP * (Capacity(since, latest) - 1) <= latest < since + GAP * Capacity(since, latest)
  {
  }

  /**
    The bound cannot be improved: for any window and any last moment there is a run of the loop, on a clock
    that never goes back and with draws in range, whose packets up to that moment fill the window in number
    and in the sum of |y|.
   */
  lemma CapacityIsReached(since: int, latest: int) returns (w: World, stop: nat)
    requires Int64(since - GAP) && Int64(latest + GAP)
    ensures w.Monotone() && w.InRange()
    ensures var sent := Packets(Activity(w, stop));
            && (forall s | s in sent :: s.timestamp <= latest)
            && Total(Count, sent, since) == Capacity(since, latest) as real
            && Total(AbsY, sent, since) == 90.0 * Capacity(since, latest) as real
  {
    hide Capacity, Packets, Trace;
    var n := Capacity(since, latest);
    if latest < since {
      NoRoom(since, latest);
      w, stop := World(k => 0, k => INTERVAL_MIN, k => RANDOM_REAL_MIN, k => RANDOM_REAL_MIN), 0;
      IdleActivity(w);
    } else {
      Room(since, latest);
      w, stop := FastWorld(since, n), 4 * n;
      FastWorldIsAllowed(since, n);
      assert w.Timer(0) == since;
      FastTrace(since, n, 0);
    }
    FullWindow(Packets(Activity(w, stop)), since);
  }

  /** For instance a packet stamped five seconds after `now` can be the fourteenth of the minute. */
  lemma FourteenInAMinute(now: int)
    ensures Capacity(now - MINUTE, now + GAP) == 14
  {
  }
}
