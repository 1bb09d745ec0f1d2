/** The global circuit breaker, internal/web/account_health.go:301-402. Time is passed in, in
    nanoseconds, and does not go back. */
module Circuit {
  import opened Basics

  const WINDOW: int := 30 * SECOND
  const OPEN_FOR: int := 30 * SECOND
  const MIN_OUTCOMES: nat := 10
  const MAX_OUTCOMES: nat := 1000

  /** Only transport and infrastructure failures, and successes, are counted. */
  datatype Outcome = Succeeded | TransportFailed | Uncounted

  datatype Gate = Gate(windowStart: Option<int>, total: nat, failures: nat, openUntil: Option<int>)

  const CLOSED := Gate(None, 0, 0, None)

  /** Starts a new window when the running one is older than 30 s. */
  function Roll(g: Gate, now: int): Gate {
    if g.windowStart.None? || now - g.windowStart.value > WINDOW
    then g.(windowStart := Some(now), total := 0, failures := 0) else g
  }

  function Trip(g: Gate, now: int): Gate {
    if g.total >= MIN_OUTCOMES && g.failures * 2 >= g.total then g.(openUntil := Some(now + OPEN_FOR)) else g
  }

  function Overflow(g: Gate, now: int, failures: nat): Gate {
    if g.total > MAX_OUTCOMES then g.(windowStart := Some(now), total := 1, failures := failures) else g
  }

  /** A success overflows before it may trip, a failure trips before it may overflow. */
  function Recorded(g: Gate, o: Outcome, now: int): Gate {
    match o
    case Uncounted => g
    case Succeeded => var w := Roll(g, now); Trip(Overflow(w.(total := w.total + 1), now, 0), now)
    case TransportFailed =>
      var w := Roll(g, now);
      Overflow(Trip(w.(total := w.total + 1, failures := w.failures + 1), now), now, 1)
  }

  predicate IsOpenAt(g: Gate, now: int) {
    g.openUntil.Some? && now < g.openUntil.value
  }

  function Queried(g: Gate, now: int): Gate {
    if IsOpenAt(g, now) then g else g.(openUntil := None)
  }

  class GlobalCircuit {
    var windowStart: Option<int>
    var total: nat
    var failures: nat
    var openUntil: Option<int>

    function View(): Gate reads this { Gate(windowStart, total, failures, openUntil) }

    constructor ()
      ensures View() == CLOSED
    {
      windowStart, total, failures, openUntil := None, 0, 0, None;
    }

    method IsOpen(now: int) returns (open: bool)
      modifies this`openUntil
      ensures open == IsOpenAt(old(View()), now) && View() == Queried(old(View()), now)
    {
      if openUntil.None? {
        return false;
      }
      if now < openUntil.value {
        return true;
      }
      openUntil := None;
      return false;
    }

    method Record(o: Outcome, now: int)
      modifies this
      ensures View() == Recorded(old(View()), o, now)
    {
      if o == Succeeded {
        if windowStart.None? || now - windowStart.value > WINDOW {
          windowStart, total, failures := Some(now), 0, 0;
        }
        total := total + 1;
        if total > MAX_OUTCOMES {
          windowStart, total, failures := Some(now), 1, 0;
        }
        if total >= MIN_OUTCOMES && failures * 2 >= total {
          openUntil := Some(now + OPEN_FOR);
        }
        return;
      }
      if o == Uncounted {
        return;
      }
      if windowStart.None? || now - windowStart.value > WINDOW {
        windowStart, total, failures := Some(now), 0, 0;
      }
      total := total + 1;
      failures := failures + 1;
      if total >= MIN_OUTCOMES && failures * 2 >= total {
        openUntil := Some(now + OPEN_FOR);
      }
      if total > MAX_OUTCOMES {
        windowStart, total, failures := Some(now), 1, 1;
      }
    }

    method Reset()
      modifies this
      ensures View() == CLOSED
    {
      windowStart, total, failures, openUntil := None, 0, 0, None;
    }
  }

  // ---------------------------------------------------------------- histories

  datatype Event = Record(o: Outcome, at: int) | Query(at: int)

  function Step(g: Gate, e: Event): Gate {
    match e
    case Record(o, at) => Recorded(g, o, at)
    case Query(at) => Queried(g, at)
  }

  function After(events: seq<Event>): Gate {
    if events == [] then CLOSED else Step(After(events[..|events| - 1]), events[|events| - 1])
  }

  ghost predicate Clocked(events: seq<Event>) {
    forall i, j :: 0 <= i < j < |events| ==> events[i].at <= events[j].at
  }

  datatype Counted = Counted(at: int, failed: bool)

  /** The counted outcomes of a history. */
  function CountedOf(events: seq<Event>): seq<Counted> {
    if events == [] then []
    else
      var e := events[|events| - 1];
      CountedOf(events[..|events| - 1])
      + (if e.Record? && e.o != Uncounted then [Counted(e.at, e.o == TransportFailed)] else [])
  }

  /** The failures among the outcomes i, .., j - 1. */
  function Fails(h: seq<Counted>, i: nat, j: nat): nat
    requires i <= j <= |h|
  {
    if i == j then 0 else Fails(h, i, j - 1) + (if h[j - 1].failed then 1 else 0)
  }

  function LastFails(h: seq<Counted>, n: nat): nat
    requires n <= |h|
  {
    Fails(h, |h| - n, |h|)
  }

  /** The last outcomes of `h` justify opening: at least 10 of them lie within 30 s and at least
      half of those are transport failures. */
  ghost predicate Justified(h: seq<Counted>) {
    exists n: nat :: JustifiedBy(h, n)
  }

  ghost predicate JustifiedBy(h: seq<Counted>, n: nat) {
    && 10 <= n <= |h| && n <= 1001
    && h[|h| - 1].at - h[|h| - n].at <= 30 * SECOND
    && 2 * LastFails(h, n) >= n
  }

  /** Some outcome justified opening, and opened the circuit until `until`. */
  ghost predicate OpenedBy(h: seq<Counted>, until: int) {
    exists k: nat :: 0 < k <= |h| && until == h[k - 1].at + 30 * SECOND && Justified(h[..k])
  }

  /** The counters are those of the last outcomes, which lie in the window. */
  ghost predicate Inv(g: Gate, h: seq<Counted>) {
    && g.failures <= g.total <= MAX_OUTCOMES && g.total <= |h|
    && g.failures == LastFails(h, g.total)
    && (g.windowStart.None? ==> g.total == 0)
    && (g.total > 0 ==> g.windowStart.value <= h[|h| - g.total].at && h[|h| - 1].at - g.windowStart.value <= WINDOW)
    && (g.windowStart.Some? ==> h != [] && g.windowStart.value <= h[|h| - 1].at)
    && (g.openUntil.Some? ==> OpenedBy(h, g.openUntil.value))
  }

  lemma OpenedStays(h: seq<Counted>, c: Counted, until: int)
    requires OpenedBy(h, until)
    ensures OpenedBy(h + [c], until)
  {
    var k: nat :| 0 < k <= |h| && until == h[k - 1].at + 30 * SECOND && Justified(h[..k]);
    assert (h + [c])[..k] == h[..k] && (h + [c])[k - 1] == h[k - 1];
  }

  lemma {:induction false} FailsInFront(h: seq<Counted>, c: Counted, i: nat, j: nat)
    requires i <= j <= |h|
    ensures Fails(h + [c], i, j) == Fails(h, i, j)
    decreases j - i
  {
    if i < j {
      FailsInFront(h, c, i, j - 1);
    }
  }

  lemma LastSnoc(h: seq<Counted>, n: nat, c: Counted)
    requires n <= |h|
    ensures LastFails(h + [c], n + 1) == LastFails(h, n) + (if c.failed then 1 else 0)
  {
    FailsInFront(h, c, |h| - n, |h|);
  }

  /** The counters `g` count the last outcomes of `h`, the newest of which is `now`. */
  ghost predicate Counting(g: Gate, h: seq<Counted>, now: int) {
    && h != [] && h[|h| - 1].at == now
    && 0 < g.total <= |h| && g.total <= MAX_OUTCOMES + 1 && g.failures <= g.total
    && g.failures == LastFails(h, g.total)
    && g.windowStart.Some? && g.windowStart.value <= h[|h| - g.total].at
    && g.windowStart.value <= now <= g.windowStart.value + WINDOW
    && (g.openUntil.Some? ==> OpenedBy(h, g.openUntil.value))
  }

  /** Tripping is justified by the outcomes counted so far. */
  lemma TripJustified(g: Gate, h: seq<Counted>, now: int)
    requires Counting(g, h, now)
    ensures Counting(Trip(g, now), h, now)
  {
    if g.total >= MIN_OUTCOMES && g.failures * 2 >= g.total {
      assert JustifiedBy(h, g.total);
      assert h[..|h|] == h;
    }
  }

  lemma OverflowCounts(g: Gate, h: seq<Counted>, now: int)
    requires Counting(g, h, now)
    ensures var failures := if h[|h| - 1].failed then 1 else 0;
            Counting(Overflow(g, now, failures), h, now) && Overflow(g, now, failures).total <= MAX_OUTCOMES
  {
    var c := h[|h| - 1];
    assert Fails(h, |h| - 1, |h|) == if c.failed then 1 else 0;
  }

  /** The window of the outcomes before `now`, rolled if it is too old. */
  lemma RollCounts(g: Gate, h: seq<Counted>, now: int)
    requires Inv(g, h) && (h != [] ==> h[|h| - 1].at <= now)
    ensures var w := Roll(g, now);
            && w.windowStart.Some? && w.windowStart.value <= now && now - w.windowStart.value <= WINDOW
            && w.failures <= w.total <= MAX_OUTCOMES && w.total <= |h| && w.failures == LastFails(h, w.total)
            && (w.total > 0 ==> w.windowStart.value <= h[|h| - w.total].at)
            && w.openUntil == g.openUntil
  {
  }

  /** Counting one outcome more. */
  lemma CountOne(g: Gate, h: seq<Counted>, c: Counted)
    requires Inv(g, h) && (h != [] ==> h[|h| - 1].at <= c.at)
    ensures var w := Roll(g, c.at);
            Counting(w.(total := w.total + 1, failures := w.failures + (if c.failed then 1 else 0)), h + [c], c.at)
  {
    var w := Roll(g, c.at);
    RollCounts(g, h, c.at);
    LastSnoc(h, w.total, c);
    if g.openUntil.Some? {
      OpenedStays(h, c, g.openUntil.value);
    }
  }

  lemma CountingIsInv(g: Gate, h: seq<Counted>, now: int)
    requires Counting(g, h, now) && g.total <= MAX_OUTCOMES
    ensures Inv(g, h)
  {
  }

  lemma SuccessKeepsInv(g: Gate, h: seq<Counted>, now: int)
    requires Inv(g, h) && (h != [] ==> h[|h| - 1].at <= now)
    ensures Inv(Recorded(g, Succeeded, now), h + [Counted(now, false)])
  {
    var all, w := h + [Counted(now, false)], Roll(g, now);
    CountOne(g, h, Counted(now, false));
    var counted := w.(total := w.total + 1);
    OverflowCounts(counted, all, now);
    TripJustified(Overflow(counted, now, 0), all, now);
    CountingIsInv(Recorded(g, Succeeded, now), all, now);
  }

  lemma FailureKeepsInv(g: Gate, h: seq<Counted>, now: int)
    requires Inv(g, h) && (h != [] ==> h[|h| - 1].at <= now)
    ensures Inv(Recorded(g, TransportFailed, now), h + [Counted(now, true)])
  {
    var all, w := h + [Counted(now, true)], Roll(g, now);
    CountOne(g, h, Counted(now, true));
    var counted := w.(total := w.total + 1, failures := w.failures + 1);
    TripJustified(counted, all, now);
    OverflowCounts(Trip(counted, now), all, now);
    CountingIsInv(Recorded(g, TransportFailed, now), all, now);
  }

  /** Every history keeps the invariant. */
  lemma {:induction false} HistoryKeepsInv(events: seq<Event>)
    requires Clocked(events)
    ensures Inv(After(events), CountedOf(events))
    ensures CountedOf(events) != [] ==> CountedOf(events)[|CountedOf(events)| - 1].at <= events[|events| - 1].at
    decreases |events|
  {
    if events != [] {
      var front, e := events[..|events| - 1], events[|events| - 1];
      HistoryKeepsInv(front);
      var g, h := After(front), CountedOf(front);
      assert front != [] ==> front[|front| - 1].at == events[|events| - 2].at <= e.at;
      StepKeepsInv(g, h, e);
    }
  }

  lemma StepKeepsInv(g: Gate, h: seq<Counted>, e: Event)
    requires Inv(g, h) && (h != [] ==> h[|h| - 1].at <= e.at)
    ensures Inv(Step(g, e), h + (if e.Record? && e.o != Uncounted then [Counted(e.at, e.o == TransportFailed)] else []))
  {
    assert h + [] == h;
    if e.Record? && e.o == Succeeded {
      SuccessKeepsInv(g, h, e.at);
    } else if e.Record? && e.o == TransportFailed {
      FailureKeepsInv(g, h, e.at);
    }
  }

  /** Over every history: the counters stay within bounds; the circuit is open only within 30 s
      of an outcome that closed a window of at least 10 outcomes in at most 30 s, half of them
      transport failures; so without counted outcomes it is closed 30 s later. */
  lemma OpenOnlyWhenJustified(events: seq<Event>, now: int)
    requires Clocked(events)
    ensures After(events).failures <= After(events).total <= 1000
    ensures IsOpenAt(After(events), now) ==>
              exists k: nat :: 0 < k <= |CountedOf(events)| && Justified(CountedOf(events)[..k])
                            && now < CountedOf(events)[k - 1].at + 30 * SECOND
    ensures (forall k :: 0 <= k < |CountedOf(events)| ==> CountedOf(events)[k].at + 30 * SECOND <= now) ==>
              !IsOpenAt(After(events), now)
  {
    HistoryKeepsInv(events);
    var g, h := After(events), CountedOf(events);
    if IsOpenAt(g, now) {
      var k: nat :| 0 < k <= |h| && g.openUntil.value == h[k - 1].at + 30 * SECOND && Justified(h[..k]);
    }
  }

  // ---------------------------------------------------------------- the other direction

  function Records(h: seq<Counted>): Gate {
    if h == [] then CLOSED
    else
      var c := h[|h| - 1];
      Recorded(Records(h[..|h| - 1]), if c.failed then TransportFailed else Succeeded, c.at)
  }

  /** All outcomes lie within 30 s of the first. */
  ghost predicate InOneWindow(h: seq<Counted>) {
    forall i :: 0 <= i < |h| ==> h[0].at <= h[i].at <= h[0].at + 30 * SECOND
  }

  /** One outcome more inside a window that is not full. */
  lemma RecordInWindow(g: Gate, c: Counted)
    requires g.total < MAX_OUTCOMES
    requires g.windowStart.Some? ==> c.at - g.windowStart.value <= WINDOW
    requires g.windowStart.None? ==> g.total == g.failures == 0
    ensures var r := Recorded(g, if c.failed then TransportFailed else Succeeded, c.at);
            var f := g.failures + (if c.failed then 1 else 0);
            && r.total == g.total + 1 && r.failures == f
            && r.windowStart == (if g.windowStart.Some? then g.windowStart else Some(c.at))
            && r.openUntil == if 10 <= g.total + 1 && 2 * f >= g.total + 1
                              then Some(c.at + 30 * SECOND) else g.openUntil
  {
  }

  /** In one fresh window the counters are the counts of the whole window. */
  lemma {:induction false} FreshWindowCounts(h: seq<Counted>)
    requires |h| <= 1000 && InOneWindow(h)
    ensures Records(h).total == |h| && Records(h).failures == Fails(h, 0, |h|)
    ensures Records(h).windowStart == if h == [] then None else Some(h[0].at)
    decreases |h|
  {
    if h != [] {
      var front, c := h[..|h| - 1], h[|h| - 1];
      assert h == front + [c] && (front != [] ==> front[0] == h[0]);
      FreshWindowCounts(front);
      FailsInFront(front, c, 0, |front|);
      RecordInWindow(Records(front), c);
    }
  }

  ghost predicate HadCause(h: seq<Counted>) {
    exists k: nat :: Cause(h, k)
  }

  predicate Cause(h: seq<Counted>, k: nat) {
    10 <= k <= |h| && 2 * Fails(h, 0, k) >= k
  }

  lemma CauseInFront(h: seq<Counted>, c: Counted)
    ensures forall k: nat :: k <= |h| ==> (Cause(h + [c], k) <==> Cause(h, k))
  {
    forall k: nat | k <= |h| ensures Cause(h + [c], k) <==> Cause(h, k) {
      FailsInFront(h, c, 0, k);
    }
  }

  lemma HadCauseSnoc(h: seq<Counted>, c: Counted)
    ensures HadCause(h + [c]) <==> HadCause(h) || Cause(h + [c], |h| + 1)
  {
    var all := h + [c];
    CauseInFront(h, c);
    if k: nat :| Cause(h, k) {
      assert Cause(all, k);
    }
  }

  /** In one fresh window of up to 1000 outcomes the circuit has opened if and only if at some
      point at least 10 outcomes had come in and at least half of them had failed. */
  lemma {:induction false} FreshWindowOpensIff(h: seq<Counted>)
    requires |h| <= 1000 && InOneWindow(h)
    ensures Records(h).openUntil.Some? <==> HadCause(h)
    decreases |h|
  {
    if h != [] {
      var front, c := h[..|h| - 1], h[|h| - 1];
      assert h == front + [c] && (front != [] ==> front[0] == h[0]);
      FreshWindowCounts(front);
      FreshWindowOpensIff(front);
      RecordInWindow(Records(front), c);
      HadCauseSnoc(front, c);
      FreshWindowCounts(h);
    }
  }

  /** The deadline after one outcome more: a justified one sets it, any other leaves it. */
  lemma LastDeadline(h: seq<Counted>, c: Counted)
    requires |h| < 1000 && InOneWindow(h + [c])
    ensures Records(h + [c]).openUntil
            == if Cause(h + [c], |h| + 1) then Some(c.at + 30 * SECOND) else Records(h).openUntil
  {
    var all, n := h + [c], |h| + 1;
    assert Records(all) == Recorded(Records(h), if c.failed then TransportFailed else Succeeded, c.at) by {
      assert all[..|h|] == h;
    }
    assert InOneWindow(h) && forall k :: 0 <= k < n ==> all[0].at <= all[k].at <= all[0].at + 30 * SECOND;
    assert h != [] ==> h[0] == all[0];
    FreshWindowCounts(h);
    FailsInFront(h, c, 0, |h|);
    assert Fails(all, 0, n) == Fails(h, 0, |h|) + if c.failed then 1 else 0;
    RecordInWindow(Records(h), c);
  }

  /** The circuit stays open until 30 s after the last such point: a later one extends the deadline. */
  lemma {:induction false} FreshWindowDeadline(h: seq<Counted>, k: nat)
    requires |h| <= 1000 && InOneWindow(h)
    requires Cause(h, k) && forall m: nat :: m > k ==> !Cause(h, m)
    ensures Records(h).openUntil == Some(h[k - 1].at + 30 * SECOND)
    decreases |h|
  {
    var front, c := h[..|h| - 1], h[|h| - 1];
    assert h == front + [c];
    LastDeadline(front, c);
    if k < |h| {
      CauseInFront(front, c);
      assert forall m: nat :: m > k && Cause(front, m) ==> Cause(h, m);
      FreshWindowDeadline(front, k);
    }
  }
}
