/** Single-flight token refresh, `refreshInflight` of internal/auth/cache.go:487-539. Each region
    under the store mutex, the refresh itself, and the close of the channel are atomic steps. */
module SingleFlight {
  import opened Basics

  /** What a caller gets: the account and the error. Opaque here. */
  datatype Outcome = Outcome(account: string, err: Option<string>)

  /** One `inflightRefresh`; `leader` is the caller that created it. */
  datatype Flight = Flight(id: string, leader: nat, result: Option<Outcome>, closed: bool)

  datatype Pc =
    | Leading(id: string, f: nat)    // refreshing
    | Resolved(id: string, f: nat)   // result stored, channel open
    | Closed(id: string, f: nat)     // channel closed, entry not removed
    | Following(id: string, f: nat)  // waits for the channel
    | Done(id: string, f: nat, got: Outcome)

  datatype System = System(inflight: map<string, nat>, flights: seq<Flight>, pcs: map<nat, Pc>)

  datatype Step =
    | Enter(t: nat, id: string)
    | Resolve(t: nat, r: Outcome)
    | Close(t: nat)
    | Remove(t: nat)
    | Return(t: nat)

  const START := System(map[], [], map[])

  predicate Enabled(s: System, step: Step) {
    match step
    case Enter(t, _) => t !in s.pcs
    case Resolve(t, _) => t in s.pcs && s.pcs[t].Leading? && s.pcs[t].f < |s.flights|
    case Close(t) => t in s.pcs && s.pcs[t].Resolved? && s.pcs[t].f < |s.flights|
    case Remove(t) => t in s.pcs && s.pcs[t].Closed? && s.pcs[t].f < |s.flights| && s.flights[s.pcs[t].f].result.Some?
    case Return(t) =>
      && t in s.pcs && s.pcs[t].Following? && s.pcs[t].f < |s.flights|
      && s.flights[s.pcs[t].f].closed && s.flights[s.pcs[t].f].result.Some?
  }

  function Apply(s: System, step: Step): System
    requires Enabled(s, step)
  {
    match step
    case Enter(t, id) =>
      if id in s.inflight then s.(pcs := s.pcs[t := Following(id, s.inflight[id])])
      else
        var f := |s.flights|;
        System(s.inflight[id := f], s.flights + [Flight(id, t, None, false)], s.pcs[t := Leading(id, f)])
    case Resolve(t, r) =>
      var f := s.pcs[t].f;
      s.(flights := s.flights[f := s.flights[f].(result := Some(r))], pcs := s.pcs[t := Resolved(s.pcs[t].id, f)])
    case Close(t) =>
      var f := s.pcs[t].f;
      s.(flights := s.flights[f := s.flights[f].(closed := true)], pcs := s.pcs[t := Closed(s.pcs[t].id, f)])
    case Remove(t) =>
      var p := s.pcs[t];
      s.(inflight := s.inflight - {p.id}, pcs := s.pcs[t := Done(p.id, p.f, s.flights[p.f].result.value)])
    case Return(t) =>
      var p := s.pcs[t];
      s.(pcs := s.pcs[t := Done(p.id, p.f, s.flights[p.f].result.value)])
  }

  ghost predicate Run(s: System, steps: seq<Step>, last: System)
    decreases |steps|
  {
    if steps == [] then s == last
    else Enabled(s, steps[0]) && Run(Apply(s, steps[0]), steps[1..], last)
  }

  /** The caller is responsible for the flight: it refreshes, closes and removes it. */
  predicate Leads(p: Pc) {
    p.Leading? || p.Resolved? || p.Closed?
  }

  /** What the position of one caller says about its flight. */
  ghost predicate CallerOk(s: System, t: nat)
    requires t in s.pcs
  {
    var p := s.pcs[t];
    && p.f < |s.flights| && s.flights[p.f].id == p.id
    && (Leads(p) ==> s.flights[p.f].leader == t && p.id in s.inflight && s.inflight[p.id] == p.f)
    && (p.Leading? ==> s.flights[p.f].result.None? && !s.flights[p.f].closed)
    && (p.Resolved? ==> s.flights[p.f].result.Some? && !s.flights[p.f].closed)
    && (p.Closed? ==> s.flights[p.f].closed)
    && (p.Done? ==> s.flights[p.f].closed && s.flights[p.f].result == Some(p.got))
  }

  /** A flight is led by its creator until the channel is closed, which is after the result. */
  ghost predicate FlightOk(s: System, f: nat)
    requires f < |s.flights|
  {
    var x := s.flights[f];
    && x.leader in s.pcs && s.pcs[x.leader].f == f && s.pcs[x.leader].id == x.id
    && !s.pcs[x.leader].Following?
    && (x.closed ==> x.result.Some?)
  }

  ghost predicate Inv(s: System) {
    && (forall t :: t in s.pcs ==> CallerOk(s, t))
    && (forall f :: 0 <= f < |s.flights| ==> FlightOk(s, f))
    && (forall id :: id in s.inflight ==> EntryOk(s, id))
  }

  ghost predicate EntryOk(s: System, id: string)
    requires id in s.inflight
  {
    var f := s.inflight[id];
    f < |s.flights| && s.flights[f].id == id && s.flights[f].leader in s.pcs && Leads(s.pcs[s.flights[f].leader])
  }

  lemma StepKeepsCaller(s: System, step: Step, t: nat)
    requires Inv(s) && Enabled(s, step) && t in Apply(s, step).pcs
    ensures CallerOk(Apply(s, step), t)
  {
    var me := step.t;
    assert me in s.pcs ==> CallerOk(s, me) && FlightOk(s, s.pcs[me].f);
    if t != me {
      assert CallerOk(s, t);
    } else if step.Enter? && step.id in s.inflight {
      assert EntryOk(s, step.id);
    }
  }

  lemma StepKeepsFlight(s: System, step: Step, f: nat)
    requires Inv(s) && Enabled(s, step) && f < |Apply(s, step).flights|
    ensures FlightOk(Apply(s, step), f)
  {
    var me := step.t;
    assert me in s.pcs ==> CallerOk(s, me);
    if f < |s.flights| {
      assert FlightOk(s, f);
    }
  }

  lemma StepKeepsEntry(s: System, step: Step, id: string)
    requires Inv(s) && Enabled(s, step) && id in Apply(s, step).inflight
    ensures EntryOk(Apply(s, step), id)
  {
    var me := step.t;
    assert me in s.pcs ==> CallerOk(s, me);
    if id in s.inflight {
      assert EntryOk(s, id) && FlightOk(s, s.inflight[id]);
    }
  }

  lemma StepKeepsInv(s: System, step: Step)
    requires Inv(s) && Enabled(s, step)
    ensures Inv(Apply(s, step))
  {
    var next := Apply(s, step);
    forall t | t in next.pcs ensures CallerOk(next, t) { StepKeepsCaller(s, step, t); }
    forall f | 0 <= f < |next.flights| ensures FlightOk(next, f) { StepKeepsFlight(s, step, f); }
    forall id | id in next.inflight ensures EntryOk(next, id) { StepKeepsEntry(s, step, id); }
  }

  /** A stored result is never changed. */
  lemma StepKeepsResults(s: System, step: Step, f: nat)
    requires Inv(s) && Enabled(s, step) && f < |s.flights| && s.flights[f].result.Some?
    ensures f < |Apply(s, step).flights| && Apply(s, step).flights[f].result == s.flights[f].result
  {
    if step.Resolve? {
      assert CallerOk(s, step.t);
    }
  }

  lemma {:induction false} RunsKeepInv(s: System, steps: seq<Step>, last: System)
    requires Inv(s) && Run(s, steps, last)
    ensures Inv(last)
    ensures forall f :: 0 <= f < |s.flights| && s.flights[f].result.Some? ==>
              f < |last.flights| && last.flights[f].result == s.flights[f].result
    decreases |steps|
  {
    if steps != [] {
      StepKeepsInv(s, steps[0]);
      forall f: nat | f < |s.flights| && s.flights[f].result.Some?
        ensures f < |Apply(s, steps[0]).flights| && Apply(s, steps[0]).flights[f].result == s.flights[f].result
      {
        StepKeepsResults(s, steps[0], f);
      }
      RunsKeepInv(Apply(s, steps[0]), steps[1..], last);
    }
  }

  /** In every reachable state at most one caller leads the refresh of an account. */
  lemma OneLeader(steps: seq<Step>, s: System, a: nat, b: nat)
    requires Run(START, steps, s)
    requires a in s.pcs && b in s.pcs && Leads(s.pcs[a]) && Leads(s.pcs[b]) && s.pcs[a].id == s.pcs[b].id
    ensures a == b
  {
    RunsKeepInv(START, steps, s);
    assert CallerOk(s, a) && CallerOk(s, b);
  }

  /** The channel a leader closes is open and its result is set: no second close. */
  lemma ClosedOnceAfterResult(steps: seq<Step>, s: System, t: nat)
    requires Run(START, steps, s) && t in s.pcs && s.pcs[t].Resolved?
    ensures Enabled(s, Close(t)) && !s.flights[s.pcs[t].f].closed && s.flights[s.pcs[t].f].result.Some?
  {
    RunsKeepInv(START, steps, s);
    assert CallerOk(s, t);
  }

  /** Every caller of a flight returns what its leader stored, whatever happens in between. */
  lemma SameOutcome(steps: seq<Step>, s: System, more: seq<Step>, last: System, leader: nat, t: nat)
    requires Run(START, steps, s) && Run(s, more, last)
    requires leader in s.pcs && (s.pcs[leader].Resolved? || s.pcs[leader].Closed? || s.pcs[leader].Done?)
    requires t in last.pcs && last.pcs[t].Done? && last.pcs[t].f == s.pcs[leader].f
    ensures s.pcs[leader].f < |s.flights| && s.flights[s.pcs[leader].f].result == Some(last.pcs[t].got)
  {
    RunsKeepInv(START, steps, s);
    RunsKeepInv(s, more, last);
    assert CallerOk(s, leader) && CallerOk(last, t);
    assert FlightOk(s, s.pcs[leader].f);
  }

  /** When every caller has returned, nothing is left in the map. */
  lemma QuiescentIsEmpty(steps: seq<Step>, s: System)
    requires Run(START, steps, s) && forall t :: t in s.pcs ==> s.pcs[t].Done?
    ensures s.inflight == map[]
  {
    RunsKeepInv(START, steps, s);
    forall id ensures id !in s.inflight {
      assert id in s.inflight ==> EntryOk(s, id);
    }
  }

  /** No reachable state strands a follower: its leader can finish alone, and then it returns
      the leader's outcome. */
  lemma FollowerCanReturn(s: System, t: nat, r: Outcome) returns (steps: seq<Step>, last: System)
    requires Inv(s) && t in s.pcs && s.pcs[t].Following?
    ensures Run(s, steps, last) && t in last.pcs && last.pcs[t].Done? && last.pcs[t].f == s.pcs[t].f
    ensures s.pcs[t].f < |s.flights|
    ensures last.pcs[t].got == if s.flights[s.pcs[t].f].result.Some? then s.flights[s.pcs[t].f].result.value else r
  {
    assert CallerOk(s, t);
    var f := s.pcs[t].f;
    var leader := s.flights[f].leader;
    assert FlightOk(s, f) && CallerOk(s, leader);
    var closed;
    steps, closed := LeaderCloses(s, leader, f, r);
    last := Apply(closed, Return(t));
    RunSnoc(s, steps, closed, Return(t));
    steps := steps + [Return(t)];
  }

  /** A leader that has not closed its channel can do so alone. */
  lemma LeaderCloses(s: System, leader: nat, f: nat, r: Outcome) returns (steps: seq<Step>, last: System)
    requires f < |s.flights| && s.flights[f].leader == leader && FlightOk(s, f)
    requires leader in s.pcs && CallerOk(s, leader)
    ensures Run(s, steps, last) && f < |last.flights| && last.flights[f].closed
    ensures forall t :: t in s.pcs && t != leader ==> t in last.pcs && last.pcs[t] == s.pcs[t]
    ensures last.flights[f].result == Some(if s.flights[f].result.Some? then s.flights[f].result.value else r)
  {
    steps, last := [], s;
    if s.pcs[leader].Leading? {
      last := Apply(s, Resolve(leader, r));
      RunSnoc(s, [], s, Resolve(leader, r));
      steps := [Resolve(leader, r)];
    }
    if last.pcs[leader].Resolved? {
      RunSnoc(s, steps, last, Close(leader));
      steps, last := steps + [Close(leader)], Apply(last, Close(leader));
    }
  }

  lemma {:induction false} RunSnoc(s: System, steps: seq<Step>, mid: System, step: Step)
    requires Run(s, steps, mid) && Enabled(mid, step)
    ensures Run(s, steps + [step], Apply(mid, step))
    decreases |steps|
  {
    if steps == [] {
      assert Run(Apply(mid, step), [], Apply(mid, step));
    } else {
      assert (steps + [step])[1..] == steps[1..] + [step];
      RunSnoc(Apply(s, steps[0]), steps[1..], mid, step);
    }
  }
}
