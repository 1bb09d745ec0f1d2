/** The per-account counting semaphore, internal/web/account_concurrency.go. Each region under
    the mutex is one atomic step; closing the broadcast channel is a new channel generation. */
module AccountConcurrency {

  datatype Sem = Sem(limit: nat, inflight: map<string, nat>, gen: nat)

  function Inflight(s: Sem, account: string): nat {
    if account in s.inflight then s.inflight[account] else 0
  }

  /** The region of `Acquire`: take a slot, or learn the generation to wait for. */
  function AcquireRegion(s: Sem, account: string): (Sem, bool) {
    if Inflight(s, account) < s.limit
    then (s.(inflight := s.inflight[account := Inflight(s, account) + 1]), true)
    else (s, false)
  }

  /** The region of the release function: give the slot back and wake everybody. */
  function ReleaseRegion(s: Sem, account: string): Sem {
    Sem(s.limit,
        if Inflight(s, account) <= 1 then s.inflight - {account} else s.inflight[account := Inflight(s, account) - 1],
        s.gen + 1)
  }

  /** `accountConcurrency`: its fields, and the code between lock and unlock. */
  class Semaphore {
    const limit: nat
    var inflight: map<string, nat>
    var changed: nat

    function View(): Sem reads this { Sem(limit, inflight, changed) }

    constructor (limit: nat)
      ensures View() == Sem(limit, map[], 0)
    {
      this.limit := limit;
      inflight, changed := map[], 0;
    }

    method Available(account: string) returns (free: bool)
      ensures free <==> account == "" || Inflight(View(), account) < limit
    {
      if account == "" {
        return true;
      }
      return (if account in inflight then inflight[account] else 0) < limit;
    }

    method TryAcquire(account: string) returns (granted: bool, waitFor: nat)
      modifies this`inflight
      ensures (View(), granted) == AcquireRegion(old(View()), account)
      ensures waitFor == changed
    {
      var n := if account in inflight then inflight[account] else 0;
      if n < limit {
        inflight := inflight[account := n + 1];
        return true, changed;
      }
      return false, changed;
    }

    method Release(account: string)
      modifies this
      ensures View() == ReleaseRegion(old(View()), account)
    {
      var n := if account in inflight then inflight[account] else 0;
      if n <= 1 {
        inflight := inflight - {account};
      } else {
        inflight := inflight[account := n - 1];
      }
      changed := changed + 1;
    }
  }

  // ---------------------------------------------------------------- all interleavings

  /** Where one call of `Acquire` stands. A call blocks on the channel generation it saw. */
  datatype Phase =
    | Ready(account: string)
    | Blocked(account: string, gen: nat)
    | Holding(account: string)
    | Released(account: string)
    | Cancelled(account: string)

  datatype System = System(sem: Sem, calls: map<nat, Phase>)

  datatype Step =
    | Call(t: nat, account: string)
    | Try(t: nat)
    | Wake(t: nat)
    | Cancel(t: nat)
    | Release(t: nat)

  ghost predicate Init(s: System) {
    s.sem.limit > 0 && s.sem.inflight == map[] && s.calls == map[]
  }

  predicate Enabled(s: System, step: Step) {
    match step
    case Call(t, account) => t !in s.calls && account != ""
    case Try(t) => t in s.calls && s.calls[t].Ready?
    case Wake(t) => t in s.calls && s.calls[t].Blocked? && s.calls[t].gen < s.sem.gen
    case Cancel(t) => t in s.calls && s.calls[t].Blocked?
    case Release(t) => t in s.calls && (s.calls[t].Holding? || s.calls[t].Released?)
  }

  /** One step. The release function runs once: calling it again changes nothing. */
  function Apply(s: System, step: Step): System
    requires Enabled(s, step)
  {
    match step
    case Call(t, account) => s.(calls := s.calls[t := Ready(account)])
    case Try(t) =>
      var a := s.calls[t].account;
      var r := AcquireRegion(s.sem, a);
      System(r.0, s.calls[t := if r.1 then Holding(a) else Blocked(a, s.sem.gen)])
    case Wake(t) => s.(calls := s.calls[t := Ready(s.calls[t].account)])
    case Cancel(t) => s.(calls := s.calls[t := Cancelled(s.calls[t].account)])
    case Release(t) =>
      if s.calls[t].Released? then s
      else System(ReleaseRegion(s.sem, s.calls[t].account), s.calls[t := Released(s.calls[t].account)])
  }

  ghost predicate Run(s: System, steps: seq<Step>, last: System)
    decreases |steps|
  {
    if steps == [] then s == last
    else Enabled(s, steps[0]) && Run(Apply(s, steps[0]), steps[1..], last)
  }

  function Holders(s: System, account: string): set<nat> {
    set t | t in s.calls && s.calls[t] == Holding(account)
  }

  /** The in-flight count is the number of outstanding acquires and stays within the limit, no
      zero entry is stored, and whoever waits on the open channel faces a full account. */
  ghost predicate Inv(s: System) {
    && s.sem.limit > 0
    && (forall a :: Inflight(s.sem, a) == |Holders(s, a)| <= s.sem.limit)
    && (forall a :: a in s.sem.inflight ==> s.sem.inflight[a] > 0)
    && (forall t :: t in s.calls && s.calls[t].Blocked? ==> NoLostWakeup(s, t))
  }

  ghost predicate NoLostWakeup(s: System, t: nat)
    requires t in s.calls && s.calls[t].Blocked?
  {
    s.calls[t].gen <= s.sem.gen && (s.calls[t].gen == s.sem.gen ==> Inflight(s.sem, s.calls[t].account) == s.sem.limit)
  }

  lemma HoldersUpdate(s: System, t: nat, p: Phase, account: string)
    ensures var more := Holders(s.(calls := s.calls[t := p]), account);
            && (p == Holding(account) ==> more == Holders(s, account) + {t})
            && (p != Holding(account) ==> more == Holders(s, account) - {t})
  {
  }

  /** How one step moves the holders of an account and its in-flight count. */
  lemma StepKeepsCounts(s: System, step: Step, a: string)
    requires Inv(s) && Enabled(s, step)
    ensures var next := Apply(s, step);
            Inflight(next.sem, a) == |Holders(next, a)| <= s.sem.limit
  {
    var next, t := Apply(s, step), step.t;
    var before, p := Holders(s, a), next.calls[t];
    assert Inflight(s.sem, a) == |before| <= s.sem.limit;
    HoldersUpdate(s, t, p, a);
    var after := Holders(s.(calls := s.calls[t := p]), a);
    assert Holders(next, a) == after;
    if t in before && p != Holding(a) {
      assert |after| == |before| - 1;
    } else if t !in before && p == Holding(a) {
      assert |after| == |before| + 1;
    } else {
      assert after == before;
    }
  }

  lemma StepKeepsWaiters(s: System, step: Step, x: nat)
    requires Inv(s) && Enabled(s, step)
    requires x in Apply(s, step).calls && Apply(s, step).calls[x].Blocked?
    ensures NoLostWakeup(Apply(s, step), x)
  {
    if x != step.t {
      assert x in s.calls && s.calls[x] == Apply(s, step).calls[x];
      assert NoLostWakeup(s, x);
      var a := s.calls[x].account;
      StepKeepsCounts(s, step, a);
      assert Inflight(s.sem, a) == |Holders(s, a)|;
    } else if step.Try? {
      var a := s.calls[x].account;
      assert Inflight(s.sem, a) == |Holders(s, a)| <= s.sem.limit;
    }
  }

  lemma StepKeepsInv(s: System, step: Step)
    requires Inv(s) && Enabled(s, step)
    ensures Inv(Apply(s, step))
  {
    var next := Apply(s, step);
    forall a ensures Inflight(next.sem, a) == |Holders(next, a)| <= next.sem.limit {
      StepKeepsCounts(s, step, a);
    }
    forall x | x in next.calls && next.calls[x].Blocked? ensures NoLostWakeup(next, x) {
      StepKeepsWaiters(s, step, x);
    }
  }

  /** Every state of every interleaving satisfies the invariant. */
  lemma {:induction false} RunsKeepInv(s: System, steps: seq<Step>, last: System)
    requires Inv(s) && Run(s, steps, last)
    ensures Inv(last)
    decreases |steps|
  {
    if steps != [] {
      StepKeepsInv(s, steps[0]);
      RunsKeepInv(Apply(s, steps[0]), steps[1..], last);
    }
  }

  lemma Reachable(s: System, steps: seq<Step>, last: System)
    requires Init(s) && Run(s, steps, last)
    ensures Inv(last)
  {
    forall a ensures Inflight(s.sem, a) == |Holders(s, a)| {
      assert Holders(s, a) == {};
    }
    RunsKeepInv(s, steps, last);
  }

  lemma HolderOfFull(s: System, account: string) returns (h: nat)
    requires Inv(s) && Inflight(s.sem, account) == s.sem.limit
    ensures h in s.calls && s.calls[h] == Holding(account)
  {
    assert |Holders(s, account)| > 0;
    h :| h in Holders(s, account);
  }

  /** No reachable state strands a caller: at most one release, its wake-up and its retry lead
      to the slot. */
  lemma CallerCanAcquire(s: System, t: nat) returns (steps: seq<Step>, last: System)
    requires Inv(s) && t in s.calls && (s.calls[t].Ready? || s.calls[t].Blocked?)
    ensures Run(s, steps, last) && t in last.calls && last.calls[t] == Holding(s.calls[t].account)
    ensures |steps| <= 3
  {
    var account := s.calls[t].account;
    var ready, before := s, [];
    assert Inflight(s.sem, account) == |Holders(s, account)|;
    if Inflight(s.sem, account) == s.sem.limit {
      var h := HolderOfFull(s, account);
      before := [Release(h)];
      ready := Apply(s, Release(h));
    }
    assert Inflight(ready.sem, account) < s.sem.limit && ready.sem.limit == s.sem.limit;
    assert Run(s, before, ready);
    if s.calls[t].Blocked? {
      assert NoLostWakeup(s, t);
      var woken := Apply(ready, Wake(t));
      RunSnoc(s, before, ready, Wake(t));
      before, ready := before + [Wake(t)], woken;
    }
    steps, last := before + [Try(t)], Apply(ready, Try(t));
    RunSnoc(s, before, ready, Try(t));
  }

  lemma {:induction false} RunSnoc(s: System, steps: seq<Step>, mid: System, step: Step)
    requires Run(s, steps, mid) && Enabled(mid, step)
    ensures Run(s, steps + [step], Apply(mid, step))
    decreases |steps|
  {
    if steps == [] {
      assert Run(Apply(mid, step), [], Apply(mid, step));
    } else {
      assert (steps + [step])[1..] == steps[1..] + [step];
      RunSnoc(Apply(s, steps[0]), steps[1..], mid, step);
    }
  }

  /** A release leaves no caller waiting on the channel that is now open. */
  lemma ReleaseWakesAll(s: System, h: nat, t: nat)
    requires Inv(s) && h in s.calls && s.calls[h].Holding?
    requires t in s.calls && s.calls[t].Blocked?
    ensures Enabled(Apply(s, Release(h)), Wake(t))
  {
    assert NoLostWakeup(s, t);
  }
}
