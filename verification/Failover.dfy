/** Account selection, `resolveAccount` and `nextHealthyAccount` of internal/web/server.go.
    Availability and token validity are stable while one selection runs. */
module Failover {
  import opened AuthCache

  const MAX_PROBE: nat := 16

  /** Why an account cannot be used, checked in the order of the source. */
  datatype Pool = Pool(enabled: string -> bool, healthy: string -> bool, free: string -> bool, valid: string -> bool)
  {
    /** `accountAvailable`: schedulable, not cooling down, below its concurrency limit. */
    predicate Available(id: string) { enabled(id) && healthy(id) && free(id) }
  }

  datatype Choice =
    | Chosen(id: string, valid: bool)
    | NoAccounts
    | NoHealthyAccount
    | NoneEnabled
    | CoolingDown
    | AtConcurrencyLimit

  /** The account met by probe `k` of a selection that starts at index `start`. */
  function Probe(accounts: seq<Account>, start: nat, k: nat): string
    requires |accounts| > 0
  {
    accounts[(start + k) % |accounts|].id
  }

  lemma {:induction false} StepMod(a: nat, k: nat, n: nat)
    requires n > 0
    ensures ((a + k) % n + 1) % n == (a + k + 1) % n
  {
    var q, r := (a + k) / n, (a + k) % n;
    assert a + k == q * n + r;
    if r + 1 == n {
      assert a + k + 1 == (q + 1) * n;
      ModOf(q + 1, 0, n);
      ModOf(1, 0, n);
    } else {
      ModOf(q, r + 1, n);
      ModOf(0, r + 1, n);
    }
  }

  lemma ModOf(q: nat, r: nat, n: nat)
    requires 0 <= r < n
    ensures (q * n + r) % n == r
  {
    var x := q * n + r;
    assert x == (x / n) * n + x % n;
    MulMono(x / n + 1, q, n);
    MulMono(q + 1, x / n, n);
    assert (x / n + 1) * n == (x / n) * n + n && (q + 1) * n == q * n + n;
  }

  lemma MulMono(a: nat, b: nat, n: nat)
    ensures a <= b ==> a * n <= b * n
  {
    if a <= b {
      assert b * n == a * n + (b - a) * n;
    }
  }

  /** `n` consecutive probes of `n` accounts meet every account. */
  lemma ProbesCover(accounts: seq<Account>, start: nat, i: nat) returns (k: nat)
    requires i < |accounts|
    ensures k < |accounts| && Probe(accounts, start, k) == accounts[i].id
  {
    var n := |accounts|;
    var r := start % n;
    assert start == (start / n) * n + r;
    if r <= i {
      k := i - r;
      ModOf(start / n, i, n);
    } else {
      k := i + n - r;
      assert start + k == (start / n + 1) * n + i by {
        assert (start / n + 1) * n == (start / n) * n + n;
      }
      ModOf(start / n + 1, i, n);
    }
  }

  /** No account but the avoided one is available. */
  ghost predicate NoneEligible(accounts: seq<Account>, pool: Pool, avoid: string) {
    forall i :: 0 <= i < |accounts| ==> !Eligible(pool, avoid, accounts[i].id)
  }

  /** What a selection may do to the store: nothing but advance the round robin. */
  class Server {
    const tokens: Store
    var lastHealthy: string

    constructor (tokens: Store)
      ensures this.tokens == tokens && lastHealthy == ""
    {
      this.tokens, lastHealthy := tokens, "";
    }

    /** `nextHealthyAccount`: the first eligible account of up to 16 probes. */
    method NextHealthyAccount(pool: Pool, avoid: string) returns (c: Choice)
      modifies tokens`nextIdx
      ensures c.NoAccounts? <==> |tokens.accounts| == 0
      ensures c.Chosen? || c.NoAccounts? || c.NoHealthyAccount?
      ensures c.Chosen? ==> FirstEligible(tokens.accounts, pool, avoid, old(tokens.nextIdx), 16, c)
      ensures c.NoHealthyAccount? ==> FruitlessProbes(tokens.accounts, pool, avoid, old(tokens.nextIdx), 16)
      // complete for at most 16 accounts, wherever the round robin stands
      ensures 0 < |tokens.accounts| <= 16 ==>
                (c.NoHealthyAccount? <==> NoneEligible(tokens.accounts, pool, avoid))
    {
      ghost var start := tokens.nextIdx;
      for i := 0 to MAX_PROBE
        invariant i > 0 ==> |tokens.accounts| > 0 && tokens.nextIdx == (start + i) % |tokens.accounts|
        invariant i == 0 ==> tokens.nextIdx == start
        invariant i > 0 ==> FruitlessProbes(tokens.accounts, pool, avoid, start, i)
      {
        ghost var idx := tokens.nextIdx;
        var acc, ok := tokens.Next();
        if !ok {
          return NoAccounts;
        }
        ProbeIndex(tokens.accounts, start, idx, i);
        if avoid != "" && acc.id == avoid {
          continue;
        }
        if !pool.Available(acc.id) {
          continue;
        }
        c := Chosen(acc.id, pool.valid(acc.id));
        assert ChosenAt(tokens.accounts, pool, avoid, start, i, c);
        return;
      }
      if |tokens.accounts| <= MAX_PROBE {
        GaveUpMeansNone(tokens.accounts, pool, avoid, start, MAX_PROBE);
      }
      return NoHealthyAccount;
    }

    /** The round-robin loop of `resolveAccount`: up to 17 probes for an available account. */
    method Rotate(pool: Pool) returns (ok: bool, id: string, ghost k: nat)
      modifies tokens`nextIdx
      ensures ok <==> |tokens.accounts| > 0
      ensures ok ==>
                && k <= MAX_PROBE && id == Probe(tokens.accounts, old(tokens.nextIdx), k)
                && FruitlessProbes(tokens.accounts, pool, "", old(tokens.nextIdx), k)
                && (pool.Available(id) || k == MAX_PROBE)
    {
      ghost var start := tokens.nextIdx;
      var acc;
      acc, ok := tokens.Next();
      id, k := acc.id, 0;
      if !ok {
        return;
      }
      ProbeIndex(tokens.accounts, start, start, 0);
      var i := 0;
      while !pool.Available(id) && i < MAX_PROBE
        invariant 0 <= i <= MAX_PROBE && ok && |tokens.accounts| > 0
        invariant tokens.nextIdx == (start + i + 1) % |tokens.accounts|
        invariant id == Probe(tokens.accounts, start, i)
        invariant FruitlessProbes(tokens.accounts, pool, "", start, i)
      {
        ghost var idx := tokens.nextIdx;
        acc, ok := tokens.Next();
        ProbeIndex(tokens.accounts, start, idx, i + 1);
        id := acc.id;
        i := i + 1;
      }
      assert !pool.Available(id) ==> i == MAX_PROBE;
      k := i;
    }

    /** `resolveAccount` without a requested account. */
    method ResolveAccount(pool: Pool) returns (c: Choice)
      modifies this`lastHealthy, tokens`nextIdx
      ensures c.NoAccounts? ==> |tokens.accounts| == 0
      ensures c.Chosen? || c.NoAccounts? || Refused(c)
      ensures lastHealthy == if c.Chosen? && c.valid then c.id else old(lastHealthy)
      ensures Preferable(pool, old(lastHealthy)) && pool.valid(old(lastHealthy)) ==>
                c == Chosen(old(lastHealthy), true) && tokens.nextIdx == old(tokens.nextIdx)
      ensures c.Chosen? && !(Preferable(pool, old(lastHealthy)) && pool.valid(old(lastHealthy))) ==>
                FirstEligible(tokens.accounts, pool, "", old(tokens.nextIdx), 17, c)
      // the reported reason is that of the last probe alone, whatever the others lack
      ensures Refused(c) ==>
                && FruitlessProbes(tokens.accounts, pool, "", old(tokens.nextIdx), 17)
                && var last := Probe(tokens.accounts, old(tokens.nextIdx), 16);
                   && (c.NoneEnabled? <==> !pool.enabled(last))
                   && (c.CoolingDown? <==> pool.enabled(last) && !pool.healthy(last))
                   && (c.AtConcurrencyLimit? <==> pool.enabled(last) && pool.healthy(last) && !pool.free(last))
      // complete for at most 17 accounts, when the preferred one cannot be used
      ensures 0 < |tokens.accounts| <= 17
              && !(Preferable(pool, old(lastHealthy)) && pool.valid(old(lastHealthy))) ==>
                (Refused(c) <==> NoneEligible(tokens.accounts, pool, ""))
    {
      ghost var start := tokens.nextIdx;
      var preferred := lastHealthy;
      if preferred != "" && pool.Available(preferred) {
        if pool.valid(preferred) {
          return Chosen(preferred, true);
        }
      }
      var ok, id;
      ghost var k;
      ok, id, k := Rotate(pool);
      if !ok {
        return NoAccounts;
      }
      if !pool.Available(id) && |tokens.accounts| <= MAX_PROBE + 1 {
        GaveUpMeansNone(tokens.accounts, pool, "", start, MAX_PROBE + 1);
      }
      if !pool.enabled(id) {
        return NoneEnabled;
      }
      if !pool.healthy(id) {
        return CoolingDown;
      }
      if !pool.free(id) {
        return AtConcurrencyLimit;
      }
      if pool.valid(id) {
        lastHealthy := id;
      }
      c := Chosen(id, pool.valid(id));
      assert ChosenAt(tokens.accounts, pool, "", start, k, c);
    }
  }

  predicate Eligible(pool: Pool, avoid: string, id: string) {
    (avoid == "" || id != avoid) && pool.enabled(id) && pool.healthy(id) && pool.free(id)
  }

  /** The last healthy account is tried first. */
  predicate Preferable(pool: Pool, preferred: string) {
    preferred != "" && pool.enabled(preferred) && pool.healthy(preferred) && pool.free(preferred)
  }

  ghost predicate FruitlessProbes(accounts: seq<Account>, pool: Pool, avoid: string, start: nat, probes: nat) {
    |accounts| > 0 && forall j: nat :: j < probes ==> !Eligible(pool, avoid, Probe(accounts, start, j))
  }

  ghost predicate ChosenAt(accounts: seq<Account>, pool: Pool, avoid: string, start: nat, k: nat, c: Choice) {
    && FruitlessProbes(accounts, pool, avoid, start, k)
    && c == Chosen(Probe(accounts, start, k), pool.valid(Probe(accounts, start, k)))
    && Eligible(pool, avoid, Probe(accounts, start, k))
  }

  /** The choice is the first eligible account in round-robin order. */
  ghost predicate FirstEligible(accounts: seq<Account>, pool: Pool, avoid: string, start: nat, probes: nat, c: Choice) {
    exists k: nat :: k < probes && ChosenAt(accounts, pool, avoid, start, k, c)
  }

  predicate Refused(c: Choice) {
    c.NoneEnabled? || c.CoolingDown? || c.AtConcurrencyLimit?
  }

  lemma ProbeIndex(accounts: seq<Account>, start: nat, idx: nat, k: nat)
    requires |accounts| > 0
    requires if k == 0 then idx == start else idx == (start + k) % |accounts|
    ensures accounts[idx % |accounts|].id == Probe(accounts, start, k)
    ensures (idx + 1) % |accounts| == (start + k + 1) % |accounts|
  {
    if k > 0 {
      StepMod(start, k, |accounts|);
      ModOf(0, idx, |accounts|);
    }
  }

  /** Enough fruitless probes mean that no account is eligible. */
  lemma GaveUpMeansNone(accounts: seq<Account>, pool: Pool, avoid: string, start: nat, probes: nat)
    requires 0 < |accounts| <= probes
    requires FruitlessProbes(accounts, pool, avoid, start, probes)
    ensures NoneEligible(accounts, pool, avoid)
  {
    forall i: nat | i < |accounts| ensures !Eligible(pool, avoid, accounts[i].id) {
      var k := ProbesCover(accounts, start, i);
      assert !Eligible(pool, avoid, Probe(accounts, start, k));
    }
  }

  /** The bound is exact: with more than 16 accounts and only the last probe's account eligible, sixteen
      fruitless probes prove nothing. */
  lemma SeventeenthIsMissed(accounts: seq<Account>, pool: Pool, start: nat)
    requires |accounts| > 16 && UniqueIds(accounts)
    requires forall i :: 0 <= i < |accounts| ==>
               (pool.Available(accounts[i].id) <==> i == (start + 16) % |accounts|)
    ensures forall j: nat :: j < 16 ==> !Eligible(pool, "", Probe(accounts, start, j))
    ensures Eligible(pool, "", Probe(accounts, start, 16))
  {
    forall j: nat | j < 16 ensures !Eligible(pool, "", Probe(accounts, start, j)) {
      DistinctProbes(start, j, MAX_PROBE, |accounts|);
    }
  }

  lemma DistinctProbes(start: nat, j: nat, k: nat, n: nat)
    requires j < k < n
    ensures (start + j) % n != (start + k) % n
  {
    var q, r := start / n, start % n;
    assert start == q * n + r && (q + 1) * n == q * n + n;
    WrapAround(q, r, j, n);
    WrapAround(q, r, k, n);
  }

  lemma WrapAround(q: nat, r: nat, k: nat, n: nat)
    requires r < n && k < n
    ensures (q * n + r + k) % n == if r + k < n then r + k else r + k - n
  {
    assert (q + 1) * n == q * n + n;
    if r + k < n {
      ModOf(q, r + k, n);
    } else {
      ModOf(q + 1, r + k - n, n);
    }
  }
}
