/** Session bindings and the index of explicit ids: `sessionResolver` of
    internal/web/session_resolver.go:44-177, 216-362, 434-588 and 622. */
module SessionResolver {
  import opened Basics
  import opened Messages
  import opened ToolState
  import opened ConversationSafety
  import opened SessionContext
  import WindowSafety

  /** A hash in hexadecimal, or "" for a caller without a key. */
  type Tenant = t: string | '\0' !in t

  datatype Binding = Binding(
    sessionId: string,
    conversationId: string,
    accountId: string,
    createdAt: int,
    lastUsed: int,
    client: string,
    history: seq<Msg>,
    tenant: Tenant,
    explicitId: string)

  type Sessions = map<string, Binding>

  const MAX_SESSIONS: nat := 1000

  // ---------------------------------------------------------------- the two tables

  datatype Tables = Tables(sessions: Sessions, byExplicit: map<string, string>)

  function ExplicitKey(tenant: string, id: string): string {
    tenant + ['\0'] + id
  }

  lemma ExplicitKeyInjective(t: Tenant, a: string, u: Tenant, b: string)
    requires ExplicitKey(t, a) == ExplicitKey(u, b)
    ensures t == u && a == b
  {
    NulSplits(t, a, u, b);
  }

  function KeyOf(b: Binding): string {
    ExplicitKey(b.tenant, b.explicitId)
  }

  /** Every binding sits under its own id, and one with an explicit id is what that id leads
      to. Index entries may be stale: nothing is said about where the others lead. */
  ghost predicate Consistent(t: Tables) {
    && (forall id <- t.sessions :: id != "" && t.sessions[id].sessionId == id)
    && (forall id <- t.sessions :: t.sessions[id].explicitId != "" ==> Indexed(t, id))
  }

  ghost predicate Indexed(t: Tables, id: string)
    requires id in t.sessions
  {
    KeyOf(t.sessions[id]) in t.byExplicit && t.byExplicit[KeyOf(t.sessions[id])] == id
  }

  /** What an explicit id leads to: a live binding of this tenant. */
  function ExplicitTarget(t: Tables, tenant: Tenant, explicitId: string): (r: Option<string>)
    ensures r.Some? ==> r.value in t.sessions && t.sessions[r.value].tenant == tenant
  {
    var key := ExplicitKey(tenant, explicitId);
    if explicitId != "" && key in t.byExplicit && t.byExplicit[key] in t.sessions
       && t.sessions[t.byExplicit[key]].tenant == tenant
    then Some(t.byExplicit[key]) else None
  }

  predicate SameExplicit(a: Binding, b: Binding) {
    a.tenant == b.tenant && a.explicitId == b.explicitId
  }

  /** A live binding is found by its explicit id, and no two bindings share one. */
  lemma ExplicitFindsIt(t: Tables, id: string)
    requires Consistent(t) && id in t.sessions && t.sessions[id].explicitId != ""
    ensures ExplicitTarget(t, t.sessions[id].tenant, t.sessions[id].explicitId) == Some(id)
    ensures forall k <- t.sessions :: SameExplicit(t.sessions[k], t.sessions[id]) ==> k == id
  {
    assert Indexed(t, id);
    assert forall k <- t.sessions :: t.sessions[k].explicitId != "" ==> Indexed(t, k);
  }

  function Dropped(t: Tables, id: string): Tables
    requires id in t.sessions
  {
    var b := t.sessions[id];
    Tables(t.sessions - {id}, if b.explicitId != "" then t.byExplicit - {KeyOf(b)} else t.byExplicit)
  }

  function Reindexed(t: Tables, b: Binding): Tables {
    Tables(t.sessions[b.sessionId := b],
           if b.explicitId != "" then t.byExplicit[KeyOf(b) := b.sessionId] else t.byExplicit)
  }

  /** Dropping a binding deletes the index entry without a look at where it leads; no other
      binding loses its entry. */
  lemma DropKeepsConsistent(t: Tables, id: string)
    requires Consistent(t) && id in t.sessions
    ensures Consistent(Dropped(t, id))
  {
    var after := Dropped(t, id);
    forall k | k in after.sessions && after.sessions[k].explicitId != ""
      ensures Indexed(after, k)
    {
      assert Indexed(t, k);
      assert t.sessions[id].explicitId != "" ==> Indexed(t, id);
    }
  }

  /** Writing a binding keeps the tables consistent exactly when it takes no explicit id away
      from another live binding. */
  lemma ReindexKeepsConsistentIff(t: Tables, b: Binding)
    requires Consistent(t) && b.sessionId != ""
    ensures Consistent(Reindexed(t, b)) <==> TakesNothing(t, b)
  {
    var after := Reindexed(t, b);
    if TakesNothing(t, b) {
      forall k | k in after.sessions && after.sessions[k].explicitId != ""
        ensures Indexed(after, k)
      {
        if k != b.sessionId {
          assert Indexed(t, k);
          if b.explicitId != "" && KeyOf(after.sessions[k]) == KeyOf(b) {
            ExplicitKeyInjective(b.tenant, b.explicitId, after.sessions[k].tenant, after.sessions[k].explicitId);
            assert false;
          }
        }
      }
    }
    if Consistent(after) && b.explicitId != "" {
      forall k | k in t.sessions && SameExplicit(t.sessions[k], b)
        ensures k == b.sessionId
      {
        assert after.sessions[b.sessionId] == b && Indexed(after, b.sessionId);
        assert k in after.sessions && Indexed(after, k);
      }
    }
  }

  ghost predicate TakesNothing(t: Tables, b: Binding) {
    b.explicitId != "" ==>
      forall k <- t.sessions :: SameExplicit(t.sessions[k], b) ==> k == b.sessionId
  }

  /** When the explicit id leads nowhere, no live binding has it. */
  lemma UnclaimedTakesNothing(t: Tables, b: Binding)
    requires Consistent(t)
    requires var target := ExplicitTarget(t, b.tenant, b.explicitId); target.Some? ==> target.value == b.sessionId
    ensures TakesNothing(t, b)
  {
    if b.explicitId != "" {
      forall k | k in t.sessions && SameExplicit(t.sessions[k], b)
        ensures k == b.sessionId
      {
        ExplicitFindsIt(t, k);
      }
    }
  }

  /** A binding that keeps its own explicit id takes nothing either. */
  lemma OwnTakesNothing(t: Tables, b: Binding)
    requires Consistent(t) && b.sessionId in t.sessions && SameExplicit(t.sessions[b.sessionId], b)
    ensures TakesNothing(t, b)
  {
    if b.explicitId != "" {
      ExplicitFindsIt(t, b.sessionId);
    }
  }

  // ---------------------------------------------------------------- eviction

  ghost predicate Part<K, V>(m: map<K, V>, n: map<K, V>) {
    forall k <- m :: k in n && m[k] == n[k]
  }

  /** Nothing expired stays, at most 1000 stay, and what goes is expired or, with 1000 left,
      at least as long unused as everything that stays. */
  ghost predicate Evicted(before: Sessions, after: Sessions, now: int, ttl: int) {
    && Part(after, before)
    && |after| <= 1000
    && (forall id <- after :: now - after[id].lastUsed <= ttl)
    && (forall id <- before :: id !in after ==>
          now - before[id].lastUsed > ttl || (|after| == 1000 && OldestIn(after, before[id].lastUsed)))
  }

  ghost predicate OldestIn(sessions: Sessions, time: int) {
    forall k <- sessions :: time <= sessions[k].lastUsed
  }

  ghost predicate OldestFirst(sessions: Sessions, ids: seq<string>) {
    && (forall i :: 0 <= i < |ids| ==> ids[i] in sessions)
    && (forall i, j :: 0 <= i < j < |ids| ==>
          ids[i] != ids[j] && sessions[ids[i]].lastUsed <= sessions[ids[j]].lastUsed)
  }

  ghost predicate SortedBefore(sessions: Sessions, rest: set<string>, ids: seq<string>)
    requires rest <= sessions.Keys
  {
    && OldestFirst(sessions, ids) && (set id <- ids) == sessions.Keys - rest
    && forall k <- rest, id <- ids :: sessions[id].lastUsed <= sessions[k].lastUsed
  }

  lemma AppendOldest(sessions: Sessions, rest: set<string>, ids: seq<string>, oldest: string)
    requires rest <= sessions.Keys && SortedBefore(sessions, rest, ids)
    requires oldest in rest && forall k <- rest :: sessions[oldest].lastUsed <= sessions[k].lastUsed
    ensures SortedBefore(sessions, rest - {oldest}, ids + [oldest])
  {
    assert oldest !in (set id <- ids);
    assert (set id <- ids + [oldest]) == (set id <- ids) + {oldest};
    assert forall i :: 0 <= i < |ids| ==> ids[i] in ids && ids[i] != oldest;
  }

  method Oldest(sessions: Sessions, among: set<string>) returns (oldest: string)
    requires among <= sessions.Keys && among != {}
    ensures oldest in among && forall k <- among :: sessions[oldest].lastUsed <= sessions[k].lastUsed
  {
    oldest :| oldest in among;
    var others := among - {oldest};
    while others != {}
      invariant others < among && oldest in among - others
      invariant forall k <- among - others :: sessions[oldest].lastUsed <= sessions[k].lastUsed
      decreases |others|
    {
      var k :| k in others;
      others := others - {k};
      if sessions[k].lastUsed < sessions[oldest].lastUsed {
        oldest := k;
      }
    }
  }

  /** Stands for the sort by last use; ties come in any order. */
  method SortByLastUse(sessions: Sessions) returns (ids: seq<string>)
    ensures OldestFirst(sessions, ids) && (set id <- ids) == sessions.Keys && |ids| == |sessions|
  {
    ids := [];
    var rest := sessions.Keys;
    while rest != {}
      invariant rest <= sessions.Keys && SortedBefore(sessions, rest, ids)
      invariant |ids| + |rest| == |sessions.Keys|
      decreases |rest|
    {
      var oldest := Oldest(sessions, rest);
      AppendOldest(sessions, rest, ids, oldest);
      ids := ids + [oldest];
      rest := rest - {oldest};
    }
    assert |sessions.Keys| == |sessions|;
  }

  // ---------------------------------------------------------------- matching

  type Score = Binding -> nat

  /** The greatest score above 0, the most recent use among equals; "" when there is none. */
  ghost predicate Best(sessions: Sessions, score: Score, id: string, n: nat) {
    if id == "" then n == 0 && forall k <- sessions :: score(sessions[k]) == 0
    else
      && id in sessions && n == score(sessions[id]) > 0
      && forall k <- sessions :: !Beats(sessions[k], score(sessions[k]), sessions[id], n)
  }

  predicate Beats(b: Binding, n: nat, than: Binding, m: nat) {
    n > m || (n == m && b.lastUsed > than.lastUsed)
  }

  /** Whose request it is, when, and what it says. */
  datatype Request = Request(tenant: Tenant, client: string, explicitId: string, msgs: seq<Msg>, now: int)

  predicate Eligible(b: Binding, q: Request, contextTTL: int) {
    q.now - b.lastUsed <= contextTTL && b.tenant == q.tenant && b.client == q.client
  }

  ghost function PrefixScore(env: Env, q: Request, contextTTL: int): Score {
    b => if Eligible(b, q, contextTTL) && Resumable(env, b.history, q.msgs) then |b.history| else 0
  }

  /** The `i`-th messages from the end agree. */
  ghost predicate AgreeAt(env: Env, hist: seq<Msg>, msgs: seq<Msg>, i: nat) {
    0 < i <= |hist| && i <= |msgs| && SameMessage(env, hist[|hist| - i], msgs[|msgs| - i])
  }

  /** The last `n` messages agree, and the one before does not. */
  ghost predicate CommonSuffix(env: Env, hist: seq<Msg>, msgs: seq<Msg>, n: nat) {
    && n <= |hist| && n <= |msgs|
    && (forall i: nat :: 0 < i <= n ==> AgreeAt(env, hist, msgs, i))
    && !AgreeAt(env, hist, msgs, n + 1)
  }

  ghost function SuffixFrom(env: Env, hist: seq<Msg>, msgs: seq<Msg>, n: nat): (m: nat)
    requires n <= |hist| && n <= |msgs|
    requires forall i: nat :: 0 < i <= n ==> AgreeAt(env, hist, msgs, i)
    ensures CommonSuffix(env, hist, msgs, m)
    decreases |hist| - n
  {
    if AgreeAt(env, hist, msgs, n + 1) then SuffixFrom(env, hist, msgs, n + 1) else n
  }

  ghost function SuffixLen(env: Env, hist: seq<Msg>, msgs: seq<Msg>): (n: nat)
    ensures CommonSuffix(env, hist, msgs, n)
  {
    SuffixFrom(env, hist, msgs, 0)
  }

  const MIN_SUFFIX: nat := 2

  ghost function SuffixScore(env: Env, q: Request, contextTTL: int): Score {
    b => if Eligible(b, q, contextTTL) && SuffixLen(env, b.history, q.msgs) >= MIN_SUFFIX
         then SuffixLen(env, b.history, q.msgs) else 0
  }

  method SuffixMatchLen(env: Env, hist: seq<Msg>, msgs: seq<Msg>) returns (n: nat)
    ensures n == SuffixLen(env, hist, msgs)
  {
    var maxN := if |hist| > |msgs| then |msgs| else |hist|;
    n := 0;
    for i := 1 to maxN + 1
      invariant n == i - 1 && forall k: nat :: 0 < k < i ==> AgreeAt(env, hist, msgs, k)
    {
      var same := MessagesEqual(env, hist[|hist| - i], msgs[|msgs| - i]);
      assert same <==> AgreeAt(env, hist, msgs, i);
      if !same {
        break;
      }
      n := i;
    }
    CommonSuffixUnique(env, hist, msgs, n);
  }

  lemma CommonSuffixUnique(env: Env, hist: seq<Msg>, msgs: seq<Msg>, n: nat)
    requires CommonSuffix(env, hist, msgs, n)
    ensures n == SuffixLen(env, hist, msgs)
  {
    var m := SuffixLen(env, hist, msgs);
    assert !AgreeAt(env, hist, msgs, n + 1) && !AgreeAt(env, hist, msgs, m + 1);
  }

  // ---------------------------------------------------------------- the resolver

  datatype How = Explicit | ByPrefix | BySuffix

  datatype Resolution =
    | New
    | Reused(sessionId: string, conversationId: string, accountId: string, how: How, historyLen: nat)

  /** The order of preference: explicit id, then longest resumable prefix, then longest common
      suffix. */
  ghost predicate Decides(env: Env, t: Tables, q: Request, contextTTL: int, r: Resolution) {
    var target := ExplicitTarget(t, q.tenant, q.explicitId);
    var prefix, suffix := PrefixScore(env, q, contextTTL), SuffixScore(env, q, contextTTL);
    if target.Some? then
      && r.Reused? && r.how == Explicit && r.sessionId == target.value
      && r.historyLen == |t.sessions[target.value].history|
    else if !Best(t.sessions, prefix, "", 0) then
      r.Reused? && r.how == ByPrefix && r.sessionId != "" && Best(t.sessions, prefix, r.sessionId, r.historyLen)
    else if !Best(t.sessions, suffix, "", 0) then
      r.Reused? && r.how == BySuffix && r.sessionId != "" && Best(t.sessions, suffix, r.sessionId, r.historyLen)
    else
      r.New?
  }

  class Resolver {
    const env: Env
    const ttl: int
    const contextTTL: int
    var sessions: Sessions
    var byExplicit: map<string, string>

    function Now(): Tables reads this {
      Tables(sessions, byExplicit)
    }

    ghost predicate Valid() reads this {
      Consistent(Now()) && |sessions| <= 1001
    }

    constructor (env: Env, ttl: int, contextTTL: int)
      ensures Valid() && Now() == Tables(map[], map[])
      ensures this.env == env && this.ttl == ttl && this.contextTTL == contextTTL
    {
      this.env, this.ttl, this.contextTTL := env, ttl, contextTTL;
      sessions, byExplicit := map[], map[];
    }

    method Reindex(b: Binding)
      modifies this
      ensures Now() == Reindexed(old(Now()), b)
    {
      sessions := sessions[b.sessionId := b];
      if b.explicitId != "" {
        byExplicit := byExplicit[ExplicitKey(b.tenant, b.explicitId) := b.sessionId];
      }
    }

    method Drop(id: string, b: Binding)
      requires Consistent(Now()) && id in sessions && sessions[id] == b
      modifies this
      ensures Consistent(Now()) && Now() == Dropped(old(Now()), id)
      ensures |sessions| + 1 == |old(sessions)| && Part(byExplicit, old(byExplicit))
    {
      DropKeepsConsistent(Now(), id);
      assert sessions.Keys == (sessions - {id}).Keys + {id};
      sessions := sessions - {id};
      if b.explicitId != "" {
        byExplicit := byExplicit - {ExplicitKey(b.tenant, b.explicitId)};
      }
    }

    /** Drops the bindings that `doomed` picks, in any order. */
    method DropWhere(doomed: Binding -> bool) returns (removed: nat)
      requires Consistent(Now())
      modifies this
      ensures Consistent(Now()) && Part(byExplicit, old(byExplicit))
      ensures sessions == map id | id in old(sessions) && !doomed(old(sessions)[id]) :: old(sessions)[id]
      ensures |sessions| + removed == |old(sessions)|
    {
      removed := 0;
      var before, rest := sessions, sessions.Keys;
      while rest != {}
        invariant Consistent(Now()) && Part(byExplicit, old(byExplicit))
        invariant rest <= sessions.Keys && |sessions| + removed == |before|
        invariant sessions == Sifted(before, rest, doomed)
        decreases |rest|
      {
        var id :| id in rest;
        SiftedNext(before, rest, doomed, id);
        rest := rest - {id};
        if doomed(sessions[id]) {
          Drop(id, sessions[id]);
          removed := removed + 1;
        }
      }
    }

    method DropOldest(ids: seq<string>, excess: nat)
      requires Consistent(Now()) && excess <= |ids|
      requires forall i :: 0 <= i < |ids| ==> ids[i] in sessions
      requires forall i, j :: 0 <= i < j < |ids| ==> ids[i] != ids[j]
      modifies this
      ensures Consistent(Now()) && Part(byExplicit, old(byExplicit))
      ensures sessions == Without(old(sessions), ids, excess) && |sessions| == |old(sessions)| - excess
    {
      for i := 0 to excess
        invariant Consistent(Now()) && Part(byExplicit, old(byExplicit))
        invariant sessions == Without(old(sessions), ids, i) && |sessions| == |old(sessions)| - i
      {
        WithoutNext(old(sessions), ids, i);
        Drop(ids[i], sessions[ids[i]]);
      }
    }

    method Evict(now: int)
      requires Valid()
      modifies this
      ensures Valid() && Evicted(old(sessions), sessions, now, ttl)
      ensures Part(byExplicit, old(byExplicit))
    {
      var limit := ttl;
      var expired := DropWhere((b: Binding) => now - b.lastUsed > limit);
      ghost var live := sessions;
      DropExcess();
      ExpiredAndOldestGo(old(sessions), live, sessions, now, ttl);
    }

    /** The second half of the eviction: down to 1000 bindings. */
    method DropExcess()
      requires Consistent(Now())
      modifies this
      ensures Consistent(Now()) && Part(byExplicit, old(byExplicit))
      ensures OldestGone(old(sessions), sessions) && |sessions| <= MAX_SESSIONS
    {
      if |sessions| > MAX_SESSIONS {
        var ids := SortByLastUse(sessions);
        DropOldest(ids, |sessions| - MAX_SESSIONS);
        OldestGo(old(sessions), sessions, ids, |old(sessions)| - MAX_SESSIONS);
      }
    }

    /** The map is visited in an arbitrary order. */
    method MatchContext(q: Request) returns (best: string, n: nat)
      requires Consistent(Now())
      ensures Best(sessions, PrefixScore(env, q, contextTTL), best, n)
      ensures best != "" ==> InReach(sessions[best], q, contextTTL)
    {
      ghost var score := PrefixScore(env, q, contextTTL);
      best, n := "", 0;
      if |q.msgs| == 0 {
        return;
      }
      var recent, rest := 0, sessions.Keys;
      while rest != {}
        invariant rest <= sessions.Keys && BestOutside(sessions, rest, score, best, n)
        invariant best != "" ==> recent == sessions[best].lastUsed
        decreases |rest|
      {
        var id :| id in rest;
        NextBest(sessions, rest, score, best, n, id);
        rest := rest - {id};
        var b := sessions[id];
        if !Eligible(b, q, contextTTL) {
          continue;
        }
        var m := ContextPrefixLen(env, b.history, q.msgs);
        if m >= 1 && (m > n || (m == n && b.lastUsed > recent)) {
          best, n, recent := id, m, b.lastUsed;
        }
      }
    }

    method MatchSuffix(q: Request) returns (best: string, n: nat)
      requires Consistent(Now())
      ensures Best(sessions, SuffixScore(env, q, contextTTL), best, n)
      ensures best != "" ==> InReach(sessions[best], q, contextTTL)
    {
      ghost var score := SuffixScore(env, q, contextTTL);
      best, n := "", 0;
      if |q.msgs| < 2 {
        return;
      }
      var recent, rest := 0, sessions.Keys;
      while rest != {}
        invariant rest <= sessions.Keys && BestOutside(sessions, rest, score, best, n)
        invariant best != "" ==> recent == sessions[best].lastUsed
        decreases |rest|
      {
        var id :| id in rest;
        NextBest(sessions, rest, score, best, n, id);
        rest := rest - {id};
        var b := sessions[id];
        if !Eligible(b, q, contextTTL) || |b.history| < MIN_SUFFIX {
          continue;
        }
        var m := SuffixMatchLen(env, b.history, q.msgs);
        if m >= MIN_SUFFIX && (m > n || (m == n && b.lastUsed > recent)) {
          best, n, recent := id, m, b.lastUsed;
        }
      }
    }

    method Touch(id: string, how: How, n: nat, now: int) returns (r: Resolution)
      requires Consistent(Now()) && id in sessions
      modifies this`sessions
      ensures sessions == old(sessions)[id := old(sessions)[id].(lastUsed := now)]
      ensures r == Reused(id, old(sessions)[id].conversationId, old(sessions)[id].accountId, how, n)
      ensures Consistent(Now()) && |sessions| == |old(sessions)|
    {
      var b := sessions[id];
      sessions := sessions[id := b.(lastUsed := now)];
      assert sessions.Keys == old(sessions).Keys;
      TouchKeepsConsistent(old(Now()), id, now);
      r := Reused(b.sessionId, b.conversationId, b.accountId, how, n);
    }

    /** `mid` is what eviction leaves: the reused binding is marked as used, nothing else
        changes, and the choice among the bindings of `mid` is the documented one. */
    method Resolve(q: Request) returns (r: Resolution, ghost mid: Tables)
      requires Valid()
      modifies this
      ensures Valid() && Evicted(old(sessions), mid.sessions, q.now, ttl)
      ensures Decides(env, mid, q, contextTTL, r)
      ensures r.New? ==> Now() == mid
      ensures r.Reused? ==>
                && r.sessionId in mid.sessions && mid.sessions[r.sessionId].tenant == q.tenant
                && (r.how != Explicit ==>
                      && mid.sessions[r.sessionId].client == q.client
                      && q.now - mid.sessions[r.sessionId].lastUsed <= contextTTL)
                && r.conversationId == mid.sessions[r.sessionId].conversationId
                && r.accountId == mid.sessions[r.sessionId].accountId
                && Now() == mid.(sessions := mid.sessions[r.sessionId := mid.sessions[r.sessionId].(lastUsed := q.now)])
    {
      Evict(q.now);
      mid := Now();
      var target := ExplicitTarget(Now(), q.tenant, q.explicitId);
      if target.Some? {
        r := Touch(target.value, Explicit, |sessions[target.value].history|, q.now);
        return;
      }
      var best, n := MatchContext(q);
      if best != "" {
        r := Touch(best, ByPrefix, n, q.now);
        return;
      }
      best, n := MatchSuffix(q);
      if best != "" {
        r := Touch(best, BySuffix, n, q.now);
        return;
      }
      r := New;
    }

    /** The binding of this tenant that already holds the conversation, if any. */
    method FindConversation(tenant: Tenant, conversationId: string) returns (key: Option<string>)
      ensures key.Some? ==> HoldsConversation(sessions, tenant, conversationId, key.value)
      ensures key.None? ==> forall k :: !HoldsConversation(sessions, tenant, conversationId, k)
    {
      var rest := sessions.Keys;
      while rest != {}
        invariant rest <= sessions.Keys
        invariant forall k <- sessions.Keys - rest :: !HoldsConversation(sessions, tenant, conversationId, k)
        decreases |rest|
      {
        var k :| k in rest;
        if sessions[k].tenant == tenant && sessions[k].conversationId == conversationId {
          return Some(k);
        }
        rest := rest - {k};
      }
      return None;
    }

    /** Stores one turn. The binding that the explicit id leads to is updated, else one of this
        tenant for the same conversation, else a new one is made; all others stay. `answer` is
        None for a blank text, and `uuid` is a new id. */
    method Bind(sessionId: string, conversationId: string, accountId: string, q: Request,
                answer: Option<string>, uuid: string)
      returns (key: string, ghost mid: Tables)
      requires Valid() && uuid != ""
      modifies this
      ensures Valid() && Evicted(old(sessions), mid.sessions, q.now, ttl)
      ensures key in sessions && Now() == Reindexed(mid, sessions[key])
      ensures Turn(env, q, answer, sessions[key].history)
      ensures answer.Some? ==> EndsWithAnswer(sessions[key].history, answer.value)
      ensures sessions[key].sessionId == key && sessions[key].conversationId == conversationId
      ensures sessions[key].accountId == accountId && sessions[key].lastUsed == q.now
      ensures sessions[key].client == q.client && sessions[key].tenant == q.tenant
      ensures BindTarget(mid, q, conversationId, key) || NoBindTarget(mid, q, conversationId)
      ensures BindTarget(mid, q, conversationId, key) ==>
                && sessions[key].createdAt == mid.sessions[key].createdAt
                && sessions[key].explicitId
                   == (if q.explicitId != "" then q.explicitId else mid.sessions[key].explicitId)
      ensures NoBindTarget(mid, q, conversationId) ==>
                && key == (if sessionId == "" then uuid else sessionId)
                && sessions[key].createdAt == q.now && sessions[key].explicitId == q.explicitId
    {
      Evict(q.now);
      mid := Now();
      var history := HistoryOf(env, q, answer);
      var target := FindTarget(q, conversationId);
      if target.Some? {
        key := target.value;
        var explicitId := if q.explicitId != "" then q.explicitId else sessions[key].explicitId;
        var b := sessions[key].(
          conversationId := conversationId,
          accountId := accountId,
          lastUsed := q.now,
          client := q.client,
          history := history,
          tenant := q.tenant,
          explicitId := explicitId);
        if q.explicitId == "" {
          OwnTakesNothing(Now(), b);
        } else {
          UnclaimedTakesNothing(Now(), b);
        }
        Write(b);
      } else {
        key := if sessionId == "" then uuid else sessionId;
        var b := Binding(key, conversationId, accountId, q.now, q.now, q.client, history, q.tenant, q.explicitId);
        ghost var found := ExplicitTarget(mid, q.tenant, q.explicitId);
        assert found.None? || BindTarget(mid, q, conversationId, found.value);
        UnclaimedTakesNothing(Now(), b);
        Write(b);
      }
    }

    /** Writes a bound turn. */
    method Write(b: Binding)
      requires Valid() && |sessions| <= MAX_SESSIONS
      requires b.sessionId != "" && TakesNothing(Now(), b)
      modifies this
      ensures Valid() && Now() == Reindexed(old(Now()), b)
    {
      ReindexKeepsConsistentIff(Now(), b);
      Reindex(b);
      assert sessions.Keys == old(sessions).Keys + {b.sessionId};
    }

    method FindTarget(q: Request, conversationId: string) returns (key: Option<string>)
      requires Consistent(Now())
      ensures key.Some? ==> BindTarget(Now(), q, conversationId, key.value)
      ensures key.Some? ==> key.value in sessions && sessions[key.value].tenant == q.tenant
      ensures key.None? ==> NoBindTarget(Now(), q, conversationId)
    {
      key := ExplicitTarget(Now(), q.tenant, q.explicitId);
      if key.None? && conversationId != "" {
        key := FindConversation(q.tenant, conversationId);
      }
    }

    /** A session id or an explicit id, as this tenant sees it; no key sees nothing. */
    function Lookup(tenant: Tenant, id: string): (r: Option<Binding>)
      reads this
      requires Consistent(Now())
      ensures r.Some? ==> tenant != "" && r.value.tenant == tenant
      ensures r.Some? ==> r.value.sessionId in sessions && sessions[r.value.sessionId] == r.value
      ensures r.Some? <==> tenant != "" && id != "" &&
                           (ExplicitTarget(Now(), tenant, id).Some?
                            || (id in sessions && sessions[id].tenant == tenant))
    {
      if tenant == "" || id == "" then None
      else if id in sessions && sessions[id].tenant == tenant then Some(sessions[id])
      else if ExplicitTarget(Now(), tenant, id).Some? then Some(sessions[ExplicitTarget(Now(), tenant, id).value])
      else None
    }

    method DeleteSession(tenant: Tenant, id: string) returns (ok: bool)
      requires Valid()
      modifies this
      ensures Valid() && ok == old(Lookup(tenant, id)).Some?
      ensures Now() == if ok then Dropped(old(Now()), old(Lookup(tenant, id)).value.sessionId) else old(Now())
    {
      var found := Lookup(tenant, id);
      if found.None? {
        return false;
      }
      Drop(found.value.sessionId, found.value);
      assert sessions.Keys <= old(sessions).Keys;
      CountSubset(sessions.Keys, old(sessions).Keys);
      return true;
    }

    /** For a deleted conversation every tenant loses its bindings, and no other binding goes. */
    method UnbindByConversation(conversationId: string) returns (removed: nat)
      requires Valid()
      modifies this
      ensures Valid()
      ensures sessions ==
              map id | id in old(sessions) && old(sessions)[id].conversationId != conversationId :: old(sessions)[id]
      ensures |sessions| + removed == |old(sessions)|
    {
      removed := DropWhere((b: Binding) => b.conversationId == conversationId);
    }
  }

  // ---------------------------------------------------------------- what the methods rest on

  ghost predicate BestOutside(sessions: Sessions, rest: set<string>, score: Score, id: string, n: nat) {
    if id == "" then n == 0 && forall k <- sessions.Keys - rest :: score(sessions[k]) == 0
    else
      && id in sessions && n == score(sessions[id]) > 0
      && forall k <- sessions.Keys - rest :: !Beats(sessions[k], score(sessions[k]), sessions[id], n)
  }

  /** One more binding is looked at. */
  lemma NextBest(sessions: Sessions, rest: set<string>, score: Score, best: string, n: nat, id: string)
    requires rest <= sessions.Keys && BestOutside(sessions, rest, score, best, n) && id in rest && "" !in sessions
    ensures var m := score(sessions[id]);
            if m > 0 && (best == "" || Beats(sessions[id], m, sessions[best], n))
            then BestOutside(sessions, rest - {id}, score, id, m)
            else BestOutside(sessions, rest - {id}, score, best, n)
  {
    assert sessions.Keys - (rest - {id}) == (sessions.Keys - rest) + {id};
  }

  ghost predicate HoldsConversation(sessions: Sessions, tenant: Tenant, conversationId: string, k: string) {
    k in sessions && sessions[k].tenant == tenant && sessions[k].conversationId == conversationId
  }

  ghost predicate BindTarget(t: Tables, q: Request, conversationId: string, key: string) {
    var target := ExplicitTarget(t, q.tenant, q.explicitId);
    if target.Some? then key == target.value
    else conversationId != "" && HoldsConversation(t.sessions, q.tenant, conversationId, key)
  }

  ghost predicate NoBindTarget(t: Tables, q: Request, conversationId: string) {
    forall k :: !BindTarget(t, q, conversationId, k)
  }

  ghost predicate Turn(env: Env, q: Request, answer: Option<string>, history: seq<Msg>) {
    exists cut :: IsClone(env, q.msgs, cut) && history == if answer.Some? then TurnHistory(cut, answer.value) else cut
  }

  /** What is stored of a turn: its messages, shortened if they are many, and the answer. */
  method HistoryOf(env: Env, q: Request, answer: Option<string>) returns (history: seq<Msg>)
    ensures Turn(env, q, answer, history)
    ensures answer.Some? ==> EndsWithAnswer(history, answer.value)
  {
    history := CloneMessages(env, q.msgs);
    assert IsClone(env, q.msgs, history);
    if answer.Some? {
      history := TurnHistory(history, answer.value);
    }
  }

  lemma CountSubset<T>(a: set<T>, b: set<T>)
    requires a <= b
    ensures |a| <= |b|
  {
    assert b == a + (b - a);
  }

  lemma TouchKeepsConsistent(t: Tables, id: string, now: int)
    requires Consistent(t) && id in t.sessions
    ensures Consistent(t.(sessions := t.sessions[id := t.sessions[id].(lastUsed := now)]))
  {
    var after := t.(sessions := t.sessions[id := t.sessions[id].(lastUsed := now)]);
    forall k | k in after.sessions && after.sessions[k].explicitId != ""
      ensures Indexed(after, k)
    {
      assert Indexed(t, k);
    }
  }

  /** What is left when all but `rest` has been looked at. */
  ghost function Sifted(before: Sessions, rest: set<string>, doomed: Binding -> bool): Sessions {
    map id | id in before && (id in rest || !doomed(before[id])) :: before[id]
  }

  lemma SiftedNext(before: Sessions, rest: set<string>, doomed: Binding -> bool, id: string)
    requires id in rest && id in before
    ensures id in Sifted(before, rest, doomed) && Sifted(before, rest, doomed)[id] == before[id]
    ensures Sifted(before, rest - {id}, doomed)
         == if doomed(before[id]) then Sifted(before, rest, doomed) - {id} else Sifted(before, rest, doomed)
  {
  }

  ghost function Without(sessions: Sessions, ids: seq<string>, n: nat): Sessions
    requires n <= |ids|
  {
    map id | id in sessions && id !in ids[..n] :: sessions[id]
  }

  lemma WithoutNext(sessions: Sessions, ids: seq<string>, i: nat)
    requires i < |ids| && ids[i] in sessions && forall j :: 0 <= j < i ==> ids[j] != ids[i]
    ensures ids[i] in Without(sessions, ids, i)
    ensures Without(sessions, ids, i + 1) == Without(sessions, ids, i) - {ids[i]}
  {
    assert ids[..i + 1] == ids[..i] + [ids[i]];
  }

  ghost predicate OldestGone(live: Sessions, after: Sessions) {
    && Part(after, live)
    && forall id <- live :: id !in after ==> |after| == MAX_SESSIONS && OldestIn(after, live[id].lastUsed)
  }

  lemma OldestGo(live: Sessions, after: Sessions, ids: seq<string>, excess: nat)
    requires OldestFirst(live, ids) && (set id <- ids) == live.Keys && excess <= |ids|
    requires after == Without(live, ids, excess) && |after| == MAX_SESSIONS
    ensures OldestGone(live, after)
  {
    forall id | id in live && id !in after
      ensures OldestIn(after, live[id].lastUsed)
    {
      var i :| 0 <= i < excess && ids[i] == id;
      forall k | k in after ensures live[id].lastUsed <= after[k].lastUsed {
        assert k in (set x <- ids) && k !in ids[..excess];
        assert forall x :: 0 <= x < excess ==> ids[..excess][x] == ids[x];
        var j :| excess <= j < |ids| && ids[j] == k;
      }
    }
  }

  lemma ExpiredAndOldestGo(before: Sessions, live: Sessions, after: Sessions, now: int, ttl: int)
    requires live == map id | id in before && !(now - before[id].lastUsed > ttl) :: before[id]
    requires OldestGone(live, after) && |after| <= MAX_SESSIONS
    ensures Evicted(before, after, now, ttl)
  {
  }

  // ---------------------------------------------------------------- what a reused session means

  /** Same tenant, same client, used within the time limit. */
  ghost predicate InReach(b: Binding, q: Request, contextTTL: int) {
    b.tenant == q.tenant && b.client == q.client && q.now - b.lastUsed <= contextTTL
  }

  /** An explicit id that a live binding of this tenant has decides alone. */
  lemma ExplicitWins(env: Env, t: Tables, q: Request, contextTTL: int, r: Resolution, id: string)
    requires Consistent(t) && Decides(env, t, q, contextTTL, r)
    requires id in t.sessions && q.explicitId != ""
    requires t.sessions[id].tenant == q.tenant && t.sessions[id].explicitId == q.explicitId
    ensures r.Reused? && r.how == Explicit && r.sessionId == id && r.historyLen == |t.sessions[id].history|
  {
    ExplicitFindsIt(t, id);
  }

  /** A stored history that the request replays is never passed over: unless the explicit id leads
      to a binding, the longest such history of this tenant and client is reused, the most
      recently used among equals. */
  lemma ResumableIsReused(env: Env, t: Tables, q: Request, contextTTL: int, r: Resolution, id: string)
    requires Consistent(t) && Decides(env, t, q, contextTTL, r) && ExplicitTarget(t, q.tenant, q.explicitId).None?
    requires id in t.sessions && t.sessions[id].tenant == q.tenant && t.sessions[id].client == q.client
    requires q.now - t.sessions[id].lastUsed <= contextTTL
    requires Resumable(env, t.sessions[id].history, q.msgs)
    ensures r.Reused? && r.how == ByPrefix && r.sessionId in t.sessions
    ensures var n := |t.sessions[id].history|;
            r.historyLen > n || (r.historyLen == n && t.sessions[r.sessionId].lastUsed >= t.sessions[id].lastUsed)
  {
    var score := PrefixScore(env, q, contextTTL);
    assert score(t.sessions[id]) == |t.sessions[id].history| > 0;
    assert !Beats(t.sessions[id], score(t.sessions[id]), t.sessions[r.sessionId], r.historyLen);
  }

  /** Where no history is replayed whole, two common last messages suffice: the longest common
      suffix is reused, the most recently used among equals. */
  lemma SuffixIsReused(env: Env, t: Tables, q: Request, contextTTL: int, r: Resolution, id: string, n: nat)
    requires Consistent(t) && Decides(env, t, q, contextTTL, r) && ExplicitTarget(t, q.tenant, q.explicitId).None?
    requires forall k <- t.sessions :: InReach(t.sessions[k], q, contextTTL) ==>
               !Resumable(env, t.sessions[k].history, q.msgs)
    requires id in t.sessions && InReach(t.sessions[id], q, contextTTL)
    requires n >= 2 && CommonSuffix(env, t.sessions[id].history, q.msgs, n)
    ensures r.Reused? && r.how == BySuffix && r.sessionId in t.sessions
    ensures r.historyLen > n || (r.historyLen == n && t.sessions[r.sessionId].lastUsed >= t.sessions[id].lastUsed)
  {
    var prefix, score := PrefixScore(env, q, contextTTL), SuffixScore(env, q, contextTTL);
    forall k | k in t.sessions ensures prefix(t.sessions[k]) == 0 {
      assert InReach(t.sessions[k], q, contextTTL) || !Eligible(t.sessions[k], q, contextTTL);
    }
    assert Best(t.sessions, prefix, "", 0);
    CommonSuffixUnique(env, t.sessions[id].history, q.msgs, n);
    assert score(t.sessions[id]) == n;
    assert !Beats(t.sessions[id], score(t.sessions[id]), t.sessions[r.sessionId], r.historyLen);
  }

  /** Without an explicit id nothing crosses tenants, clients or the time limit. A prefix match
      reports exactly the length of the matched history, and what follows it in a tidy accepted
      conversation is accepted by itself. */
  lemma ReuseIsSafe(env: Env, t: Tables, q: Request, contextTTL: int, r: Resolution)
    requires Consistent(t) && Decides(env, t, q, contextTTL, r) && r.Reused? && r.how != Explicit
    ensures r.sessionId in t.sessions && t.sessions[r.sessionId].tenant == q.tenant
    ensures t.sessions[r.sessionId].client == q.client && q.now - t.sessions[r.sessionId].lastUsed <= contextTTL
    ensures 0 < r.historyLen <= |q.msgs|
    ensures r.how == ByPrefix ==>
              && Resumable(env, t.sessions[r.sessionId].history, q.msgs)
              && r.historyLen == |t.sessions[r.sessionId].history|
              && (Sound(env) && Tidy(View(env), q.msgs) && Accepts(q.msgs) && r.historyLen < |q.msgs| ==>
                    Accepts(q.msgs[r.historyLen..]))
    ensures r.how == BySuffix ==>
              && r.historyLen >= 2 && CommonSuffix(env, t.sessions[r.sessionId].history, q.msgs, r.historyLen)
              && forall k <- t.sessions ::
                   InReach(t.sessions[k], q, contextTTL) ==> !Resumable(env, t.sessions[k].history, q.msgs)
  {
    var b := t.sessions[r.sessionId];
    if r.how == ByPrefix {
      if Sound(env) {
        ResumeIsSafe(env, b.history, q.msgs);
      }
    } else {
      var prefix := PrefixScore(env, q, contextTTL);
      forall k | k in t.sessions && InReach(t.sessions[k], q, contextTTL)
        ensures !Resumable(env, t.sessions[k].history, q.msgs)
      {
        assert prefix(t.sessions[k]) == 0;
      }
    }
  }

  /** Of two clients of one tenant that send the same words, the second starts anew. */
  lemma OtherClientStartsAnew(env: Env, history: seq<Msg>, msgs: seq<Msg>)
    ensures var t := Tables(map["s" := Binding("s", "conv", "acc", 0, 0, "client A", history, "key", "")], map[]);
            var q := Request("key", "client B", "", msgs, 0);
            Consistent(t) && Decides(env, t, q, HOUR, New)
  {
  }

  /** One finished tool exchange. */
  function Exchange(arguments: string): seq<Msg> {
    [Msg("user", "", "", "", None),
     Msg("assistant", "", "", "", Some([ToolCall("c1", "f", arguments, "")])),
     Msg("tool", "ok", "", "c1", None),
     Msg("assistant", "", "", "", None)]
  }

  /** A stored exchange, and the request of the same client with other arguments. */
  function SuffixTables(): Tables {
    Tables(map["s" := Binding("s", "conv", "acc", 0, 0, "ip", Exchange("b"), "key", "")], map[])
  }

  function SuffixRequest(): Request {
    Request("key", "ip", "", Exchange("a"), 0)
  }

  /** The suffix match reports a length that may fall inside an atom: both conversations are
      accepted and tidy, the two last messages agree, and what is forwarded opens with an orphan
      result. */
  lemma SuffixMatchOrphans()
    ensures var env, q := WindowSafety.CharEnv(), SuffixRequest();
            var r := Reused("s", "conv", "acc", BySuffix, 2);
            && Sound(env) && Tidy(View(env), q.msgs) && Accepts(q.msgs)
            && Consistent(SuffixTables()) && Decides(env, SuffixTables(), q, HOUR, r)
            && !Accepts(Forwarded(q.msgs, r.historyLen))
  {
    var env, t, q := WindowSafety.CharEnv(), SuffixTables(), SuffixRequest();
    ExchangeAccepted("a");
    SuffixDecides();
    assert Forwarded(q.msgs, 2)[0] == q.msgs[2];
  }

  lemma ExchangeAccepted(arguments: string)
    ensures var msgs := Exchange(arguments);
            Accepts(msgs) && Tidy(View(WindowSafety.CharEnv()), msgs)
  {
    var msgs := Exchange(arguments);
    var call, done := State({"c1"}, {}), State({}, {"c1"});
    assert AddCalls(START, msgs[1].Calls()) == Some(call) by {
      assert msgs[1].Calls()[1..] == [] && {} + {"c1"} == {"c1"};
      assert AddCalls(call, []) == Some(call);
    }
    assert Next(START, msgs[0]) == Some(START) && Next(START, msgs[1]) == Some(call);
    assert {"c1"} - {"c1"} == {} && {} + {"c1"} == {"c1"};
    assert msgs[2].role == "tool" && msgs[2].toolCallId == "c1";
    assert Next(call, msgs[2]) == Some(done);
    assert AddCalls(done, []) == Some(done) && Next(done, msgs[3]) == Some(done);
    assert Run(done, []) == Some(done);
    assert msgs[3..][1..] == [] && Run(done, msgs[3..]) == Some(done);
    assert msgs[2..][1..] == msgs[3..] && Run(call, msgs[2..]) == Some(done);
    assert msgs[1..][1..] == msgs[2..] && Run(START, msgs[1..]) == Some(done);
    var lens := View(WindowSafety.CharEnv());
    assert lens.cls(msgs[0]) == UserMsg && lens.cls(msgs[1]) == CallMsg;
    assert lens.cls(msgs[2]) == ToolMsg && lens.cls(msgs[3]) == AssistMsg;
  }

  lemma SuffixDecides()
    ensures var r := Reused("s", "conv", "acc", BySuffix, 2);
            Decides(WindowSafety.CharEnv(), SuffixTables(), SuffixRequest(), HOUR, r)
    ensures Consistent(SuffixTables())
  {
    var env, t, q := WindowSafety.CharEnv(), SuffixTables(), SuffixRequest();
    var hist, msgs := Exchange("b"), q.msgs;
    assert hist[1].Calls()[0].arguments != msgs[1].Calls()[0].arguments;
    assert !SameMessage(env, hist[1], msgs[1]);
    assert !Resumable(env, hist, msgs);
    assert AgreeAt(env, hist, msgs, 1) && AgreeAt(env, hist, msgs, 2) && !AgreeAt(env, hist, msgs, 3);
    CommonSuffixUnique(env, hist, msgs, 2);
    var score := SuffixScore(env, q, HOUR);
    assert score(t.sessions["s"]) == 2;
    assert !Best(t.sessions, score, "", 0);
  }

  /** A binding with an explicit id and a history of two messages, and a request for that id. */
  function ExplicitTables(): Tables {
    Tables(map["s" := Binding("s", "conv", "acc", 0, 0, "ip", [Exchange("b")[0], Exchange("b")[3]], "key", "e")],
           map[ExplicitKey("key", "e") := "s"])
  }

  /** The explicit match reports the length of whatever is stored: what is forwarded opens with an
      orphan result. */
  lemma ExplicitMatchOrphans()
    ensures var env, q := WindowSafety.CharEnv(), SuffixRequest().(explicitId := "e");
            var r := Reused("s", "conv", "acc", Explicit, 2);
            && Sound(env) && Tidy(View(env), q.msgs) && Accepts(q.msgs)
            && Consistent(ExplicitTables()) && Decides(env, ExplicitTables(), q, HOUR, r)
            && !Accepts(Forwarded(q.msgs, r.historyLen))
  {
    var q := SuffixRequest().(explicitId := "e");
    ExchangeAccepted("a");
    assert Forwarded(q.msgs, 2)[0] == q.msgs[2];
    assert Indexed(ExplicitTables(), "s");
    assert ExplicitTarget(ExplicitTables(), "key", "e") == Some("s");
  }

  // ---------------------------------------------------------------- save and load

  /** `loadLocked` on the saved bindings, in the order of the file. */
  function Loaded(list: seq<Binding>, now: int, ttl: int): Tables {
    if list == [] then Tables(map[], map[])
    else
      var last := list[|list| - 1];
      var before := Loaded(list[..|list| - 1], now, ttl);
      if now - last.lastUsed > ttl then before else Reindexed(before, last)
  }

  ghost predicate Saves(t: Tables, list: seq<Binding>) {
    && (forall i :: 0 <= i < |list| ==> list[i].sessionId in t.sessions && t.sessions[list[i].sessionId] == list[i])
    && (forall i, j :: 0 <= i < j < |list| ==> list[i].sessionId != list[j].sessionId)
  }

  /** Reading one binding back. */
  lemma LoadOne(t: Tables, before: Tables, last: Binding)
    requires Consistent(t) && Consistent(before)
    requires last.sessionId in t.sessions && t.sessions[last.sessionId] == last
    requires forall id <- before.sessions :: id in t.sessions && before.sessions[id] == t.sessions[id]
    ensures Consistent(Reindexed(before, last))
  {
    if last.explicitId != "" {
      ExplicitFindsIt(t, last.sessionId);
    }
    assert TakesNothing(before, last);
    ReindexKeepsConsistentIff(before, last);
  }

  ghost predicate IsSaved(list: seq<Binding>, id: string, now: int, ttl: int) {
    exists i :: 0 <= i < |list| && list[i].sessionId == id && now - list[i].lastUsed <= ttl
  }

  lemma SavedSnoc(front: seq<Binding>, last: Binding, id: string, now: int, ttl: int)
    ensures IsSaved(front + [last], id, now, ttl) <==>
            IsSaved(front, id, now, ttl) || (last.sessionId == id && now - last.lastUsed <= ttl)
  {
    var list := front + [last];
    assert list[|front|] == last && forall i :: 0 <= i < |front| ==> list[i] == front[i];
  }

  lemma LoadedSnoc(front: seq<Binding>, last: Binding, now: int, ttl: int)
    ensures var before := Loaded(front, now, ttl);
            Loaded(front + [last], now, ttl) == if now - last.lastUsed > ttl then before else Reindexed(before, last)
  {
    assert (front + [last])[..|front|] == front;
  }

  lemma SavesFront(t: Tables, front: seq<Binding>, last: Binding)
    requires Saves(t, front + [last])
    ensures Saves(t, front) && last.sessionId in t.sessions && t.sessions[last.sessionId] == last
  {
    var list := front + [last];
    assert list[|front|] == last && forall i :: 0 <= i < |front| ==> list[i] == front[i];
  }

  /** Whatever order a consistent state is written in, reading it back gives consistent tables
      with exactly the written bindings that have not expired. */
  lemma {:induction false} LoadRestores(t: Tables, list: seq<Binding>, now: int, ttl: int)
    requires Consistent(t) && Saves(t, list)
    ensures var l := Loaded(list, now, ttl);
            && Consistent(l)
            && (forall id <- l.sessions :: id in t.sessions && l.sessions[id] == t.sessions[id])
            && (forall id :: id in l.sessions <==> IsSaved(list, id, now, ttl))
  {
    if list != [] {
      var front, last := list[..|list| - 1], list[|list| - 1];
      assert list == front + [last];
      SavesFront(t, front, last);
      LoadRestores(t, front, now, ttl);
      LoadedSnoc(front, last, now, ttl);
      if now - last.lastUsed <= ttl {
        LoadOne(t, Loaded(front, now, ttl), last);
      }
      forall id ensures id in Loaded(list, now, ttl).sessions <==> IsSaved(list, id, now, ttl) {
        SavedSnoc(front, last, id, now, ttl);
      }
    }
  }
}
