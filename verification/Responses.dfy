/** One-shot continuation of stored responses, `responses` of
    internal/web/protocol_handlers.go:346-497. The consume region and the store region, each
    under `responseMu`, are atomic steps; ids are fresh and the clock does not go back. */
module Responses {
  import opened Basics
  import opened Messages

  const MAX_PER_TENANT: nat := 256

  datatype Node = Node(
    at: int, messages: seq<Msg>, toolCalls: set<string>, version: nat, consumed: bool,
    parent: string, tenant: string, session: string)

  type Bucket = map<string, Node>
  type Buckets = map<string, Bucket>

  datatype Reject =
    | UnknownPrevious | TenantMismatch | SessionMismatch | AlreadyConsumed
    | NoPendingCalls | DuplicateOutput(id: string) | NotPending(id: string) | OutputsExpected

  function Namespace(tenant: string, session: string): string { tenant + "\0" + session }

  /** Two requests share a bucket only within one session of one tenant; a tenant is a hash in
      hexadecimal. */
  lemma NamespaceSeparates(t: string, a: string, u: string, b: string)
    requires '\0' !in t && '\0' !in u && Namespace(t, a) == Namespace(u, b)
    ensures t == u && a == b
  {
    assert "\0" == ['\0'];
    NulSplits(t, a, u, b);
  }

  function BucketOf(b: Buckets, key: string): Bucket {
    if key in b then b[key] else map[]
  }

  // ---------------------------------------------------------------- consume

  /** The parent may be continued with these tool outputs. */
  ghost predicate Continuable(n: Node, tenant: string, session: string, ids: seq<string>) {
    && n.messages != [] && (n.tenant == "" || n.tenant == tenant) && n.session == session
    && !n.consumed
    && (ids == [] <==> n.toolCalls == {})
    && (forall i, j :: 0 <= i < j < |ids| ==> ids[i] != ids[j])
    && (forall id :: id in ids ==> id in n.toolCalls)
  }

  /** What each rejection says about the request. */
  ghost predicate Blames(bucket: Bucket, tenant: string, session: string, prev: string, ids: seq<string>, e: Reject) {
    if e.UnknownPrevious? then prev !in bucket || bucket[prev].messages == []
    else
      && prev in bucket
      && var n := bucket[prev];
         match e
         case TenantMismatch => n.tenant != "" && n.tenant != tenant
         case SessionMismatch => n.session != session
         case AlreadyConsumed => n.consumed
         case NoPendingCalls => ids != [] && n.toolCalls == {}
         case DuplicateOutput(id) => exists i, j :: 0 <= i < j < |ids| && ids[i] == ids[j] == id
         case NotPending(id) => id in ids && id !in n.toolCalls
         case OutputsExpected => ids == [] && n.toolCalls != {}
  }

  function Consumed(n: Node): Node {
    n.(version := n.version + 1, consumed := true)
  }

  class ResponseStore {
    var buckets: Buckets

    constructor ()
      ensures buckets == map[]
    {
      buckets := map[];
    }

    /** The consume region: either the parent is continuable, is marked and its history is
        copied out, or nothing changes. */
    method Consume(tenant: string, session: string, prev: string, ids: seq<string>)
      returns (r: Result<seq<Msg>, Reject>)
      modifies this
      ensures var bucket := BucketOf(old(buckets), Namespace(tenant, session));
              r.Success? <==> prev in bucket && Continuable(bucket[prev], tenant, session, ids)
      ensures var key := Namespace(tenant, session);
              r.Success? ==>
                && prev in BucketOf(old(buckets), key)
                && r.value == old(buckets)[key][prev].messages
                && buckets == old(buckets)[key := old(buckets)[key][prev := Consumed(old(buckets)[key][prev])]]
      ensures r.Failure? ==> buckets == old(buckets)
      ensures r.Failure? ==>
                Blames(BucketOf(old(buckets), Namespace(tenant, session)), tenant, session, prev, ids, r.error)
    {
      var key := Namespace(tenant, session);
      var bucket := if key in buckets then buckets[key] else map[];
      if prev !in bucket || |bucket[prev].messages| == 0 {
        return Failure(UnknownPrevious);
      }
      var prior := bucket[prev];
      if prior.tenant != "" && prior.tenant != tenant {
        return Failure(TenantMismatch);
      }
      if prior.session != session {
        return Failure(SessionMismatch);
      }
      if prior.consumed {
        return Failure(AlreadyConsumed);
      }
      if |ids| > 0 {
        if |prior.toolCalls| == 0 {
          return Failure(NoPendingCalls);
        }
        var seen: set<string> := {};
        for i := 0 to |ids|
          invariant seen == set k | 0 <= k < i :: ids[k]
          invariant forall j, k :: 0 <= j < k < i ==> ids[j] != ids[k]
          invariant forall k :: 0 <= k < i ==> ids[k] in prior.toolCalls
        {
          if ids[i] in seen {
            return Failure(DuplicateOutput(ids[i]));
          }
          seen := seen + {ids[i]};
          if ids[i] !in prior.toolCalls {
            return Failure(NotPending(ids[i]));
          }
        }
      } else if |prior.toolCalls| > 0 {
        return Failure(OutputsExpected);
      }
      buckets := buckets[key := bucket[prev := Consumed(prior)]];
      return Success(prior.messages);
    }

    /** The store region: expired nodes go, a full bucket loses one oldest node, the new node
        enters. */
    method Store(id: string, node: Node, now: int) returns (ghost victim: string)
      requires forall key :: key in buckets ==> "" !in buckets[key]
      modifies this
      ensures var key := Namespace(node.tenant, node.session);
              && MayEvict(Unexpired(BucketOf(old(buckets), key), now), victim)
              && buckets == old(buckets)[key := Stored(BucketOf(old(buckets), key), now, victim, id, node)]
    {
      var key := Namespace(node.tenant, node.session);
      var bucket := if key in buckets then buckets[key] else map[];
      bucket, victim := Insert(bucket, id, node, now);
      buckets := buckets[key := bucket];
    }
  }

  /** The store region on its bucket. */
  method Insert(bucket: Bucket, id: string, node: Node, now: int) returns (after: Bucket, ghost victim: string)
    requires "" !in bucket
    ensures MayEvict(Unexpired(bucket, now), victim) && after == Stored(bucket, now, victim, id, node)
    ensures id in after && after[id] == node
    ensures forall k <- after :: k == id || (k in bucket && after[k] == bucket[k] && now - bucket[k].at <= HOUR)
  {
    after := map k | k in bucket && now - bucket[k].at <= HOUR :: bucket[k];
    victim := "";
    if |after| >= MAX_PER_TENANT {
      var oldest := Oldest(after);
      victim := oldest;
      after := after - {oldest};
    } else {
      assert after - {victim} == after;
    }
    after := after[id := node];
  }

  /** The eviction loop: some oldest key, whatever the order of the map. */
  method Oldest(bucket: Bucket) returns (oldest: string)
    requires |bucket| > 0 && "" !in bucket
    ensures oldest in bucket && forall k :: k in bucket ==> bucket[oldest].at <= bucket[k].at
  {
    oldest := "";
    var todo := bucket.Keys;
    while todo != {}
      invariant todo <= bucket.Keys
      invariant oldest == "" <==> todo == bucket.Keys
      invariant oldest != "" ==> oldest in bucket
      invariant oldest != "" ==> forall k :: k in bucket && k !in todo ==> bucket[oldest].at <= bucket[k].at
      decreases |todo|
    {
      var k :| k in todo;
      todo := todo - {k};
      if oldest == "" || bucket[k].at < bucket[oldest].at {
        oldest := k;
      }
    }
  }

  function Unexpired(bucket: Bucket, now: int): Bucket {
    map k | k in bucket && now - bucket[k].at <= HOUR :: bucket[k]
  }

  /** `victim` is an oldest node of a full bucket; "" when nothing has to go. */
  ghost predicate MayEvict(bucket: Bucket, victim: string) {
    if |bucket| < MAX_PER_TENANT then victim == ""
    else victim in bucket && forall k :: k in bucket ==> bucket[victim].at <= bucket[k].at
  }

  function Stored(bucket: Bucket, now: int, victim: string, id: string, node: Node): Bucket {
    (Unexpired(bucket, now) - {victim})[id := node]
  }

  // ---------------------------------------------------------------- all interleavings

  datatype Request =
    | Running(tenant: string, session: string, parent: string, messages: seq<Msg>)
    | Answered(parent: string, id: string)   // stored under a fresh id
    | Ended(parent: string)                  // streamed, failed or refused

  /** A node as it was stored, with its author and the moment of its birth. */
  datatype Birth = Birth(node: Node, author: nat, order: nat)

  /** The store, the requests, and the history of both: every node ever stored and who has
      continued which. `ns` makes bucket keys; nothing below needs it to be injective. */
  datatype System = System(
    ns: (string, string) -> string, buckets: Buckets, requests: map<nat, Request>, clock: int,
    births: map<string, Birth>, continuedBy: map<string, nat>, count: nat)

  datatype Step =
    | Open(t: nat, tenant: string, session: string, messages: seq<Msg>)
    | Continue(t: nat, tenant: string, session: string, prev: string, ids: seq<string>, messages: seq<Msg>)
    | Refuse(t: nat, tenant: string, session: string, prev: string, ids: seq<string>)
    | Answer(t: nat, id: string, now: int, answer: seq<Msg>, victim: string)
    | End(t: nat)

  ghost predicate Init(s: System) {
    s.buckets == map[] && s.requests == map[] && s.births == map[] && s.continuedBy == map[]
  }

  function PendingCalls(answer: seq<Msg>): set<string> {
    if answer == [] then {} else set c | c in answer[0].Calls() && c.id != "" :: c.id
  }

  ghost predicate Enabled(s: System, step: Step) {
    match step
    case Open(t, tenant, _, _) => t !in s.requests && tenant != ""
    case Continue(t, tenant, session, prev, ids, _) =>
      && t !in s.requests && tenant != "" && prev != ""
      && prev in BucketOf(s.buckets, s.ns(tenant, session))
      && Continuable(BucketOf(s.buckets, s.ns(tenant, session))[prev], tenant, session, ids)
    case Refuse(t, tenant, session, prev, ids) =>
      && t !in s.requests && prev != ""
      && !(prev in BucketOf(s.buckets, s.ns(tenant, session))
           && Continuable(BucketOf(s.buckets, s.ns(tenant, session))[prev], tenant, session, ids))
    case Answer(t, id, now, answer, victim) =>
      && t in s.requests && s.requests[t].Running?
      && id != "" && id !in s.births && now >= s.clock && |answer| <= 1
      && MayEvict(Unexpired(BucketOf(s.buckets, s.ns(s.requests[t].tenant, s.requests[t].session)), now), victim)
    case End(t) => t in s.requests && s.requests[t].Running?
  }

  function NewNode(s: System, step: Step): Node
    requires step.Answer? && step.t in s.requests && s.requests[step.t].Running?
  {
    var r := s.requests[step.t];
    Node(step.now, r.messages + step.answer, PendingCalls(step.answer), 1, false, r.parent, r.tenant, r.session)
  }

  ghost function Apply(s: System, step: Step): System
    requires Enabled(s, step)
  {
    match step
    case Open(t, tenant, session, messages) => s.(requests := s.requests[t := Running(tenant, session, "", messages)])
    case Continue(t, tenant, session, prev, ids, messages) =>
      var key := s.ns(tenant, session);
      var prior := BucketOf(s.buckets, key)[prev];
      s.(buckets := s.buckets[key := BucketOf(s.buckets, key)[prev := Consumed(prior)]],
         requests := s.requests[t := Running(tenant, session, prev, prior.messages + messages)],
         continuedBy := s.continuedBy[prev := t])
    case Refuse(t, _, _, prev, _) => s.(requests := s.requests[t := Ended("")])
    case Answer(t, id, now, answer, victim) =>
      var r := s.requests[t];
      var key := s.ns(r.tenant, r.session);
      var node := NewNode(s, step);
      s.(buckets := s.buckets[key := Stored(BucketOf(s.buckets, key), now, victim, id, node)],
         requests := s.requests[t := Request.Answered(r.parent, id)],
         clock := now,
         births := s.births[id := Birth(node, t, s.count)],
         count := s.count + 1)
    case End(t) => s.(requests := s.requests[t := Ended(s.requests[t].parent)])
  }

  ghost predicate Run(s: System, steps: seq<Step>, last: System)
    decreases |steps|
  {
    if steps == [] then s == last
    else Enabled(s, steps[0]) && Run(Apply(s, steps[0]), steps[1..], last)
  }

  // ---------------------------------------------------------------- the invariant

  /** A live node is the stored one, marked exactly when somebody has continued it. */
  ghost predicate LiveOk(s: System, key: string, id: string)
    requires key in s.buckets && id in s.buckets[key]
  {
    var n := s.buckets[key][id];
    && id != "" && id in s.births && key == s.ns(n.tenant, n.session)
    && n == (if id in s.continuedBy then Consumed(s.births[id].node) else s.births[id].node)
  }

  /** What is pending in a node are the calls of its last message, by their non-empty ids. */
  ghost predicate PendingOk(n: Node) {
    n.toolCalls == {} ||
    (n.messages != [] && n.toolCalls == set c | c in n.messages[|n.messages| - 1].Calls() && c.id != "" :: c.id)
  }

  /** A stored node belongs to one answered request and extends its parent's history within the
      same tenant and session. */
  ghost predicate BirthOk(s: System, id: string)
    requires id in s.births
  {
    var b := s.births[id];
    && PendingOk(b.node) && b.order < s.count && b.node.version == 1 && !b.node.consumed && b.node.tenant != ""
    && b.author in s.requests && s.requests[b.author] == Request.Answered(b.node.parent, id)
    && (b.node.parent != "" ==>
          && b.node.parent in s.births && s.births[b.node.parent].order < b.order
          && s.births[b.node.parent].node.messages <= b.node.messages
          && s.births[b.node.parent].node.tenant == b.node.tenant
          && s.births[b.node.parent].node.session == b.node.session)
  }

  /** A request that has a parent is the one that continued it. */
  ghost predicate RequestOk(s: System, t: nat)
    requires t in s.requests
  {
    var r := s.requests[t];
    && (r.parent != "" ==> r.parent in s.continuedBy && s.continuedBy[r.parent] == t && r.parent in s.births)
    && (r.Running? ==>
          && r.tenant != ""
          && (r.parent != "" ==>
                && s.births[r.parent].node.messages <= r.messages
                && s.births[r.parent].node.tenant == r.tenant && s.births[r.parent].node.session == r.session))
    && (r.Answered? ==> r.id in s.births && s.births[r.id].author == t)
  }

  ghost predicate Inv(s: System) {
    && (forall key, id {:trigger LiveOk(s, key, id)} :: key in s.buckets && id in s.buckets[key] ==> LiveOk(s, key, id))
    && (forall key :: key in s.buckets ==> |s.buckets[key]| <= MAX_PER_TENANT)
    && (forall id :: id in s.continuedBy ==> id in s.births)
    && (forall id {:trigger BirthOk(s, id)} :: id in s.births ==> BirthOk(s, id))
    && (forall t {:trigger RequestOk(s, t)} :: t in s.requests ==> RequestOk(s, t))
  }

  lemma SubsetSize(a: set<string>, b: set<string>)
    requires a <= b
    ensures |a| <= |b|
    decreases |a|
  {
    if a != {} {
      var x :| x in a;
      SubsetSize(a - {x}, b - {x});
    }
  }

  /** A bucket within the limit stays within it. */
  lemma StoredSize(bucket: Bucket, now: int, victim: string, id: string, node: Node)
    requires |bucket| <= MAX_PER_TENANT && MayEvict(Unexpired(bucket, now), victim)
    ensures |Stored(bucket, now, victim, id, node)| <= MAX_PER_TENANT
  {
    var young := Unexpired(bucket, now);
    SubsetSize(young.Keys, bucket.Keys);
    assert |young.Keys| == |young| && |bucket.Keys| == |bucket|;
    var kept := young - {victim};
    assert kept.Keys == young.Keys - {victim};
    assert |kept| < MAX_PER_TENANT by {
      assert |kept.Keys| == |kept|;
    }
    assert kept[id := node].Keys == kept.Keys + {id};
    assert |kept[id := node].Keys| == |kept[id := node]|;
  }

  lemma MarkedSize(bucket: Bucket, prev: string, node: Node)
    requires prev in bucket
    ensures |bucket[prev := node]| == |bucket|
  {
    var more := bucket[prev := node];
    assert more.Keys == bucket.Keys;
    assert |more.Keys| == |more| && |bucket.Keys| == |bucket|;
  }

  lemma StepKeepsSizes(s: System, step: Step, key: string)
    requires Inv(s) && Enabled(s, step) && key in Apply(s, step).buckets
    ensures |Apply(s, step).buckets[key]| <= MAX_PER_TENANT
  {
    if step.Continue? && key == s.ns(step.tenant, step.session) {
      var bucket := BucketOf(s.buckets, key);
      MarkedSize(bucket, step.prev, Consumed(bucket[step.prev]));
    } else if step.Answer? && key == s.ns(s.requests[step.t].tenant, s.requests[step.t].session) {
      StoredSize(BucketOf(s.buckets, key), step.now, step.victim, step.id, NewNode(s, step));
    }
  }

  /** Only a live node that nobody has continued can be continued. */
  lemma ContinuedOnce(s: System, tenant: string, session: string, prev: string, ids: seq<string>)
    requires Inv(s) && prev in BucketOf(s.buckets, s.ns(tenant, session))
    requires Continuable(BucketOf(s.buckets, s.ns(tenant, session))[prev], tenant, session, ids)
    ensures prev !in s.continuedBy && prev in s.births
    ensures BucketOf(s.buckets, s.ns(tenant, session))[prev] == s.births[prev].node
    ensures s.births[prev].node.tenant == tenant && s.births[prev].node.session == session
  {
    assert LiveOk(s, s.ns(tenant, session), prev);
    assert BirthOk(s, prev);
  }

  lemma ContinueKeepsLive(s: System, step: Step, key: string, id: string)
    requires Inv(s) && step.Continue? && Enabled(s, step)
    requires key in Apply(s, step).buckets && id in Apply(s, step).buckets[key]
    ensures LiveOk(Apply(s, step), key, id)
  {
    var k := s.ns(step.tenant, step.session);
    assert key in s.buckets && id in s.buckets[key];
    assert LiveOk(s, k, step.prev) && LiveOk(s, key, id);
    ContinuedOnce(s, step.tenant, step.session, step.prev, step.ids);
    ContinueMarks(s, step);
    if id != step.prev {
      ContinueFrame(s, step, key, id);
    } else {
      assert key == k;
    }
  }

  lemma ContinueMarks(s: System, step: Step)
    requires step.Continue? && Enabled(s, step) && step.prev in s.births
    requires var k := s.ns(step.tenant, step.session);
             LiveOk(s, k, step.prev) && s.buckets[k][step.prev] == s.births[step.prev].node
    ensures var k := s.ns(step.tenant, step.session);
            && k in Apply(s, step).buckets && step.prev in Apply(s, step).buckets[k]
            && LiveOk(Apply(s, step), k, step.prev)
  {
  }

  lemma ContinueFrame(s: System, step: Step, key: string, id: string)
    requires step.Continue? && Enabled(s, step) && id != step.prev
    requires key in s.buckets && id in s.buckets[key] && LiveOk(s, key, id)
    requires key in Apply(s, step).buckets && id in Apply(s, step).buckets[key]
    ensures LiveOk(Apply(s, step), key, id)
  {
    assert Apply(s, step).buckets[key][id] == s.buckets[key][id];
  }

  /** What the store region leaves alone. */
  lemma StoredElsewhere(bucket: Bucket, now: int, victim: string, id: string, node: Node, other: string)
    requires other != id && other in Stored(bucket, now, victim, id, node)
    ensures other in bucket && Stored(bucket, now, victim, id, node)[other] == bucket[other]
  {
  }

  lemma LivePersists(s: System, next: System, key: string, id: string)
    requires key in s.buckets && id in s.buckets[key] && LiveOk(s, key, id)
    requires key in next.buckets && id in next.buckets[key] && next.buckets[key][id] == s.buckets[key][id]
    requires next.ns == s.ns && next.continuedBy == s.continuedBy
    requires id in next.births && next.births[id] == s.births[id]
    ensures LiveOk(next, key, id)
  {
  }

  lemma NewNodeLive(s: System, step: Step)
    requires Inv(s) && step.Answer? && Enabled(s, step)
    ensures var key := s.ns(s.requests[step.t].tenant, s.requests[step.t].session);
            && key in Apply(s, step).buckets && step.id in Apply(s, step).buckets[key]
            && LiveOk(Apply(s, step), key, step.id)
  {
    assert step.id !in s.continuedBy;
  }

  /** The store region changes nothing about the other nodes. */
  lemma AnswerFrame(s: System, step: Step, key: string, id: string)
    requires step.Answer? && Enabled(s, step)
    requires key in Apply(s, step).buckets && id in Apply(s, step).buckets[key]
    requires key != s.ns(s.requests[step.t].tenant, s.requests[step.t].session) || id != step.id
    ensures key in s.buckets && id in s.buckets[key] && Apply(s, step).buckets[key][id] == s.buckets[key][id]
    ensures Apply(s, step).ns == s.ns && Apply(s, step).continuedBy == s.continuedBy
    ensures id in s.births ==> id in Apply(s, step).births && Apply(s, step).births[id] == s.births[id]
  {
    var k := s.ns(s.requests[step.t].tenant, s.requests[step.t].session);
    if key == k {
      StoredElsewhere(BucketOf(s.buckets, k), step.now, step.victim, step.id, NewNode(s, step), id);
    }
  }

  lemma AnswerKeepsLive(s: System, step: Step, key: string, id: string)
    requires Inv(s) && step.Answer? && Enabled(s, step)
    requires key in Apply(s, step).buckets && id in Apply(s, step).buckets[key]
    ensures LiveOk(Apply(s, step), key, id)
  {
    if key == s.ns(s.requests[step.t].tenant, s.requests[step.t].session) && id == step.id {
      NewNodeLive(s, step);
    } else {
      AnswerFrame(s, step, key, id);
      assert LiveOk(s, key, id);
      LivePersists(s, Apply(s, step), key, id);
    }
  }

  lemma StepKeepsLive(s: System, step: Step, key: string, id: string)
    requires Inv(s) && Enabled(s, step)
    requires key in Apply(s, step).buckets && id in Apply(s, step).buckets[key]
    ensures LiveOk(Apply(s, step), key, id)
  {
    if step.Continue? {
      ContinueKeepsLive(s, step, key, id);
    } else if step.Answer? {
      AnswerKeepsLive(s, step, key, id);
    } else {
      assert LiveOk(s, key, id);
    }
  }

  lemma StepKeepsBirth(s: System, step: Step, id: string)
    requires Inv(s) && Enabled(s, step) && id in Apply(s, step).births
    ensures BirthOk(Apply(s, step), id)
  {
    if id in s.births {
      assert BirthOk(s, id);
      StepGrows(s, step);
      BirthStays(s, Apply(s, step), id);
    } else {
      assert RequestOk(s, step.t);
      var p := s.requests[step.t].parent;
      assert p != "" ==> BirthOk(s, p);
      NewBirthOk(s, step);
    }
  }

  /** Births and answers are never taken back. */
  lemma StepGrows(s: System, step: Step)
    requires Enabled(s, step)
    ensures s.count <= Apply(s, step).count
    ensures forall x :: x in s.births ==> x in Apply(s, step).births && Apply(s, step).births[x] == s.births[x]
    ensures forall t :: t in s.requests && s.requests[t].Answered? ==>
              t in Apply(s, step).requests && Apply(s, step).requests[t] == s.requests[t]
  {
  }

  /** Later births and other requests do not touch a birth. */
  lemma BirthStays(s: System, next: System, id: string)
    requires id in s.births && BirthOk(s, id) && s.count <= next.count
    requires forall x :: x in s.births ==> x in next.births && next.births[x] == s.births[x]
    requires forall t :: t in s.requests && s.requests[t].Answered? ==>
               t in next.requests && next.requests[t] == s.requests[t]
    ensures BirthOk(next, id)
  {
  }

  lemma NewBirthOk(s: System, step: Step)
    requires step.Answer? && Enabled(s, step) && RequestOk(s, step.t)
    requires var p := s.requests[step.t].parent; p != "" ==> p in s.births && BirthOk(s, p)
    ensures step.id in Apply(s, step).births && BirthOk(Apply(s, step), step.id)
  {
  }

  lemma StepKeepsRequest(s: System, step: Step, t: nat)
    requires Inv(s) && Enabled(s, step) && t in Apply(s, step).requests
    ensures RequestOk(Apply(s, step), t)
  {
    if step.Continue? {
      ContinueKeepsRequest(s, step, t);
    } else if step.Answer? {
      assert RequestOk(s, t);
      AnswerKeepsRequest(s, step, t);
    } else if t in s.requests {
      assert RequestOk(s, t);
    }
  }

  lemma AnswerKeepsRequest(s: System, step: Step, t: nat)
    requires step.Answer? && Enabled(s, step) && t in s.requests && RequestOk(s, t)
    ensures RequestOk(Apply(s, step), t)
  {
    if t != step.t {
      RequestStays(s, Apply(s, step), t);
    }
  }

  /** New births and continuations do not touch another request. */
  lemma RequestStays(s: System, next: System, t: nat)
    requires t in s.requests && RequestOk(s, t)
    requires t in next.requests && next.requests[t] == s.requests[t]
    requires forall id :: id in s.continuedBy ==> id in next.continuedBy && next.continuedBy[id] == s.continuedBy[id]
    requires forall id :: id in s.births ==> id in next.births && next.births[id] == s.births[id]
    ensures RequestOk(next, t)
  {
  }

  lemma ContinueKeepsRequest(s: System, step: Step, t: nat)
    requires Inv(s) && step.Continue? && Enabled(s, step) && t in Apply(s, step).requests
    ensures RequestOk(Apply(s, step), t)
  {
    ContinuedOnce(s, step.tenant, step.session, step.prev, step.ids);
    if t in s.requests {
      assert RequestOk(s, t) && t != step.t;
      RequestStays(s, Apply(s, step), t);
    } else {
      NewRequestOk(s, step);
    }
  }

  lemma NewRequestOk(s: System, step: Step)
    requires step.Continue? && Enabled(s, step) && step.prev in s.births
    requires BucketOf(s.buckets, s.ns(step.tenant, step.session))[step.prev] == s.births[step.prev].node
    requires s.births[step.prev].node.tenant == step.tenant && s.births[step.prev].node.session == step.session
    ensures RequestOk(Apply(s, step), step.t)
  {
  }

  lemma StepKeepsInv(s: System, step: Step)
    requires Inv(s) && Enabled(s, step)
    ensures Inv(Apply(s, step))
  {
    var next := Apply(s, step);
    forall key, id | key in next.buckets && id in next.buckets[key] ensures LiveOk(next, key, id) {
      StepKeepsLive(s, step, key, id);
    }
    forall key | key in next.buckets ensures |next.buckets[key]| <= MAX_PER_TENANT {
      StepKeepsSizes(s, step, key);
    }
    forall id | id in next.continuedBy ensures id in next.births {
      if step.Continue? {
        ContinuedOnce(s, step.tenant, step.session, step.prev, step.ids);
      }
    }
    forall id | id in next.births ensures BirthOk(next, id) {
      StepKeepsBirth(s, step, id);
    }
    forall t | t in next.requests ensures RequestOk(next, t) {
      StepKeepsRequest(s, step, t);
    }
  }

  lemma {:induction false} RunsKeepInv(s: System, steps: seq<Step>, last: System)
    requires Inv(s) && Run(s, steps, last)
    ensures Inv(last)
    decreases |steps|
  {
    if steps != [] {
      StepKeepsInv(s, steps[0]);
      RunsKeepInv(Apply(s, steps[0]), steps[1..], last);
    }
  }

  // ---------------------------------------------------------------- what holds in every run

  /** Each response id is continued at most once: two requests with the same parent are one. */
  lemma ContinuedAtMostOnce(s: System, steps: seq<Step>, last: System, a: nat, b: nat)
    requires Init(s) && Run(s, steps, last)
    requires a in last.requests && b in last.requests && last.requests[a].parent == last.requests[b].parent != ""
    ensures a == b
  {
    RunsKeepInv(s, steps, last);
    assert RequestOk(last, a) && RequestOk(last, b);
  }

  /** No two nodes ever stored share a non-empty parent, so histories are chains, not trees. */
  lemma OneChild(s: System, steps: seq<Step>, last: System, x: string, y: string)
    requires Init(s) && Run(s, steps, last)
    requires x in last.births && y in last.births && last.births[x].node.parent == last.births[y].node.parent != ""
    ensures x == y
  {
    RunsKeepInv(s, steps, last);
    assert BirthOk(last, x) && BirthOk(last, y);
    assert RequestOk(last, last.births[x].author) && RequestOk(last, last.births[y].author);
  }

  /** `a` is `x` or one of the nodes `x` descends from. */
  ghost predicate Ancestor(s: System, a: string, x: string)
    requires Inv(s) && x in s.births
    decreases s.births[x].order
  {
    assert BirthOk(s, x);
    a == x || (s.births[x].node.parent != "" && Ancestor(s, a, s.births[x].node.parent))
  }

  /** Along a chain, histories only grow and never leave their tenant and session. */
  lemma {:induction false} AncestorPrefix(s: System, a: string, x: string)
    requires Inv(s) && x in s.births && a in s.births && Ancestor(s, a, x)
    ensures s.births[a].node.messages <= s.births[x].node.messages
    ensures s.births[a].node.tenant == s.births[x].node.tenant && s.births[a].node.session == s.births[x].node.session
    decreases s.births[x].order
  {
    assert BirthOk(s, x);
    if a != x {
      AncestorPrefix(s, a, s.births[x].node.parent);
    }
  }

  /** What a reachable store shows: buckets of at most 256 nodes, each live node with the
      history it was stored with, counted as consumed exactly when it was continued. */
  lemma BucketsInBounds(s: System, steps: seq<Step>, last: System, key: string, id: string)
    requires Init(s) && Run(s, steps, last)
    requires key in last.buckets && id in last.buckets[key]
    ensures |last.buckets[key]| <= 256 && id in last.births
    ensures var n := last.buckets[key][id];
            && n.messages == last.births[id].node.messages
            && (n.consumed <==> id in last.continuedBy) && n.version == (if n.consumed then 2 else 1)
  {
    RunsKeepInv(s, steps, last);
    assert LiveOk(last, key, id) && BirthOk(last, id);
  }

  /** A continuation reads its own tenant's and session's history even if bucket keys collide,
      and its tool outputs are distinct and were pending. */
  lemma ContinuationIsScoped(s: System, steps: seq<Step>, mid: System, step: Step)
    requires Init(s) && Run(s, steps, mid) && step.Continue? && Enabled(mid, step)
    ensures step.prev in mid.births && step.prev !in mid.continuedBy
    ensures var parent := mid.births[step.prev].node;
            && parent.tenant == step.tenant && parent.session == step.session
            && Apply(mid, step).requests[step.t].messages == parent.messages + step.messages
            && parent.messages != [] && (step.ids == [] <==> parent.toolCalls == {})
            && (forall id :: id in step.ids ==> id in parent.toolCalls)
            && (forall i, j :: 0 <= i < j < |step.ids| ==> step.ids[i] != step.ids[j])
            && (forall id :: id in step.ids ==> CalledLast(parent, id))
  {
    RunsKeepInv(s, steps, mid);
    ContinuedOnce(mid, step.tenant, step.session, step.prev, step.ids);
    assert BirthOk(mid, step.prev);
    PendingWereCalled(mid.births[step.prev].node);
  }

  /** The last message of the node calls this id. */
  predicate CalledLast(n: Node, id: string) {
    id != "" && n.messages != [] && Calls(n.messages[|n.messages| - 1], id)
  }

  lemma PendingWereCalled(n: Node)
    requires PendingOk(n)
    ensures forall id :: id in n.toolCalls ==> CalledLast(n, id)
  {
  }

  predicate Calls(m: Msg, id: string) {
    exists c :: c in m.Calls() && c.id == id
  }

  /** What an answer stores: the history with the answer, what it calls as pending, and nothing
      consumed. */
  lemma AnswerStores(s: System, step: Step)
    requires step.Answer? && Enabled(s, step)
    ensures var next, r := Apply(s, step), s.requests[step.t];
            var key := s.ns(r.tenant, r.session);
            && key in next.buckets && step.id in next.buckets[key] && step.id in next.births
            && var n := next.buckets[key][step.id];
               && n == next.births[step.id].node && n.at == step.now && n.parent == r.parent
               && n.messages == r.messages + step.answer && n.tenant == r.tenant && n.session == r.session
               && n.version == 1 && !n.consumed
               && (step.answer == [] ==> n.toolCalls == {})
               && (step.answer != [] ==>
                     n.toolCalls == set c | c in step.answer[0].Calls() && c.id != "" :: c.id)
  {
  }

  /** The next request of this tenant and session may continue the answer, with outputs for the
      pending calls or, if none is pending, without. */
  lemma AnswerMayBeContinued(s: System, step: Step, t: nat, ids: seq<string>, messages: seq<Msg>)
    requires Inv(s) && step.Answer? && Enabled(s, step) && t !in s.requests
    requires s.requests[step.t].messages + step.answer != []
    requires var pending := PendingCalls(step.answer);
             && (ids == [] <==> pending == {}) && (forall id :: id in ids ==> id in pending)
             && (forall i, j :: 0 <= i < j < |ids| ==> ids[i] != ids[j])
    ensures var r := s.requests[step.t];
            Enabled(Apply(s, step), Continue(t, r.tenant, r.session, step.id, ids, messages))
  {
    assert RequestOk(s, step.t);
    AnswerStores(s, step);
  }

  /** What the store region does with the other nodes of its bucket: those older than an hour go,
      the younger ones stay, but for one oldest of them if there were 256 or more. */
  lemma StoreKeepsYoung(bucket: Bucket, now: int, victim: string, id: string, node: Node, k: string)
    requires "" !in bucket && MayEvict(Unexpired(bucket, now), victim) && k != id
    ensures var after := Stored(bucket, now, victim, id, node);
            && (k in after ==> k in bucket && after[k] == bucket[k] && now - bucket[k].at <= 3600 * SECOND)
            && (k in bucket && now - bucket[k].at <= 3600 * SECOND && k !in after ==>
                  && k == victim && |Unexpired(bucket, now)| >= 256
                  && forall x :: x in bucket && now - bucket[x].at <= 3600 * SECOND ==> bucket[k].at <= bucket[x].at)
  {
    var young := Unexpired(bucket, now);
    assert forall x :: x in bucket && now - bucket[x].at <= 3600 * SECOND ==> x in young && young[x] == bucket[x];
  }
}
