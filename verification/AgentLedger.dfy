/** The evidence ledger rebuilt from a conversation, internal/web/agent_ledger.go:
    `buildAgentLedger`, `CanContinue`, `activeMessages`. */
module AgentLedger {
  import opened Basics
  import opened Messages
  import opened ToolState
  import opened ConversationSafety

  datatype Evidence = Evidence(id: string, name: string, arguments: string, result: string, failed: bool)

  /** `digest` is compactToolResult of the rendered content, `printed` the printed arguments,
      `fails` the failure pattern, `normal` the normalised failure text. */
  datatype Lib = Lib(
    digest: string -> string,
    printed: ToolCall -> string,
    fails: string -> bool,
    normal: string -> string)

  datatype Ledger = Ledger(
    completed: seq<Evidence>,
    pending: seq<Evidence>,
    rounds: nat,
    repeatedCall: bool,
    repeatedFailure: bool,
    stuck: bool,
    signature: string)

  datatype Verdict = MayContinue | RoundLimit(limit: nat) | Stuck | RepeatedFailure | PendingResults

  // ---------------------------------------------------------------- reading the conversation

  datatype Notes = Notes(calls: map<string, Evidence>, order: seq<string>)

  function NoteCalls(lib: Lib, n: Notes, calls: seq<ToolCall>): Notes
    decreases |calls|
  {
    if calls == [] then n
    else
      var c, before := calls[|calls| - 1], NoteCalls(lib, n, calls[..|calls| - 1]);
      if c.id == "" then before
      else Notes(before.calls[c.id := Evidence(c.id, c.name, lib.printed(c), "", false)], before.order + [c.id])
  }

  function NoteMessage(lib: Lib, n: Notes, m: Msg): Notes {
    if m.role == "assistant" then NoteCalls(lib, n, m.Calls())
    else if m.role == "tool" && m.toolCallId in n.calls then
      var result := lib.digest(m.content);
      n.(calls := n.calls[m.toolCallId := n.calls[m.toolCallId].(result := result, failed := lib.fails(result))])
    else n
  }

  function Scan(lib: Lib, msgs: seq<Msg>): Notes {
    if msgs == [] then Notes(map[], [])
    else NoteMessage(lib, Scan(lib, msgs[..|msgs| - 1]), msgs[|msgs| - 1])
  }

  ghost predicate OrderKnown(n: Notes) {
    forall id :: id in n.order ==> id in n.calls
  }

  /** The two nested loops of the first half of `buildAgentLedger`. */
  method ReadConversation(lib: Lib, messages: seq<Msg>) returns (n: Notes)
    ensures n == Scan(lib, messages) && OrderKnown(n)
  {
    var calls: map<string, Evidence>, order := map[], [];
    for i := 0 to |messages|
      invariant Notes(calls, order) == Scan(lib, messages[..i]) && OrderKnown(Notes(calls, order))
    {
      var m := messages[i];
      assert messages[..i + 1][..i] == messages[..i];
      if m.role == "assistant" {
        ghost var before := Notes(calls, order);
        var raw := m.Calls();
        for k := 0 to |raw|
          invariant Notes(calls, order) == NoteCalls(lib, before, raw[..k]) && OrderKnown(Notes(calls, order))
        {
          var c := raw[k];
          assert raw[..k + 1][..k] == raw[..k];
          if c.id != "" {
            calls := calls[c.id := Evidence(c.id, c.name, lib.printed(c), "", false)];
            order := order + [c.id];
          }
        }
        assert raw[..|raw|] == raw;
      }
      if m.role == "tool" {
        if m.toolCallId in calls {
          var result := lib.digest(m.content);
          calls := calls[m.toolCallId := calls[m.toolCallId].(result := result, failed := lib.fails(result))];
        }
      }
    }
    assert messages[..|messages|] == messages;
    n := Notes(calls, order);
  }

  // ---------------------------------------------------------------- the verdict over the entries

  function Entries(n: Notes): seq<Evidence>
    requires OrderKnown(n)
  {
    seq(|n.order|, k requires 0 <= k < |n.order| => n.calls[n.order[k]])
  }

  /** What repetitions are recognised by. */
  datatype Signs = Signs(call: Evidence -> string, failure: Evidence -> string)

  function SignsOf(lib: Lib): Signs {
    Signs(
      (e: Evidence) => e.name + "\0" + e.arguments,
      (e: Evidence) => e.name + "\0" + e.arguments + "\0" + lib.normal(e.result))
  }

  predicate IsPending(e: Evidence) { e.result == "" }

  predicate IsFailure(e: Evidence) { e.result != "" && e.failed }

  function PendingOf(es: seq<Evidence>): seq<Evidence> {
    if es == [] then [] else PendingOf(es[..|es| - 1]) + (if IsPending(es[|es| - 1]) then [es[|es| - 1]] else [])
  }

  function CompletedOf(es: seq<Evidence>): seq<Evidence> {
    if es == [] then [] else CompletedOf(es[..|es| - 1]) + (if IsPending(es[|es| - 1]) then [] else [es[|es| - 1]])
  }

  /** How often each call, and each failure, occurs. */
  function CallCounts(signs: Signs, es: seq<Evidence>): multiset<string> {
    if es == [] then multiset{} else CallCounts(signs, es[..|es| - 1]) + multiset{signs.call(es[|es| - 1])}
  }

  function FailureCounts(signs: Signs, es: seq<Evidence>): multiset<string> {
    if es == [] then multiset{}
    else
      FailureCounts(signs, es[..|es| - 1])
      + (if IsFailure(es[|es| - 1]) then multiset{signs.failure(es[|es| - 1])} else multiset{})
  }

  /** The newest entry that repeats an earlier one names the repetition, a repeated failure
      rather than a repeated call. */
  function NewestRepeat(signs: Signs, es: seq<Evidence>): string {
    if es == [] then ""
    else
      var front, e := es[..|es| - 1], es[|es| - 1];
      if IsFailure(e) && signs.failure(e) in FailureCounts(signs, front) then signs.failure(e)
      else if signs.call(e) in CallCounts(signs, front) then signs.call(e)
      else NewestRepeat(signs, front)
  }

  ghost predicate Occurs(counts: multiset<string>, times: nat) {
    exists s :: counts[s] >= times
  }

  /** What the ledger says about its entries, by counting and not by scanning. */
  ghost predicate LedgerOf(signs: Signs, es: seq<Evidence>, l: Ledger) {
    && l.pending == PendingOf(es) && l.completed == CompletedOf(es) && l.rounds == |es|
    && l.signature == NewestRepeat(signs, es)
    && FlagsFit(CallCounts(signs, es), FailureCounts(signs, es), l)
  }

  ghost predicate FlagsFit(calls: multiset<string>, failures: multiset<string>, l: Ledger) {
    && (l.repeatedCall <==> Occurs(calls, 2))
    && (l.repeatedFailure <==> Occurs(failures, 2))
    && (l.stuck <==> Occurs(calls, 3) || Occurs(failures, 3))
  }

  lemma OccursAdd(counts: multiset<string>, s: string, times: nat)
    requires times > 0
    ensures Occurs(counts + multiset{s}, times) <==> Occurs(counts, times) || counts[s] + 1 >= times
  {
    var more := counts + multiset{s};
    assert more[s] == counts[s] + 1;
    if x :| counts[x] >= times {
      assert more[x] >= times;
    }
    if x :| more[x] >= times {
      assert x != s ==> counts[x] == more[x];
    }
  }

  function Count(seen: map<string, nat>, s: string): nat {
    if s in seen then seen[s] else 0
  }

  ghost predicate Counts(seen: map<string, nat>, counts: multiset<string>) {
    forall s :: Count(seen, s) == counts[s]
  }

  /** One entry more: `c` is the new count of its call, `f` of its failure, 0 for no failure. */
  function AddEntry(l: Ledger, e: Evidence, c: nat, f: nat, sig: string, failSig: string): Ledger {
    Ledger(
      if IsPending(e) then l.completed else l.completed + [e],
      if IsPending(e) then l.pending + [e] else l.pending,
      l.rounds + 1,
      l.repeatedCall || c >= 2,
      l.repeatedFailure || f >= 2,
      l.stuck || c >= 3 || f >= 3,
      if f >= 2 then failSig else if c >= 2 then sig else l.signature)
  }

  lemma AddFlags(calls: multiset<string>, failures: multiset<string>, l: Ledger, m: Ledger,
                 s: string, fs: Option<string>)
    requires FlagsFit(calls, failures, l)
    requires var c, f := calls[s] + 1, if fs.Some? then failures[fs.value] + 1 else 0;
             && m.repeatedCall == (l.repeatedCall || c >= 2)
             && m.repeatedFailure == (l.repeatedFailure || f >= 2)
             && m.stuck == (l.stuck || c >= 3 || f >= 3)
    ensures FlagsFit(calls + multiset{s}, if fs.Some? then failures + multiset{fs.value} else failures, m)
  {
    OccursAdd(calls, s, 2);
    OccursAdd(calls, s, 3);
    if fs.Some? {
      OccursAdd(failures, fs.value, 2);
      OccursAdd(failures, fs.value, 3);
    }
  }

  /** The ledger of one entry more. */
  ghost function Extended(signs: Signs, es: seq<Evidence>, e: Evidence, l: Ledger): Ledger {
    AddEntry(l, e, CallCounts(signs, es)[signs.call(e)] + 1,
      if IsFailure(e) then FailureCounts(signs, es)[signs.failure(e)] + 1 else 0, signs.call(e), signs.failure(e))
  }

  lemma ExtendedFits(signs: Signs, es: seq<Evidence>, e: Evidence, l: Ledger)
    requires LedgerOf(signs, es, l)
    ensures LedgerOf(signs, es + [e], Extended(signs, es, e, l))
  {
    var all := es + [e];
    assert all[..|es|] == es && all[|es|] == e;
    SnocCounts(signs, es, e);
    AddFlags(CallCounts(signs, es), FailureCounts(signs, es), l, Extended(signs, es, e, l), signs.call(e),
      if IsFailure(e) then Some(signs.failure(e)) else None);
  }

  method Bump(seen: map<string, nat>, s: string, ghost counts: multiset<string>)
    returns (more: map<string, nat>, n: nat)
    requires Counts(seen, counts)
    ensures n == counts[s] + 1 && Counts(more, counts + multiset{s})
  {
    n := Count(seen, s) + 1;
    more := seen[s := n];
    forall x ensures Count(more, x) == (counts + multiset{s})[x] {
      assert Count(seen, x) == counts[x];
    }
  }

  /** The body of the closing loop of `buildAgentLedger`. */
  method SummariseOne(e: Evidence, sig: string, failSig: string, l0: Ledger,
                      calls0: map<string, nat>, failures0: map<string, nat>,
                      ghost calls: multiset<string>, ghost failures: multiset<string>)
    returns (l: Ledger, seenCall: map<string, nat>, seenFailure: map<string, nat>)
    requires Counts(calls0, calls) && Counts(failures0, failures)
    ensures l == AddEntry(l0, e, calls[sig] + 1, if IsFailure(e) then failures[failSig] + 1 else 0, sig, failSig)
    ensures Counts(seenCall, calls + multiset{sig})
    ensures Counts(seenFailure, if IsFailure(e) then failures + multiset{failSig} else failures)
  {
    var c: nat;
    seenCall, c := Bump(calls0, sig, calls);
    seenFailure := failures0;
    l := l0.(rounds := l0.rounds + 1);
    if c >= 2 {
      l := l.(repeatedCall := true, signature := sig);
    }
    if c >= 3 {
      l := l.(stuck := true);
    }
    if e.result == "" {
      l := l.(pending := l.pending + [e]);
    } else {
      l := l.(completed := l.completed + [e]);
      if e.failed {
        var f: nat;
        seenFailure, f := Bump(failures0, failSig, failures);
        if f >= 2 {
          l := l.(repeatedFailure := true, signature := failSig);
        }
        if f >= 3 {
          l := l.(stuck := true);
        }
      }
    }
  }

  ghost predicate Summary(signs: Signs, es: seq<Evidence>, l: Ledger,
                          calls: map<string, nat>, failures: map<string, nat>) {
    && LedgerOf(signs, es, l)
    && Counts(calls, CallCounts(signs, es)) && Counts(failures, FailureCounts(signs, es))
  }

  /** The second half of `buildAgentLedger`. */
  method Summarise(signs: Signs, es: seq<Evidence>) returns (l: Ledger)
    ensures LedgerOf(signs, es, l)
  {
    l := Ledger([], [], 0, false, false, false, "");
    var calls: map<string, nat>, failures: map<string, nat> := map[], map[];
    SummaryOfNone(signs, es);
    for i := 0 to |es|
      invariant Summary(signs, es[..i], l, calls, failures)
    {
      l, calls, failures := SummariseNext(signs, es, i, l, calls, failures);
    }
    SummaryOfAll(signs, es, l, calls, failures);
  }

  lemma SummaryOfNone(signs: Signs, es: seq<Evidence>)
    ensures Summary(signs, es[..0], Ledger([], [], 0, false, false, false, ""), map[], map[])
  {
  }

  lemma SummaryOfAll(signs: Signs, es: seq<Evidence>, l: Ledger, calls: map<string, nat>, failures: map<string, nat>)
    requires Summary(signs, es[..|es|], l, calls, failures)
    ensures LedgerOf(signs, es, l)
  {
    assert es[..|es|] == es;
  }

  method SummariseNext(signs: Signs, es: seq<Evidence>, i: nat, l0: Ledger,
                       calls0: map<string, nat>, failures0: map<string, nat>)
    returns (l: Ledger, calls: map<string, nat>, failures: map<string, nat>)
    requires i < |es| && Summary(signs, es[..i], l0, calls0, failures0)
    ensures Summary(signs, es[..i + 1], l, calls, failures)
  {
    ghost var front := es[..i];
    assert es[..i + 1] == front + [es[i]];
    ExtendedFits(signs, front, es[i], l0);
    SnocCounts(signs, front, es[i]);
    l, calls, failures := SummariseOne(es[i], signs.call(es[i]), signs.failure(es[i]), l0, calls0, failures0,
      CallCounts(signs, front), FailureCounts(signs, front));
  }

  lemma SnocCounts(signs: Signs, es: seq<Evidence>, e: Evidence)
    ensures CallCounts(signs, es + [e]) == CallCounts(signs, es) + multiset{signs.call(e)}
    ensures FailureCounts(signs, es + [e])
            == if IsFailure(e) then FailureCounts(signs, es) + multiset{signs.failure(e)} else FailureCounts(signs, es)
  {
    var all := es + [e];
    assert all[..|es|] == es && all[|es|] == e;
  }

  /** The signature of the ledger names a repetition if there is one. */
  lemma {:induction false} SignatureNamesRepetition(signs: Signs, es: seq<Evidence>)
    requires forall e: Evidence :: signs.call(e) != "" && signs.failure(e) != ""
    ensures NewestRepeat(signs, es) == "" <==> !Occurs(CallCounts(signs, es), 2) && !Occurs(FailureCounts(signs, es), 2)
    ensures NewestRepeat(signs, es) != "" ==>
              || CallCounts(signs, es)[NewestRepeat(signs, es)] >= 2
              || FailureCounts(signs, es)[NewestRepeat(signs, es)] >= 2
  {
    if es != [] {
      var front, e := es[..|es| - 1], es[|es| - 1];
      SignatureNamesRepetition(signs, front);
      OccursAdd(CallCounts(signs, front), signs.call(e), 2);
      OccursAdd(FailureCounts(signs, front), signs.failure(e), 2);
      assert IsFailure(e) || FailureCounts(signs, es) == FailureCounts(signs, front);
    }
  }

  /** A ledger names a repetition exactly when it reports one, and what it names occurs twice. */
  lemma LedgerNamesRepetition(lib: Lib, es: seq<Evidence>, l: Ledger)
    requires LedgerOf(SignsOf(lib), es, l)
    ensures l.signature != "" <==> l.repeatedCall || l.repeatedFailure
    ensures l.signature != "" ==>
              CallCounts(SignsOf(lib), es)[l.signature] >= 2 || FailureCounts(SignsOf(lib), es)[l.signature] >= 2
  {
    var signs := SignsOf(lib);
    forall e: Evidence ensures signs.call(e) != "" && signs.failure(e) != "" {
      assert |signs.call(e)| > 0 && |signs.failure(e)| > 0;
    }
    SignatureNamesRepetition(signs, es);
  }

  method BuildAgentLedger(lib: Lib, messages: seq<Msg>) returns (l: Ledger)
    ensures OrderKnown(Scan(lib, messages)) && LedgerOf(SignsOf(lib), Entries(Scan(lib, messages)), l)
  {
    var n := ReadConversation(lib, messages);
    l := Summarise(SignsOf(lib), Entries(n));
  }

  function CanContinue(l: Ledger, maxRounds: int): Verdict {
    var limit := if maxRounds <= 0 then 32 else maxRounds;
    if l.rounds >= limit then RoundLimit(limit)
    else if l.stuck then Stuck
    else if l.repeatedFailure then RepeatedFailure
    else if |l.pending| > 0 then PendingResults
    else MayContinue
  }

  /** What stops a turn: the limit before anything else, then a loop, then a repeated failure, then
      results that are still to come. */
  lemma VerdictIs(l: Ledger, maxRounds: int)
    ensures var limit := if maxRounds > 0 then maxRounds else 32;
            var v := CanContinue(l, maxRounds);
            && (v == RoundLimit(limit) <==> l.rounds >= limit)
            && (v == Stuck <==> l.rounds < limit && l.stuck)
            && (v == RepeatedFailure <==> l.rounds < limit && !l.stuck && l.repeatedFailure)
            && (v == PendingResults <==> l.rounds < limit && !l.stuck && !l.repeatedFailure && l.pending != [])
  {
  }

  /** The messages of the current user turn. */
  method ActiveMessages(messages: seq<Msg>) returns (active: seq<Msg>)
    ensures active == messages || exists k :: 0 < k < |messages| && active == messages[k..]
    ensures active != messages ==> active[0].role == "user"
    ensures forall k :: 0 < k < |active| ==> active[k].role != "user"
  {
    var last := -1;
    for i := 0 to |messages|
      invariant -1 <= last < i
      invariant last >= 0 ==> messages[last].role == "user"
      invariant forall k :: last < k < i ==> messages[k].role != "user"
    {
      if messages[i].role == "user" {
        last := i;
      }
    }
    if last <= 0 {
      return messages;
    }
    return messages[last..];
  }

  // ---------------------------------------------------------------- ledgers of accepted conversations

  /** The result given to a call: the last tool message with its id. */
  function AnswerOf(msgs: seq<Msg>, id: string): Option<Msg> {
    if msgs == [] then None
    else
      var m := msgs[|msgs| - 1];
      if m.role == "tool" && m.toolCallId == id then Some(m) else AnswerOf(msgs[..|msgs| - 1], id)
  }

  function ResultFor(lib: Lib, msgs: seq<Msg>, id: string): string {
    var a := AnswerOf(msgs, id);
    if a.None? then "" else lib.digest(a.value.content)
  }

  /** The calls announced by a conversation, in order. */
  function Announced(msgs: seq<Msg>): seq<ToolCall> {
    if msgs == [] then []
    else
      var m := msgs[|msgs| - 1];
      Announced(msgs[..|msgs| - 1]) + (if m.role == "assistant" then m.Calls() else [])
  }

  lemma {:induction false} CalledIsAnnounced(msgs: seq<Msg>)
    ensures Called(msgs) == CallIds(Announced(msgs))
  {
    if msgs != [] {
      CalledIsAnnounced(msgs[..|msgs| - 1]);
    }
  }

  /** What the ledger should hold of a call: its name and arguments, and the result and the
      failure of the message that answers it. */
  function EntryFor(lib: Lib, msgs: seq<Msg>, c: ToolCall): Evidence {
    Evidence(c.id, c.name, lib.printed(c), ResultFor(lib, msgs, c.id),
      AnswerOf(msgs, c.id).Some? && lib.fails(ResultFor(lib, msgs, c.id)))
  }

  function EntriesFor(lib: Lib, msgs: seq<Msg>): seq<Evidence> {
    seq(|Announced(msgs)|, k requires 0 <= k < |Announced(msgs)| => EntryFor(lib, msgs, Announced(msgs)[k]))
  }

  /** The notes taken of a conversation agree with its protocol. */
  ghost predicate NotesFit(lib: Lib, msgs: seq<Msg>, n: Notes) {
    && n.order == Called(msgs)
    && n.calls.Keys == Ids(Called(msgs))
    && forall c :: c in Announced(msgs) ==> c.id in n.calls && n.calls[c.id] == EntryFor(lib, msgs, c)
  }

  lemma {:induction false} NoteCallsFit(lib: Lib, n: Notes, calls: seq<ToolCall>)
    requires "" !in CallIds(calls) && Distinct(CallIds(calls)) && Ids(CallIds(calls)) !! n.calls.Keys
    ensures var r := NoteCalls(lib, n, calls);
            && r.order == n.order + CallIds(calls)
            && r.calls.Keys == n.calls.Keys + Ids(CallIds(calls))
            && (forall id :: id in n.calls ==> r.calls[id] == n.calls[id])
            && (forall c :: c in calls ==>
                  c.id in r.calls && r.calls[c.id] == Evidence(c.id, c.name, lib.printed(c), "", false))
    decreases |calls|
  {
    if calls != [] {
      var front, c := calls[..|calls| - 1], calls[|calls| - 1];
      var ids, fronts := CallIds(calls), CallIds(front);
      assert ids == fronts + [c.id];
      DistinctSplit(fronts, [c.id]);
      assert Ids(ids) == Ids(fronts) + {c.id};
      assert c.id in ids;
      NoteCallsFit(lib, n, front);
      forall x | x in front ensures x.id in fronts && x.id != c.id {
        IdOfCall(front, x);
        assert x.id in Ids(fronts);
      }
    }
  }

  lemma IdOfCall(calls: seq<ToolCall>, c: ToolCall)
    requires c in calls
    ensures c.id in CallIds(calls)
  {
    var k :| 0 <= k < |calls| && calls[k] == c;
    assert CallIds(calls)[k] == c.id;
  }

  lemma {:induction false} AnsweredHasAnswer(msgs: seq<Msg>, id: string)
    ensures AnswerOf(msgs, id).Some? <==> id in Answered(msgs)
    decreases |msgs|
  {
    if msgs != [] {
      AnsweredHasAnswer(msgs[..|msgs| - 1], id);
    }
  }

  lemma NoteAssistantFits(lib: Lib, front: seq<Msg>, m: Msg)
    requires m.role == "assistant" && Protocol(front + [m]) && NotesFit(lib, front, Scan(lib, front))
    ensures NotesFit(lib, front + [m], NoteMessage(lib, Scan(lib, front), m))
  {
    var n, msgs := Scan(lib, front), front + [m];
    ProtocolSnoc(front, m);
    RunMeaning(front);
    NoteCallsFit(lib, n, m.Calls());
    assert msgs[..|front|] == front;
    assert Called(msgs) == Called(front) + CallIds(m.Calls());
    assert Ids(Called(msgs)) == Ids(Called(front)) + Ids(CallIds(m.Calls()));
    var r := NoteMessage(lib, n, m);
    assert Announced(msgs) == Announced(front) + m.Calls();
    forall c | c in Announced(msgs) ensures c.id in r.calls && r.calls[c.id] == EntryFor(lib, msgs, c) {
      if c in m.Calls() {
        NewCallOpen(lib, front, m, c);
      } else {
        assert AnswerOf(msgs, c.id) == AnswerOf(front, c.id);
        assert c in Announced(front) && c.id in n.calls;
      }
    }
  }

  /** A call that is just announced has no result. */
  lemma NewCallOpen(lib: Lib, front: seq<Msg>, m: Msg, c: ToolCall)
    requires m.role == "assistant" && Protocol(front + [m]) && c in m.Calls()
    ensures EntryFor(lib, front + [m], c) == Evidence(c.id, c.name, lib.printed(c), "", false)
  {
    var msgs := front + [m];
    assert msgs[..|front|] == front;
    ProtocolSnoc(front, m);
    RunMeaning(front);
    var k :| 0 <= k < |m.Calls()| && m.Calls()[k] == c;
    assert CallIds(m.Calls())[k] == c.id;
    assert c.id in Ids(CallIds(m.Calls())) && c.id !in Ids(Answered(front));
    AnsweredHasAnswer(front, c.id);
    assert AnswerOf(msgs, c.id) == AnswerOf(front, c.id);
  }

  lemma NoteOtherFits(lib: Lib, front: seq<Msg>, m: Msg)
    requires m.role != "assistant" && Protocol(front + [m]) && NotesFit(lib, front, Scan(lib, front))
    ensures NotesFit(lib, front + [m], NoteMessage(lib, Scan(lib, front), m))
  {
    var n, msgs := Scan(lib, front), front + [m];
    ProtocolSnoc(front, m);
    assert msgs[..|front|] == front;
    assert Called(msgs) == Called(front) + [] == Called(front);
    assert Announced(msgs) == Announced(front) + [] == Announced(front);
    assert m.role == "tool" ==> m.toolCallId in Ids(Called(front));
  }

  lemma {:induction false} ScanFits(lib: Lib, msgs: seq<Msg>)
    requires Protocol(msgs)
    ensures NotesFit(lib, msgs, Scan(lib, msgs))
    decreases |msgs|
  {
    if msgs != [] {
      var front, m := msgs[..|msgs| - 1], msgs[|msgs| - 1];
      assert msgs == front + [m];
      ProtocolSnoc(front, m);
      ScanFits(lib, front);
      if m.role == "assistant" {
        NoteAssistantFits(lib, front, m);
      } else {
        NoteOtherFits(lib, front, m);
      }
    }
  }

  ghost predicate AllAnswersSay(lib: Lib, msgs: seq<Msg>) {
    forall j :: 0 <= j < |msgs| && msgs[j].role == "tool" ==> lib.digest(msgs[j].content) != ""
  }

  lemma {:induction false} PendingMeansBlank(es: seq<Evidence>)
    ensures PendingOf(es) == [] <==> forall k :: 0 <= k < |es| ==> es[k].result != ""
    ensures |PendingOf(es)| + |CompletedOf(es)| == |es|
  {
    if es != [] {
      var front, last := es[..|es| - 1], es[|es| - 1];
      PendingMeansBlank(front);
      assert PendingOf(es) == [] <==> PendingOf(front) == [] && !IsPending(last);
      assert forall k :: 0 <= k < |front| ==> es[k] == front[k];
    }
  }

  lemma {:induction false} AnswersByMessage(lib: Lib, msgs: seq<Msg>)
    requires Protocol(msgs)
    ensures AllAnswersSay(lib, msgs) <==> forall id :: id in Answered(msgs) ==> ResultFor(lib, msgs, id) != ""
    decreases |msgs|
  {
    if msgs != [] {
      var front, m := msgs[..|msgs| - 1], msgs[|msgs| - 1];
      assert msgs == front + [m];
      ProtocolSnoc(front, m);
      AnswersByMessage(lib, front);
      assert AllAnswersSay(lib, msgs) <==>
             AllAnswersSay(lib, front) && (m.role == "tool" ==> lib.digest(m.content) != "");
      if m.role == "tool" {
        assert Answered(msgs) == Answered(front) + [m.toolCallId];
        assert forall id :: id in Answered(front) ==> ResultFor(lib, msgs, id) == ResultFor(lib, front, id);
        assert ResultFor(lib, msgs, m.toolCallId) == lib.digest(m.content);
      } else {
        assert forall id :: ResultFor(lib, msgs, id) == ResultFor(lib, front, id);
      }
    }
  }

  /** The entries of a conversation that keeps the protocol are those of its calls, in order. */
  lemma EntriesFit(lib: Lib, msgs: seq<Msg>)
    requires Protocol(msgs) && OrderKnown(Scan(lib, msgs))
    ensures Entries(Scan(lib, msgs)) == EntriesFor(lib, msgs)
  {
    ScanFits(lib, msgs);
    CalledIsAnnounced(msgs);
    var n := Scan(lib, msgs);
    forall k | 0 <= k < |n.order| ensures Entries(n)[k] == EntriesFor(lib, msgs)[k] {
      assert Announced(msgs)[k] in Announced(msgs);
    }
  }

  /** The ledger of an accepted conversation has one round for each announced call, in order;
      every round is completed or pending; and none is pending exactly when no result is blank.
      So the checker's "every call is answered" is not yet the ledger's "nothing is pending". */
  lemma LedgerOfAccepted(lib: Lib, msgs: seq<Msg>, l: Ledger)
    requires Accepts(msgs) && OrderKnown(Scan(lib, msgs)) && LedgerOf(SignsOf(lib), Entries(Scan(lib, msgs)), l)
    ensures l.rounds == |Called(msgs)| == |l.pending| + |l.completed|
    ensures l.pending == [] <==> AllAnswersSay(lib, msgs)
  {
    AcceptsIsProtocol(msgs);
    EntriesFit(lib, msgs);
    CalledIsAnnounced(msgs);
    PendingMeansBlank(EntriesFor(lib, msgs));
    EntriesSay(lib, msgs);
  }

  lemma EntriesSay(lib: Lib, msgs: seq<Msg>)
    requires Protocol(msgs) && Ids(Called(msgs)) == Ids(Answered(msgs))
    ensures AllAnswersSay(lib, msgs) <==> forall e :: e in EntriesFor(lib, msgs) ==> e.result != ""
    ensures forall k :: 0 <= k < |EntriesFor(lib, msgs)| ==> EntriesFor(lib, msgs)[k] in EntriesFor(lib, msgs)
  {
    AnswersByMessage(lib, msgs);
    CalledIsAnnounced(msgs);
    var calls, es := Announced(msgs), EntriesFor(lib, msgs);
    forall id | id in Answered(msgs) ensures exists k :: 0 <= k < |es| && es[k].result == ResultFor(lib, msgs, id) {
      assert id in Ids(Answered(msgs));
      var k :| 0 <= k < |Called(msgs)| && Called(msgs)[k] == id;
      assert es[k].result == ResultFor(lib, msgs, id);
    }
    forall k | 0 <= k < |es|
      ensures calls[k].id in Answered(msgs) && es[k].result == ResultFor(lib, msgs, calls[k].id)
    {
      assert Called(msgs)[k] in Ids(Called(msgs));
    }
  }

  lemma TurnAccepted(lens: Lens, msgs: seq<Msg>, k: nat)
    requires Faithful(lens) && Tidy(lens, msgs) && Accepts(msgs)
    requires k < |msgs| && (k == 0 || msgs[k].role == "user")
    ensures Accepts(msgs[k..])
  {
    NextByClass(lens, START, msgs[k]);
    if k > 0 {
      assert FirstRoleOk(msgs[k].role);
      SuffixAccepted(lens, msgs, k);
    } else {
      assert msgs[k..] == msgs;
    }
  }

  /** After validation the active turn of a tidy conversation may continue exactly when it is
      short of the round limit, repeats no call three times and no failure twice, and every
      result in it says something. */
  lemma ActiveTurnMayContinue(lens: Lens, lib: Lib, msgs: seq<Msg>, k: nat, l: Ledger, maxRounds: int)
    requires Faithful(lens) && Tidy(lens, msgs) && Accepts(msgs)
    requires k < |msgs| && (k == 0 || msgs[k].role == "user")
    requires OrderKnown(Scan(lib, msgs[k..])) && LedgerOf(SignsOf(lib), Entries(Scan(lib, msgs[k..])), l)
    ensures CanContinue(l, maxRounds) == MayContinue <==>
            && |Called(msgs[k..])| < (if maxRounds <= 0 then 32 else maxRounds)
            && !Occurs(CallCounts(SignsOf(lib), Entries(Scan(lib, msgs[k..]))), 3)
            && !Occurs(FailureCounts(SignsOf(lib), Entries(Scan(lib, msgs[k..]))), 2)
            && AllAnswersSay(lib, msgs[k..])
  {
    TurnAccepted(lens, msgs, k);
    LedgerOfAccepted(lib, msgs[k..], l);
    var fails := FailureCounts(SignsOf(lib), Entries(Scan(lib, msgs[k..])));
    if Occurs(fails, 3) {
      var s :| fails[s] >= 3;
      assert fails[s] >= 2;
    }
  }

  // ---------------------------------------------------------------- repetition, entry by entry

  ghost predicate SameCallAs(a: Evidence, b: Evidence) {
    a.name == b.name && a.arguments == b.arguments
  }

  /** Two failures of the same call with the same normalised text. */
  ghost predicate SameFailureAs(lib: Lib, a: Evidence, b: Evidence) {
    && a.result != "" && a.failed && b.result != "" && b.failed
    && a.name == b.name && a.arguments == b.arguments && lib.normal(a.result) == lib.normal(b.result)
  }

  ghost predicate Twice(es: seq<Evidence>, same: (Evidence, Evidence) -> bool) {
    exists i, j :: 0 <= i < j < |es| && same(es[i], es[j])
  }

  ghost predicate Thrice(es: seq<Evidence>, same: (Evidence, Evidence) -> bool) {
    exists i: nat, j: nat, k: nat :: IsTriple(es, same, i, j, k)
  }

  ghost predicate IsTriple(es: seq<Evidence>, same: (Evidence, Evidence) -> bool, i: nat, j: nat, k: nat) {
    i < j < k < |es| && same(es[i], es[j]) && same(es[j], es[k])
  }

  ghost function CallRelation(): (Evidence, Evidence) -> bool {
    (a, b) => SameCallAs(a, b)
  }

  ghost function FailureRelation(lib: Lib): (Evidence, Evidence) -> bool {
    (a, b) => SameFailureAs(lib, a, b)
  }

  /** How often a key occurs, and where. */
  function KeyCounts(keys: seq<Option<string>>): multiset<string> {
    if keys == [] then multiset{}
    else
      var last := keys[|keys| - 1];
      KeyCounts(keys[..|keys| - 1]) + (if last.Some? then multiset{last.value} else multiset{})
  }

  ghost predicate Once<T>(keys: seq<T>, x: T) {
    exists i :: 0 <= i < |keys| && keys[i] == x
  }

  ghost predicate Both<T>(keys: seq<T>, x: T) {
    exists i, j :: 0 <= i < j < |keys| && keys[i] == x && keys[j] == x
  }

  ghost predicate AllThree<T>(keys: seq<T>, x: T) {
    exists i: nat, j: nat, k: nat :: ThreeAt(keys, x, i, j, k)
  }

  ghost predicate ThreeAt<T>(keys: seq<T>, x: T, i: nat, j: nat, k: nat) {
    i < j < k < |keys| && keys[i] == x && keys[j] == x && keys[k] == x
  }

  lemma {:induction false} KeyPlaces(keys: seq<Option<string>>, s: string)
    ensures KeyCounts(keys)[s] >= 1 <==> Once(keys, Some(s))
    ensures KeyCounts(keys)[s] >= 2 <==> Both(keys, Some(s))
    ensures KeyCounts(keys)[s] >= 3 <==> AllThree(keys, Some(s))
  {
    if keys != [] {
      var front, last := keys[..|keys| - 1], keys[|keys| - 1];
      KeyPlaces(front, s);
      assert keys == front + [last];
      OnceSnoc(front, last, Some(s));
      BothSnoc(front, last, Some(s));
      AllThreeSnoc(front, last, Some(s));
    }
  }

  lemma OnceSnoc<T>(keys: seq<T>, last: T, x: T)
    ensures Once(keys + [last], x) <==> Once(keys, x) || last == x
  {
    var all := keys + [last];
    assert all[|keys|] == last;
    assert forall i :: 0 <= i < |keys| ==> all[i] == keys[i];
  }

  lemma BothSnoc<T>(keys: seq<T>, last: T, x: T)
    ensures Both(keys + [last], x) <==> Both(keys, x) || (last == x && Once(keys, x))
  {
    var all := keys + [last];
    assert all[|keys|] == last;
    assert forall i :: 0 <= i < |keys| ==> all[i] == keys[i];
    if i, j :| 0 <= i < j < |keys| && keys[i] == x && keys[j] == x {
      assert all[i] == x && all[j] == x;
    }
    if i :| 0 <= i < |keys| && keys[i] == x {
      assert last == x ==> all[i] == x && all[|keys|] == x;
    }
  }

  lemma AllThreeSnoc<T>(keys: seq<T>, last: T, x: T)
    ensures AllThree(keys + [last], x) <==> AllThree(keys, x) || (last == x && Both(keys, x))
  {
    var all, n := keys + [last], |keys|;
    assert all[n] == last;
    assert forall i :: 0 <= i < n ==> all[i] == keys[i];
    if i: nat, j: nat, k: nat :| ThreeAt(all, x, i, j, k) {
      assert k < n ==> ThreeAt(keys, x, i, j, k);
    }
    if i: nat, j: nat, k: nat :| ThreeAt(keys, x, i, j, k) {
      assert ThreeAt(all, x, i, j, k);
    }
    if i: nat, j: nat :| i < j < n && keys[i] == x && keys[j] == x {
      assert last == x ==> ThreeAt(all, x, i, j, n);
    }
  }

  /** Keys tell apart exactly what `same` does. */
  ghost predicate Tell(es: seq<Evidence>, keys: seq<Option<string>>, same: (Evidence, Evidence) -> bool) {
    && |keys| == |es|
    && forall i, j :: 0 <= i < |es| && 0 <= j < |es| ==>
         (same(es[i], es[j]) <==> keys[i].Some? && keys[i] == keys[j])
  }

  /** Then counting them finds the repetitions. */
  lemma TwiceIff(es: seq<Evidence>, keys: seq<Option<string>>, same: (Evidence, Evidence) -> bool)
    requires Tell(es, keys, same)
    ensures Occurs(KeyCounts(keys), 2) <==> Twice(es, same)
  {
    if s :| KeyCounts(keys)[s] >= 2 {
      KeyPlaces(keys, s);
      var i, j :| 0 <= i < j < |keys| && keys[i] == Some(s) && keys[j] == Some(s);
      assert same(es[i], es[j]);
    }
    if i, j :| 0 <= i < j < |es| && same(es[i], es[j]) {
      KeyPlaces(keys, keys[i].value);
      assert Both(keys, keys[i]);
    }
  }

  lemma ThriceIff(es: seq<Evidence>, keys: seq<Option<string>>, same: (Evidence, Evidence) -> bool)
    requires Tell(es, keys, same)
    ensures Occurs(KeyCounts(keys), 3) <==> Thrice(es, same)
  {
    if s :| KeyCounts(keys)[s] >= 3 {
      KeyPlaces(keys, s);
      var i: nat, j: nat, k: nat :| ThreeAt(keys, Some(s), i, j, k);
      TripleIff(es, keys, same, i, j, k);
    }
    if i: nat, j: nat, k: nat :| IsTriple(es, same, i, j, k) {
      TripleIff(es, keys, same, i, j, k);
      KeyPlaces(keys, keys[i].value);
    }
  }

  lemma TripleIff(es: seq<Evidence>, keys: seq<Option<string>>, same: (Evidence, Evidence) -> bool,
                  i: nat, j: nat, k: nat)
    requires Tell(es, keys, same) && i < j < k < |es|
    ensures IsTriple(es, same, i, j, k) <==> keys[i].Some? && ThreeAt(keys, keys[i], i, j, k)
  {
  }

  function CallKeys(signs: Signs, es: seq<Evidence>): seq<Option<string>> {
    seq(|es|, i requires 0 <= i < |es| => Some(signs.call(es[i])))
  }

  function FailureKeys(signs: Signs, es: seq<Evidence>): seq<Option<string>> {
    seq(|es|, i requires 0 <= i < |es| => if IsFailure(es[i]) then Some(signs.failure(es[i])) else None)
  }

  lemma {:induction false} CountsAreKeys(signs: Signs, es: seq<Evidence>)
    ensures CallCounts(signs, es) == KeyCounts(CallKeys(signs, es))
    ensures FailureCounts(signs, es) == KeyCounts(FailureKeys(signs, es))
  {
    if es != [] {
      var front := es[..|es| - 1];
      CountsAreKeys(signs, front);
      assert CallKeys(signs, es)[..|es| - 1] == CallKeys(signs, front);
      assert FailureKeys(signs, es)[..|es| - 1] == FailureKeys(signs, front);
    }
  }

  /** Names and arguments without NUL: arguments are JSON, which has none. */
  ghost predicate PlainEntry(e: Evidence) {
    '\0' !in e.name && '\0' !in e.arguments
  }

  lemma CallSignsAgree(lib: Lib, a: Evidence, b: Evidence)
    requires PlainEntry(a) && PlainEntry(b)
    ensures SignsOf(lib).call(a) == SignsOf(lib).call(b) <==> SameCallAs(a, b)
  {
    assert "\0" == ['\0'];
    if SignsOf(lib).call(a) == SignsOf(lib).call(b) {
      NulSplits(a.name, a.arguments, b.name, b.arguments);
    }
  }

  lemma FailureSignsAgree(lib: Lib, a: Evidence, b: Evidence)
    requires PlainEntry(a) && PlainEntry(b)
    ensures SignsOf(lib).failure(a) == SignsOf(lib).failure(b) <==>
            SameCallAs(a, b) && lib.normal(a.result) == lib.normal(b.result)
  {
    if SignsOf(lib).failure(a) == SignsOf(lib).failure(b) {
      var x, y := a.arguments + ['\0'] + lib.normal(a.result), b.arguments + ['\0'] + lib.normal(b.result);
      assert SignsOf(lib).failure(a) == a.name + ['\0'] + x;
      assert SignsOf(lib).failure(b) == b.name + ['\0'] + y;
      NulSplits(a.name, x, b.name, y);
      NulSplits(a.arguments, lib.normal(a.result), b.arguments, lib.normal(b.result));
    }
  }

  lemma SignsTell(lib: Lib, es: seq<Evidence>)
    requires forall e :: e in es ==> PlainEntry(e)
    ensures Tell(es, CallKeys(SignsOf(lib), es), CallRelation())
    ensures Tell(es, FailureKeys(SignsOf(lib), es), FailureRelation(lib))
  {
    forall i, j | 0 <= i < |es| && 0 <= j < |es|
      ensures SignsOf(lib).call(es[i]) == SignsOf(lib).call(es[j]) <==> SameCallAs(es[i], es[j])
      ensures SignsOf(lib).failure(es[i]) == SignsOf(lib).failure(es[j]) <==>
              SameCallAs(es[i], es[j]) && lib.normal(es[i].result) == lib.normal(es[j].result)
    {
      CallSignsAgree(lib, es[i], es[j]);
      FailureSignsAgree(lib, es[i], es[j]);
    }
    KeysTell(lib, SignsOf(lib), es);
  }

  lemma KeysTell(lib: Lib, signs: Signs, es: seq<Evidence>)
    requires forall i, j :: 0 <= i < |es| && 0 <= j < |es| ==>
               (signs.call(es[i]) == signs.call(es[j]) <==> SameCallAs(es[i], es[j]))
    requires forall i, j :: 0 <= i < |es| && 0 <= j < |es| ==>
               (signs.failure(es[i]) == signs.failure(es[j]) <==>
                SameCallAs(es[i], es[j]) && lib.normal(es[i].result) == lib.normal(es[j].result))
    ensures Tell(es, CallKeys(signs, es), CallRelation())
    ensures Tell(es, FailureKeys(signs, es), FailureRelation(lib))
  {
  }

  lemma FlagsTell(lib: Lib, signs: Signs, es: seq<Evidence>, l: Ledger)
    requires LedgerOf(signs, es, l)
    requires Tell(es, CallKeys(signs, es), CallRelation())
    requires Tell(es, FailureKeys(signs, es), FailureRelation(lib))
    ensures l.repeatedCall <==> Twice(es, CallRelation())
    ensures l.repeatedFailure <==> Twice(es, FailureRelation(lib))
    ensures l.stuck <==> Thrice(es, CallRelation()) || Thrice(es, FailureRelation(lib))
  {
    CountsAreKeys(signs, es);
    TwiceIff(es, CallKeys(signs, es), CallRelation());
    ThriceIff(es, CallKeys(signs, es), CallRelation());
    TwiceIff(es, FailureKeys(signs, es), FailureRelation(lib));
    ThriceIff(es, FailureKeys(signs, es), FailureRelation(lib));
  }

  /** What the flags of a ledger say about its entries. */
  lemma FlagsMean(lib: Lib, es: seq<Evidence>, l: Ledger)
    requires LedgerOf(SignsOf(lib), es, l) && forall e :: e in es ==> PlainEntry(e)
    ensures l.repeatedCall <==> Twice(es, CallRelation())
    ensures l.repeatedFailure <==> Twice(es, FailureRelation(lib))
    ensures l.stuck <==> Thrice(es, CallRelation()) || Thrice(es, FailureRelation(lib))
  {
    SignsTell(lib, es);
    FlagsTell(lib, SignsOf(lib), es, l);
  }

  /** The call of entry `k` was made before. */
  ghost predicate CallAgain(es: seq<Evidence>, k: nat) {
    k < |es| && exists j :: 0 <= j < k && SameCallAs(es[j], es[k])
  }

  /** Entry `k` fails as an earlier one did. */
  ghost predicate FailureAgain(lib: Lib, es: seq<Evidence>, k: nat) {
    k < |es| && exists j :: 0 <= j < k && SameFailureAs(lib, es[j], es[k])
  }

  lemma LastAgain(es: seq<Evidence>, keys: seq<Option<string>>, same: (Evidence, Evidence) -> bool, n: nat)
    requires Tell(es, keys, same) && n < |es|
    ensures keys[n].Some? && keys[n].value in KeyCounts(keys[..n]) <==> exists j :: 0 <= j < n && same(es[j], es[n])
  {
    if keys[n].Some? {
      KeyPlaces(keys[..n], keys[n].value);
    }
    if j :| 0 <= j < n && same(es[j], es[n]) {
      assert keys[..n][j] == keys[n];
    }
  }

  lemma KeysInFront(signs: Signs, es: seq<Evidence>, e: Evidence)
    ensures var keys := CallKeys(signs, es + [e]);
            keys[..|es|] == CallKeys(signs, es) && keys[|es|] == Some(signs.call(e))
    ensures var keys := FailureKeys(signs, es + [e]);
            && keys[..|es|] == FailureKeys(signs, es)
            && keys[|es|] == if IsFailure(e) then Some(signs.failure(e)) else None
  {
  }

  lemma LastCallAgain(signs: Signs, es: seq<Evidence>, e: Evidence)
    requires Tell(es + [e], CallKeys(signs, es + [e]), CallRelation())
    ensures signs.call(e) in CallCounts(signs, es) <==> CallAgain(es + [e], |es|)
  {
    var all, n := es + [e], |es|;
    KeysInFront(signs, es, e);
    CountsAreKeys(signs, es);
    LastAgain(all, CallKeys(signs, all), CallRelation(), n);
    assert forall j :: 0 <= j < n ==> CallRelation()(all[j], all[n]) == SameCallAs(all[j], all[n]);
  }

  lemma LastFailureAgain(lib: Lib, signs: Signs, es: seq<Evidence>, e: Evidence)
    requires Tell(es + [e], FailureKeys(signs, es + [e]), FailureRelation(lib))
    ensures IsFailure(e) && signs.failure(e) in FailureCounts(signs, es) <==> FailureAgain(lib, es + [e], |es|)
  {
    var all, n := es + [e], |es|;
    KeysInFront(signs, es, e);
    CountsAreKeys(signs, es);
    LastAgain(all, FailureKeys(signs, all), FailureRelation(lib), n);
    assert forall j :: 0 <= j < n ==> FailureRelation(lib)(all[j], all[n]) == SameFailureAs(lib, all[j], all[n]);
  }

  lemma {:induction false} NewestIsNamed(lib: Lib, signs: Signs, es: seq<Evidence>, k: nat)
    requires Tell(es, CallKeys(signs, es), CallRelation())
    requires Tell(es, FailureKeys(signs, es), FailureRelation(lib))
    requires CallAgain(es, k) && forall m: nat :: k < m ==> !CallAgain(es, m)
    ensures NewestRepeat(signs, es)
            == if FailureAgain(lib, es, k) then signs.failure(es[k]) else signs.call(es[k])
  {
    var n := |es| - 1;
    var front, e := es[..n], es[n];
    assert es == front + [e];
    LastCallAgain(signs, front, e);
    LastFailureAgain(lib, signs, front, e);
    if k < n {
      assert !CallAgain(es, n);
      assert forall i :: 0 <= i < n ==> CallKeys(signs, front)[i] == CallKeys(signs, es)[i];
      assert forall i :: 0 <= i < n ==> FailureKeys(signs, front)[i] == FailureKeys(signs, es)[i];
      forall m: nat | m < n
        ensures CallAgain(front, m) <==> CallAgain(es, m)
        ensures FailureAgain(lib, front, m) <==> FailureAgain(lib, es, m)
      {
      }
      NewestIsNamed(lib, signs, front, k);
    }
  }

  /** The signature is that of the newest entry whose call was made before, with its failure if
      that is a repetition as well. */
  lemma SignatureIs(lib: Lib, es: seq<Evidence>, l: Ledger, k: nat)
    requires LedgerOf(SignsOf(lib), es, l) && forall e :: e in es ==> PlainEntry(e)
    requires CallAgain(es, k) && forall m: nat :: k < m ==> !CallAgain(es, m)
    ensures l.signature == es[k].name + "\0" + es[k].arguments
                           + if FailureAgain(lib, es, k) then "\0" + lib.normal(es[k].result) else ""
  {
    SignsTell(lib, es);
    NewestIsNamed(lib, SignsOf(lib), es, k);
  }

  /** The active turn of a tidy accepted conversation may continue exactly when it has fewer calls
      than the limit, 32 where none is set, no three calls of it agree in name and arguments, no
      two failed ones also in the normalised failure, and every result in it says something. */
  lemma TurnMayContinueIff(lens: Lens, lib: Lib, msgs: seq<Msg>, k: nat, l: Ledger, maxRounds: int)
    requires Faithful(lens) && Tidy(lens, msgs) && Accepts(msgs)
    requires k < |msgs| && (k == 0 || msgs[k].role == "user")
    requires OrderKnown(Scan(lib, msgs[k..])) && LedgerOf(SignsOf(lib), Entries(Scan(lib, msgs[k..])), l)
    requires forall e :: e in EntriesFor(lib, msgs[k..]) ==> PlainEntry(e)
    ensures var es := EntriesFor(lib, msgs[k..]);
            CanContinue(l, maxRounds) == MayContinue <==>
            && |Announced(msgs[k..])| < (if maxRounds <= 0 then 32 else maxRounds)
            && !Thrice(es, CallRelation()) && !Twice(es, FailureRelation(lib))
            && AllAnswersSay(lib, msgs[k..])
  {
    var turn := msgs[k..];
    ActiveTurnMayContinue(lens, lib, msgs, k, l, maxRounds);
    TurnAccepted(lens, msgs, k);
    AcceptsIsProtocol(turn);
    EntriesFit(lib, turn);
    CalledIsAnnounced(turn);
    LedgerOfAccepted(lib, turn, l);
    var es := EntriesFor(lib, turn);
    FlagsMean(lib, es, l);
    if i: nat, j: nat, n: nat :| IsTriple(es, FailureRelation(lib), i, j, n) {
      assert Twice(es, FailureRelation(lib));
    }
  }
}
