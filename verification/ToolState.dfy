/** The tool-call protocol checker, internal/web/tool_state.go. */
module ToolState {
  import opened Basics
  import opened Messages

  /** Call ids waiting for a result, and call ids already answered. */
  datatype State = State(pending: set<string>, completed: set<string>)

  datatype Error =
    | BadFirstRole(role: string)
    | ResultsMissing(index: nat)
    | CallIdMissing(index: nat)
    | DuplicateCall(id: string)
    | ResultIdMissing(index: nat)
    | UnexpectedResult(id: string)
    | NeverAnswered(id: string)

  const START := State({}, {})

  predicate FirstRoleOk(role: string) {
    role == "system" || role == "developer" || role == "user" || role == "assistant"
  }

  // ---------------------------------------------------------------- the checker as a fold

  /** Adds the calls of one assistant message; None when an id is empty or known. */
  function AddCalls(s: State, calls: seq<ToolCall>): Option<State>
    decreases |calls|
  {
    if calls == [] then Some(s)
    else if calls[0].id == "" || calls[0].id in s.pending || calls[0].id in s.completed then None
    else AddCalls(s.(pending := s.pending + {calls[0].id}), calls[1..])
  }

  /** One message. Roles other than "assistant" and "tool" are skipped. */
  function Next(s: State, m: Msg): Option<State> {
    if m.role == "assistant" then
      if s.pending != {} then None else AddCalls(s, m.Calls())
    else if m.role == "tool" then
      if m.toolCallId == "" || m.toolCallId !in s.pending then None
      else Some(State(s.pending - {m.toolCallId}, s.completed + {m.toolCallId}))
    else Some(s)
  }

  function Run(s: State, msgs: seq<Msg>): Option<State>
    decreases |msgs|
  {
    if msgs == [] then Some(s)
    else var n := Next(s, msgs[0]); if n.None? then None else Run(n.value, msgs[1..])
  }

  predicate Accepts(msgs: seq<Msg>) {
    && (msgs == [] || FirstRoleOk(msgs[0].role))
    && var r := Run(START, msgs); r.Some? && r.value.pending == {}
  }

  lemma {:induction false} RunSplit(s: State, a: seq<Msg>, b: seq<Msg>)
    ensures Run(s, a + b) == (var r := Run(s, a); if r.None? then None else Run(r.value, b))
    decreases |a|
  {
    if a == [] {
      assert a + b == b;
    } else {
      assert (a + b)[1..] == a[1..] + b;
      var n := Next(s, a[0]);
      if n.Some? {
        RunSplit(n.value, a[1..], b);
      }
    }
  }

  lemma {:induction false} AddCallsSplit(s: State, a: seq<ToolCall>, b: seq<ToolCall>)
    ensures AddCalls(s, a + b) == (var r := AddCalls(s, a); if r.None? then None else AddCalls(r.value, b))
    decreases |a|
  {
    if a == [] {
      assert a + b == b;
    } else {
      assert (a + b)[1..] == a[1..] + b;
      if a[0].id != "" && a[0].id !in s.pending && a[0].id !in s.completed {
        AddCallsSplit(s.(pending := s.pending + {a[0].id}), a[1..], b);
      }
    }
  }

  /** The error that stops the checker in state `s` at message `m` with index `i`. */
  ghost predicate Faults(s: State, m: Msg, i: nat, e: Error) {
    if m.role == "assistant" then
      if s.pending != {} then e == ResultsMissing(i)
      else exists k :: 0 <= k < |m.Calls()| && CallFaults(s, m.Calls(), k, i, e)
    else
      && m.role == "tool"
      && if m.toolCallId == "" then e == ResultIdMissing(i)
         else m.toolCallId !in s.pending && e == UnexpectedResult(m.toolCallId)
  }

  ghost predicate CallFaults(s: State, calls: seq<ToolCall>, k: nat, i: nat, e: Error)
    requires k < |calls|
  {
    var before := AddCalls(s, calls[..k]);
    && before.Some?
    && if calls[k].id == "" then e == CallIdMissing(i)
       else (calls[k].id in before.value.pending || calls[k].id in before.value.completed)
            && e == DuplicateCall(calls[k].id)
  }

  /** The first fault of a conversation, as the checker reports it. */
  ghost predicate FirstFault(msgs: seq<Msg>, e: Error) {
    if msgs != [] && !FirstRoleOk(msgs[0].role) then e == BadFirstRole(msgs[0].role)
    else
      || (exists i :: 0 <= i < |msgs| && FaultAt(msgs, i, e))
      || (var r := Run(START, msgs); r.Some? && exists id :: id in r.value.pending && e == NeverAnswered(id))
  }

  ghost predicate FaultAt(msgs: seq<Msg>, i: nat, e: Error)
    requires i < |msgs|
  {
    var r := Run(START, msgs[..i]);
    r.Some? && Faults(r.value, msgs[i], i, e)
  }

  /** The next message decides: a fault stops the whole run, otherwise the prefix grows. */
  lemma RunNext(s: State, msgs: seq<Msg>, i: nat)
    requires i < |msgs| && Run(s, msgs[..i]).Some?
    ensures Run(s, msgs[..i + 1]) == Next(Run(s, msgs[..i]).value, msgs[i])
    ensures Next(Run(s, msgs[..i]).value, msgs[i]).None? ==> Run(s, msgs).None?
  {
    assert msgs == msgs[..i] + msgs[i..];
    RunSplit(s, msgs[..i], msgs[i..]);
    RunSplit(s, msgs[..i], [msgs[i]]);
    assert msgs[..i] + [msgs[i]] == msgs[..i + 1];
  }

  lemma AddCallsNext(s: State, calls: seq<ToolCall>, k: nat)
    requires k < |calls| && AddCalls(s, calls[..k]).Some?
    ensures AddCalls(s, calls[..k + 1]) == AddCalls(AddCalls(s, calls[..k]).value, [calls[k]])
    ensures AddCalls(s, calls[..k + 1]).None? ==> AddCalls(s, calls).None?
  {
    assert calls == calls[..k] + calls[k..];
    AddCallsSplit(s, calls[..k], calls[k..]);
    AddCallsSplit(s, calls[..k], [calls[k]]);
    assert calls[..k] + [calls[k]] == calls[..k + 1];
  }

  /** `validateToolConversation`: nil exactly on the accepted conversations, and otherwise
      the fault of the first offending message. Which of several unanswered ids is named
      depends on Go's map order. */
  method ValidateToolConversation(messages: seq<Msg>) returns (err: Option<Error>)
    ensures err.None? <==> Accepts(messages)
    ensures err.Some? ==> FirstFault(messages, err.value)
  {
    if |messages| > 0 {
      var first := messages[0].role;
      if first != "system" && first != "developer" && first != "user" && first != "assistant" {
        return Some(BadFirstRole(first));
      }
    }
    var pending: set<string> := {};
    var completed: set<string> := {};
    for i := 0 to |messages|
      invariant Run(START, messages[..i]) == Some(State(pending, completed))
    {
      var m := messages[i];
      ghost var s := State(pending, completed);
      RunNext(START, messages, i);
      if m.role == "assistant" {
        if |pending| > 0 {
          assert FaultAt(messages, i, ResultsMissing(i));
          return Some(ResultsMissing(i));
        }
        var calls := m.Calls();
        for k := 0 to |calls|
          invariant AddCalls(s, calls[..k]) == Some(State(pending, completed))
        {
          var id := calls[k].id;
          AddCallsNext(s, calls, k);
          if id == "" {
            assert CallFaults(s, calls, k, i, CallIdMissing(i));
            assert FaultAt(messages, i, CallIdMissing(i));
            return Some(CallIdMissing(i));
          }
          if id in pending || id in completed {
            assert CallFaults(s, calls, k, i, DuplicateCall(id));
            assert FaultAt(messages, i, DuplicateCall(id));
            return Some(DuplicateCall(id));
          }
          pending := pending + {id};
        }
        assert calls[..|calls|] == calls;
      } else if m.role == "tool" {
        if m.toolCallId == "" {
          assert FaultAt(messages, i, ResultIdMissing(i));
          return Some(ResultIdMissing(i));
        }
        if m.toolCallId !in pending {
          assert FaultAt(messages, i, UnexpectedResult(m.toolCallId));
          return Some(UnexpectedResult(m.toolCallId));
        }
        pending := pending - {m.toolCallId};
        completed := completed + {m.toolCallId};
      }
    }
    assert messages[..|messages|] == messages;
    if |pending| > 0 {
      var id :| id in pending;
      return Some(NeverAnswered(id));
    }
    return None;
  }

  // ---------------------------------------------------------------- the protocol, declaratively

  function CallIds(calls: seq<ToolCall>): (ids: seq<string>)
    ensures |ids| == |calls|
    ensures forall k :: 0 <= k < |calls| ==> ids[k] == calls[k].id
  {
    seq(|calls|, k requires 0 <= k < |calls| => calls[k].id)
  }

  /** The ids announced by a conversation, in order. */
  function Called(msgs: seq<Msg>): seq<string> {
    if msgs == [] then []
    else
      var m := msgs[|msgs| - 1];
      Called(msgs[..|msgs| - 1]) + (if m.role == "assistant" then CallIds(m.Calls()) else [])
  }

  /** The ids answered by a conversation, in order. */
  function Answered(msgs: seq<Msg>): seq<string> {
    if msgs == [] then []
    else Answered(msgs[..|msgs| - 1]) + (var m := msgs[|msgs| - 1]; if m.role == "tool" then [m.toolCallId] else [])
  }

  ghost predicate Distinct(ids: seq<string>) {
    forall i, j :: 0 <= i < j < |ids| ==> ids[i] != ids[j]
  }

  ghost function Ids(ids: seq<string>): set<string> {
    set id | id in ids
  }

  /** A tool message answers a call that was announced before it. */
  ghost predicate AnswersEarlier(msgs: seq<Msg>, j: nat)
    requires j < |msgs|
  {
    msgs[j].role == "tool" ==> msgs[j].toolCallId in Called(msgs[..j])
  }

  /** An assistant message finds every earlier call answered. */
  ghost predicate SettledBefore(msgs: seq<Msg>, j: nat)
    requires j < |msgs|
  {
    msgs[j].role == "assistant" ==> Ids(Called(msgs[..j])) <= Ids(Answered(msgs[..j]))
  }

  ghost predicate WellOrdered(msgs: seq<Msg>) {
    forall j :: 0 <= j < |msgs| ==> AnswersEarlier(msgs, j) && SettledBefore(msgs, j)
  }

  /** The protocol of one message order, without reference to a running state. */
  ghost predicate Protocol(msgs: seq<Msg>) {
    && Distinct(Called(msgs)) && "" !in Called(msgs)
    && Distinct(Answered(msgs))
    && WellOrdered(msgs)
  }

  lemma {:induction false} AddCallsMeaning(s: State, calls: seq<ToolCall>)
    ensures AddCalls(s, calls).Some? <==>
            Distinct(CallIds(calls)) && "" !in CallIds(calls) && Ids(CallIds(calls)) !! s.pending + s.completed
    ensures AddCalls(s, calls).Some? ==>
            AddCalls(s, calls).value == State(s.pending + Ids(CallIds(calls)), s.completed)
    decreases |calls|
  {
    if calls == [] {
    } else {
      var id := calls[0].id;
      var ids, rest := CallIds(calls), CallIds(calls[1..]);
      assert ids == [id] + rest;
      assert Ids(ids) == {id} + Ids(rest);
      assert Distinct(ids) <==> id !in rest && Distinct(rest) by {
        if Distinct(ids) {
          forall k | 0 <= k < |rest| ensures rest[k] != id { assert ids[k + 1] == rest[k] && ids[0] == id; }
          forall i, j | 0 <= i < j < |rest| ensures rest[i] != rest[j] { assert ids[i + 1] != ids[j + 1]; }
        }
      }
      if id != "" && id !in s.pending && id !in s.completed {
        AddCallsMeaning(s.(pending := s.pending + {id}), calls[1..]);
      }
    }
  }

  lemma WellOrderedSnoc(msgs: seq<Msg>, m: Msg)
    ensures WellOrdered(msgs + [m]) <==>
            && WellOrdered(msgs)
            && (m.role == "tool" ==> m.toolCallId in Called(msgs))
            && (m.role == "assistant" ==> Ids(Called(msgs)) <= Ids(Answered(msgs)))
  {
    var all, n := msgs + [m], |msgs|;
    assert all[..n] == msgs && all[n] == m;
    forall j | 0 <= j < n
      ensures AnswersEarlier(all, j) <==> AnswersEarlier(msgs, j)
      ensures SettledBefore(all, j) <==> SettledBefore(msgs, j)
    {
      assert all[..j] == msgs[..j];
    }
    if WellOrdered(all) {
      assert AnswersEarlier(all, n) && SettledBefore(all, n);
    }
  }

  lemma ProtocolSnoc(msgs: seq<Msg>, m: Msg)
    ensures Protocol(msgs + [m]) <==>
            && Protocol(msgs)
            && (m.role == "assistant" ==>
                  && Ids(Called(msgs)) <= Ids(Answered(msgs))
                  && Distinct(CallIds(m.Calls())) && "" !in CallIds(m.Calls())
                  && Ids(CallIds(m.Calls())) !! Ids(Called(msgs)))
            && (m.role == "tool" ==> m.toolCallId in Called(msgs) && m.toolCallId !in Answered(msgs))
  {
    var all := msgs + [m];
    assert all[..|msgs|] == msgs;
    WellOrderedSnoc(msgs, m);
    var ids := if m.role == "assistant" then CallIds(m.Calls()) else [];
    var answers := if m.role == "tool" then [m.toolCallId] else [];
    assert Called(all) == Called(msgs) + ids && Answered(all) == Answered(msgs) + answers;
    DistinctSplit(Called(msgs), ids);
    DistinctSplit(Answered(msgs), answers);
    assert Ids([m.toolCallId]) == {m.toolCallId};
  }

  lemma DistinctSplit(a: seq<string>, b: seq<string>)
    ensures Distinct(a + b) <==> Distinct(a) && Distinct(b) && Ids(a) !! Ids(b)
  {
    var ab := a + b;
    if Distinct(ab) {
      forall i, j | 0 <= i < j < |a| ensures a[i] != a[j] { assert ab[i] == a[i] && ab[j] == a[j]; }
      forall i, j | 0 <= i < j < |b| ensures b[i] != b[j] { assert ab[|a| + i] == b[i] && ab[|a| + j] == b[j]; }
      forall i, j | 0 <= i < |a| && 0 <= j < |b| ensures a[i] != b[j] { assert ab[i] == a[i] && ab[|a| + j] == b[j]; }
    } else {
      var i, j :| 0 <= i < j < |ab| && ab[i] == ab[j];
      if Distinct(a) && Distinct(b) {
        assert ab[i] in Ids(a) && ab[j] in Ids(b);
      }
    }
  }

  /** What one message adds to the announced and to the answered ids. */
  lemma IdsSnoc(msgs: seq<Msg>, m: Msg)
    ensures Ids(Called(msgs + [m]))
         == Ids(Called(msgs)) + (if m.role == "assistant" then Ids(CallIds(m.Calls())) else {})
    ensures Ids(Answered(msgs + [m])) == Ids(Answered(msgs)) + (if m.role == "tool" then {m.toolCallId} else {})
  {
    assert (msgs + [m])[..|msgs|] == msgs;
  }

  /** The running state says exactly which announced ids are still open. */
  lemma {:induction false} RunMeaning(msgs: seq<Msg>)
    ensures Run(START, msgs).Some? <==> Protocol(msgs)
    ensures Protocol(msgs) ==> Run(START, msgs).value == Open(msgs) && Ids(Answered(msgs)) <= Ids(Called(msgs))
    decreases |msgs|
  {
    if msgs != [] {
      var front, m := msgs[..|msgs| - 1], msgs[|msgs| - 1];
      assert front + [m] == msgs;
      RunMeaning(front);
      RunSplit(START, front, [m]);
      ProtocolSnoc(front, m);
      if Protocol(front) {
        NextMeaning(front, m);
      }
    }
  }

  /** The state that the announced and the answered ids make. */
  ghost function Open(msgs: seq<Msg>): State {
    State(Ids(Called(msgs)) - Ids(Answered(msgs)), Ids(Answered(msgs)))
  }

  lemma NextMeaning(msgs: seq<Msg>, m: Msg)
    requires Protocol(msgs) && Ids(Answered(msgs)) <= Ids(Called(msgs))
    ensures Run(Open(msgs), [m]).Some? <==> Protocol(msgs + [m])
    ensures Protocol(msgs + [m]) ==>
              Run(Open(msgs), [m]).value == Open(msgs + [m]) && Ids(Answered(msgs + [m])) <= Ids(Called(msgs + [m]))
  {
    ProtocolSnoc(msgs, m);
    IdsSnoc(msgs, m);
    RunOne(Open(msgs), m);
    if m.role == "assistant" {
      AddCallsMeaning(Open(msgs), m.Calls());
    } else if m.role == "tool" {
      ResultMeaning(msgs, m);
    }
  }

  lemma RunOne(s: State, m: Msg)
    ensures Run(s, [m]) == Next(s, m)
  {
    assert [m][1..] == [];
  }

  lemma ResultMeaning(msgs: seq<Msg>, m: Msg)
    requires m.role == "tool" && "" !in Called(msgs)
    ensures Next(Open(msgs), m).Some? <==> m.toolCallId in Called(msgs) && m.toolCallId !in Answered(msgs)
    ensures Next(Open(msgs), m).Some? ==>
              Next(Open(msgs), m).value
              == State(Ids(Called(msgs)) - (Ids(Answered(msgs)) + {m.toolCallId}), Ids(Answered(msgs)) + {m.toolCallId})
  {
    assert m.toolCallId in Ids(Called(msgs)) <==> m.toolCallId in Called(msgs);
  }

  /** What the checker accepts, in the protocol's own terms: a conversation opens with one of
      four roles; call ids are non-empty and announced once; every result answers a call made
      before it, once; no assistant message speaks while a call is open; none stays open. */
  lemma AcceptsIsProtocol(msgs: seq<Msg>)
    ensures Accepts(msgs) <==>
            && (msgs == [] || msgs[0].role in {"system", "developer", "user", "assistant"})
            && Protocol(msgs)
            && Ids(Called(msgs)) == Ids(Answered(msgs))
  {
    RunMeaning(msgs);
    if Protocol(msgs) {
      var called, answered := Ids(Called(msgs)), Ids(Answered(msgs));
      if called - answered == {} {
        forall id | id in called ensures id in answered {
          assert id !in called - answered;
        }
      }
    }
  }
}
