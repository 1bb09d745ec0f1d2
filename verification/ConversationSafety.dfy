/** What joins the atomiser, the window and the tool-call checker: cutting a conversation at
    atom boundaries keeps it acceptable. internal/web/context_budget.go, tool_state.go. */
module ConversationSafety {
  import opened Basics
  import opened Messages
  import opened ToolState
  import opened ContextBudget
  import opened SlidingWindow

  /** The class of a message whose role is spelt exactly. */
  function RoleClass(m: Msg): Class {
    if m.role == "system" || m.role == "developer" then SystemMsg
    else if m.role == "tool" then ToolMsg
    else if m.role != "assistant" then UserMsg
    else if |m.Calls()| > 0 then CallMsg
    else AssistMsg
  }

  /** The atomiser reads exact roles as they are. */
  ghost predicate Faithful(lens: Lens) {
    forall m: Msg :: KnownRole(m.role) ==> lens.cls(m) == RoleClass(m)
  }

  lemma SoundIsFaithful(env: Env)
    requires Sound(env)
    ensures Faithful(View(env))
  {
    forall m: Msg | KnownRole(m.role) ensures View(env).cls(m) == RoleClass(m) {
      assert env.norm(m.role) == m.role;
    }
  }

  /** Atom boundaries, by role: only a system run, a call with its results and a run of results
      hold together. */
  lemma JoinedIff(env: Env, msgs: seq<Msg>, k: nat)
    requires Sound(env) && 0 < k < |msgs| && KnownRole(msgs[k - 1].role) && KnownRole(msgs[k].role)
    ensures var a, b := msgs[k - 1], msgs[k];
            Joined(View(env), msgs, k) <==>
            || (a.role in {"system", "developer"} && b.role in {"system", "developer"})
            || (b.role == "tool" && (a.role == "tool" || (a.role == "assistant" && a.Calls() != [])))
  {
    SoundIsFaithful(env);
  }

  ghost predicate ExactRoles(msgs: seq<Msg>) {
    forall j :: 0 <= j < |msgs| ==> KnownRole(msgs[j].role)
  }

  /** Exact roles, and every tool result stands in the run directly behind its call. */
  ghost predicate Tidy(lens: Lens, msgs: seq<Msg>) {
    ExactRoles(msgs) && ResultsInRuns(lens, msgs)
  }

  ghost predicate ResultsInRuns(lens: Lens, msgs: seq<Msg>) {
    forall j :: 0 <= j < |msgs| && lens.cls(msgs[j]) == ToolMsg ==> Joined(lens, msgs, j)
  }

  // ---------------------------------------------------------------- the checker by classes

  lemma NextByClass(lens: Lens, s: State, m: Msg)
    requires Faithful(lens) && KnownRole(m.role)
    ensures lens.cls(m) == SystemMsg || lens.cls(m) == UserMsg ==> Next(s, m) == Some(s)
    ensures lens.cls(m) == CallMsg || lens.cls(m) == AssistMsg ==> (s.pending != {} ==> Next(s, m).None?)
    ensures FirstRoleOk(m.role) <==> lens.cls(m) != ToolMsg
  {
    assert lens.cls(m) == RoleClass(m);
  }

  lemma {:induction false} AddCallsMono(s: State, t: State, calls: seq<ToolCall>)
    requires t.pending == s.pending && t.completed <= s.completed && AddCalls(s, calls).Some?
    ensures var a, b := AddCalls(s, calls), AddCalls(t, calls);
            && b.Some? && b.value.pending == a.value.pending
            && b.value.completed == t.completed && a.value.completed == s.completed
    decreases |calls|
  {
    if calls != [] {
      var id := calls[0].id;
      AddCallsMono(s.(pending := s.pending + {id}), t.(pending := t.pending + {id}), calls[1..]);
    }
  }

  /** Forgetting answered ids never makes the checker stricter. */
  lemma {:induction false} RunMono(s: State, t: State, msgs: seq<Msg>)
    requires t.pending == s.pending && t.completed <= s.completed && Run(s, msgs).Some?
    ensures var a, b := Run(s, msgs), Run(t, msgs);
            b.Some? && b.value.pending == a.value.pending && b.value.completed <= a.value.completed
    decreases |msgs|
  {
    if msgs != [] {
      var m := msgs[0];
      if m.role == "assistant" {
        AddCallsMono(s, t, m.Calls());
      }
      RunMono(Next(s, m).value, Next(t, m).value, msgs[1..]);
    }
  }

  // ---------------------------------------------------------------- cutting

  lemma JoinedInFront(lens: Lens, msgs: seq<Msg>, n: nat, j: nat)
    requires n <= |msgs|
    ensures Joined(lens, msgs[..n], j) <==> j < n && Joined(lens, msgs, j)
  {
  }

  lemma JoinedBehind(lens: Lens, msgs: seq<Msg>, n: nat, j: nat)
    requires n <= |msgs|
    ensures Joined(lens, msgs[n..], j) <==> j > 0 && Joined(lens, msgs, n + j)
  {
    if 0 < j < |msgs| - n {
      assert msgs[n..][j - 1] == msgs[n + j - 1] && msgs[n..][j] == msgs[n + j];
    }
  }

  /** Both halves of a cut stay tidy, exactly when the cut is not in front of a tool result. */
  lemma TidyCut(lens: Lens, msgs: seq<Msg>, n: nat)
    requires Tidy(lens, msgs) && n <= |msgs|
    ensures Tidy(lens, msgs[..n])
    ensures Tidy(lens, msgs[n..]) <==> n == |msgs| || lens.cls(msgs[n]) != ToolMsg
  {
    var a, b := msgs[..n], msgs[n..];
    forall j | 0 <= j < |a| && lens.cls(a[j]) == ToolMsg ensures Joined(lens, a, j) {
      JoinedInFront(lens, msgs, n, j);
    }
    assert forall j :: 0 <= j < |b| ==> b[j] == msgs[n + j];
    if n == |msgs| || lens.cls(msgs[n]) != ToolMsg {
      forall j | 0 <= j < |b| && lens.cls(b[j]) == ToolMsg ensures Joined(lens, b, j) {
        assert Joined(lens, msgs, n + j);
        JoinedBehind(lens, msgs, n, j);
      }
    } else {
      assert lens.cls(b[0]) == ToolMsg && !Joined(lens, b, 0);
    }
  }

  lemma TidyJoin(lens: Lens, a: seq<Msg>, b: seq<Msg>)
    requires Tidy(lens, a) && Tidy(lens, b)
    ensures Tidy(lens, a + b)
  {
    var ab := a + b;
    forall j | 0 <= j < |ab| && lens.cls(ab[j]) == ToolMsg ensures Joined(lens, ab, j) {
      if j < |a| {
        assert Joined(lens, a, j);
      } else {
        assert Joined(lens, b, j - |a|);
        assert b[j - |a| - 1] == ab[j - 1];
      }
    }
  }

  /** A tidy rest that the checker accepts leaves nothing open before it. */
  lemma {:induction false} SettledBeforeTidy(lens: Lens, s: State, rest: seq<Msg>)
    requires Faithful(lens) && Tidy(lens, rest)
    requires Run(s, rest).Some? && Run(s, rest).value.pending == {}
    ensures s.pending == {}
    decreases |rest|
  {
    if rest != [] {
      NextByClass(lens, s, rest[0]);
      assert !Joined(lens, rest, 0);
      if lens.cls(rest[0]) == SystemMsg || lens.cls(rest[0]) == UserMsg {
        assert 1 < |rest| && lens.cls(rest[1]) == ToolMsg ==> Joined(lens, rest, 1);
        TidyCut(lens, rest, 1);
        SettledBeforeTidy(lens, s, rest[1..]);
      }
    }
  }

  /** Cutting an accepted tidy conversation: the front is accepted when the rest is tidy. */
  lemma CutState(lens: Lens, msgs: seq<Msg>, n: nat)
    requires Faithful(lens) && Tidy(lens, msgs) && Accepts(msgs)
    requires n <= |msgs| && Tidy(lens, msgs[n..])
    ensures Run(START, msgs[..n]).Some? && Run(START, msgs[..n]).value.pending == {}
  {
    assert msgs == msgs[..n] + msgs[n..];
    RunSplit(START, msgs[..n], msgs[n..]);
    SettledBeforeTidy(lens, Run(START, msgs[..n]).value, msgs[n..]);
  }

  /** The rest of an accepted tidy conversation is accepted on its own exactly when it does not
      open with a tool result. */
  lemma SuffixAccepted(lens: Lens, msgs: seq<Msg>, n: nat)
    requires Faithful(lens) && Tidy(lens, msgs) && Accepts(msgs) && n < |msgs|
    ensures Accepts(msgs[n..]) <==> lens.cls(msgs[n]) != ToolMsg
  {
    var rest := msgs[n..];
    NextByClass(lens, START, msgs[n]);
    assert rest[0] == msgs[n];
    if lens.cls(msgs[n]) != ToolMsg {
      TidyCut(lens, msgs, n);
      CutState(lens, msgs, n);
      assert msgs == msgs[..n] + rest;
      RunSplit(START, msgs[..n], rest);
      RunMono(Run(START, msgs[..n]).value, START, rest);
    }
  }

  // ---------------------------------------------------------------- choosing atoms

  /** From any cut onwards: the chosen part of what was read is accepted with no call open. */
  ghost predicate ChosenSoFar(msgs: seq<Msg>, pos: nat, chosen: seq<Msg>)
    requires pos <= |msgs|
  {
    var full, part := Run(START, msgs[..pos]), Run(START, chosen);
    full.Some? && part.Some? && part.value.pending == {} && part.value.completed <= full.value.completed
  }

  /** One more atom, taken or dropped. */
  lemma ChooseAtom(lens: Lens, msgs: seq<Msg>, pos: nat, next: nat, chosen: seq<Msg>)
    requires Faithful(lens) && Tidy(lens, msgs) && Accepts(msgs)
    requires pos < next <= |msgs| && !Joined(lens, msgs, pos) && !Joined(lens, msgs, next)
    requires ChosenSoFar(msgs, pos, chosen) && Tidy(lens, chosen)
    ensures ChosenSoFar(msgs, next, chosen) && ChosenSoFar(msgs, next, chosen + msgs[pos..next])
    ensures Tidy(lens, msgs[pos..next])
  {
    var own := msgs[pos..next];
    assert msgs[..next] == msgs[..pos] + own;
    NotJoinedNotTool(lens, msgs, pos);
    NotJoinedNotTool(lens, msgs, next);
    TidyCut(lens, msgs, pos);
    TidyCut(lens, msgs, next);
    TidyCut(lens, msgs[..next], pos);
    CutState(lens, msgs, pos);
    CutState(lens, msgs, next);
    RunSplit(START, msgs[..pos], own);
    RunSplit(START, chosen, own);
    var full, part := Run(START, msgs[..pos]).value, Run(START, chosen).value;
    RunMono(full, part, own);
    RunGrows(full, own);
  }

  lemma NotJoinedNotTool(lens: Lens, msgs: seq<Msg>, n: nat)
    requires Tidy(lens, msgs) && n <= |msgs| && !Joined(lens, msgs, n)
    ensures n == |msgs| || lens.cls(msgs[n]) != ToolMsg
  {
  }

  lemma {:induction false} AddCallsGrows(s: State, calls: seq<ToolCall>)
    requires AddCalls(s, calls).Some?
    ensures AddCalls(s, calls).value.completed == s.completed
    decreases |calls|
  {
    if calls != [] {
      AddCallsGrows(s.(pending := s.pending + {calls[0].id}), calls[1..]);
    }
  }

  lemma {:induction false} RunGrows(s: State, msgs: seq<Msg>)
    requires Run(s, msgs).Some?
    ensures s.completed <= Run(s, msgs).value.completed
    decreases |msgs|
  {
    if msgs != [] {
      if msgs[0].role == "assistant" {
        AddCallsGrows(s, msgs[0].Calls());
      }
      RunGrows(Next(s, msgs[0]).value, msgs[1..]);
    }
  }

  lemma {:induction false} ChosenRun(lens: Lens, msgs: seq<Msg>, atoms: seq<Atom>, chosen: set<nat>, pos: nat, k: nat)
    requires Faithful(lens) && Tidy(lens, msgs) && Accepts(msgs)
    requires pos <= |msgs| && !Joined(lens, msgs, pos)
    requires k <= |atoms| && atoms[k..] == AtomsFrom(lens, msgs, pos, 0)
    requires ChosenSoFar(msgs, pos, Pick(atoms, chosen, k)) && Tidy(lens, Pick(atoms, chosen, k))
    ensures ChosenSoFar(msgs, |msgs|, Pick(atoms, chosen, |atoms|)) && Tidy(lens, Pick(atoms, chosen, |atoms|))
    decreases |msgs| - pos
  {
    if pos < |msgs| {
      var next := Extend(lens, msgs, pos + 1);
      ExtendLocal(lens, msgs, pos + 1);
      var sofar := Pick(atoms, chosen, k);
      assert atoms[k] == atoms[k..][0] && atoms[k + 1..] == atoms[k..][1..];
      ChooseAtom(lens, msgs, pos, next, sofar);
      TidyJoin(lens, sofar, msgs[pos..next]);
      assert sofar + [] == sofar;
      assert Pick(atoms, chosen, k + 1) == sofar + (if k in chosen then msgs[pos..next] else []);
      ChosenRun(lens, msgs, atoms, chosen, next, k + 1);
    }
  }

  /** Any choice of atoms of an accepted tidy conversation is accepted and tidy again. */
  lemma ChoiceAccepted(lens: Lens, msgs: seq<Msg>, chosen: set<nat>)
    requires Faithful(lens) && Tidy(lens, msgs) && Accepts(msgs)
    ensures var out := Pick(RawAtoms(lens, msgs, 0), chosen, |RawAtoms(lens, msgs, 0)|);
            Accepts(out) && Tidy(lens, out)
  {
    var atoms := RawAtoms(lens, msgs, 0);
    assert atoms[0..] == atoms && msgs[..0] == [];
    ChosenRun(lens, msgs, atoms, chosen, 0, 0);
    var out := Pick(atoms, chosen, |atoms|);
    if out != [] {
      assert !Joined(lens, out, 0);
      NextByClass(lens, START, out[0]);
    }
  }

  lemma {:induction false} AtomStartingAt(lens: Lens, msgs: seq<Msg>, i: nat, j: nat) returns (k: nat)
    requires i <= j < |msgs| && (i < j ==> !Joined(lens, msgs, j))
    ensures k < |AtomsFrom(lens, msgs, i, 0)|
    ensures var a := AtomsFrom(lens, msgs, i, 0)[k]; a.msgs != [] && a.msgs[0] == msgs[j]
    decreases |msgs| - i
  {
    if i == j {
      k := 0;
    } else {
      var next := Extend(lens, msgs, i + 1);
      ExtendLocal(lens, msgs, i + 1);
      assert j >= next;
      k := AtomStartingAt(lens, msgs, next, j);
      k := k + 1;
    }
  }

  lemma {:induction false} PickOne(atoms: seq<Atom>, k: nat, hi: nat)
    requires k < |atoms| && hi <= |atoms|
    ensures Pick(atoms, {k}, hi) == if k < hi then atoms[k].msgs else []
  {
    if hi > 0 {
      PickOne(atoms, k, hi - 1);
    }
  }

  /** The condition is exact: among accepted conversations with exact roles, dropping atoms is
      safe for every choice precisely when results stand directly behind their call. */
  lemma DroppingAtomsIsSafeIff(lens: Lens, msgs: seq<Msg>)
    requires Faithful(lens) && ExactRoles(msgs) && Accepts(msgs)
    ensures (forall chosen: set<nat> :: Accepts(Pick(RawAtoms(lens, msgs, 0), chosen, |RawAtoms(lens, msgs, 0)|)))
            <==> ResultsInRuns(lens, msgs)
  {
    var atoms := RawAtoms(lens, msgs, 0);
    if ResultsInRuns(lens, msgs) {
      forall chosen: set<nat> ensures Accepts(Pick(atoms, chosen, |atoms|)) {
        ChoiceAccepted(lens, msgs, chosen);
      }
    } else {
      var j :| 0 <= j < |msgs| && lens.cls(msgs[j]) == ToolMsg && !Joined(lens, msgs, j);
      var k := AtomStartingAt(lens, msgs, 0, j);
      PickOne(atoms, k, |atoms|);
      NextByClass(lens, START, msgs[j]);
      assert !Accepts(Pick(atoms, {k}, |atoms|));
    }
  }

  // ---------------------------------------------------------------- the window

  lemma {:induction false} PickMarked(raw: seq<Atom>, chosen: set<nat>, hi: nat)
    requires hi <= |raw|
    ensures Pick(Mark(raw), chosen, hi) == Pick(raw, chosen, hi)
  {
    if hi > 0 {
      PickMarked(raw, chosen, hi - 1);
      MarkKeeps(raw);
      assert Mark(raw)[hi - 1].(kind := System) == raw[hi - 1].(kind := System);
    }
  }

  /** Whatever the window returns for an accepted tidy conversation is accepted again: no orphan
      result, no unanswered call, no bad first role. */
  lemma WindowKeepsProtocol(lens: Lens, msgs: seq<Msg>, budget: int)
    requires Faithful(lens) && Tidy(lens, msgs) && Accepts(msgs)
    requires WindowOf(lens, msgs, budget).Success?
    ensures var out := WindowOf(lens, msgs, budget).value.msgs; Accepts(out) && Tidy(lens, out)
  {
    var raw, atoms := RawAtoms(lens, msgs, 0), Atoms(lens, msgs);
    var out := WindowOf(lens, msgs, budget).value.msgs;
    if out != msgs {
      var kept := Kept(atoms, Effective(budget));
      var chosen := if kept == {} then {|atoms| - 1} else kept;
      PickOne(atoms, |atoms| - 1, |atoms|);
      assert out == Pick(atoms, chosen, |atoms|);
      PickMarked(raw, chosen, |raw|);
      ChoiceAccepted(lens, msgs, chosen);
    }
  }
}
