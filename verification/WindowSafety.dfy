/** When the window keeps the tool-call protocol: internal/web/context_budget.go:154-238 against
    internal/web/tool_state.go:8-50. */
module WindowSafety {
  import opened Basics
  import opened Messages
  import opened ToolState
  import opened ContextBudget
  import opened SlidingWindow
  import opened ConversationSafety
  import opened SessionContext

  // ---------------------------------------------------------------- a budget for every orphan

  /** The free atoms from `k` on, below `hi`. */
  ghost function FreeFrom(pinned: set<nat>, k: nat, hi: nat): set<nat> {
    set i: nat | k <= i < hi && i !in pinned
  }

  ghost function RoomFrom(atoms: seq<Atom>, pinned: set<nat>, k: nat, hi: nat): nat
    requires hi <= |atoms|
  {
    if hi <= k then 0
    else RoomFrom(atoms, pinned, k, hi - 1) + (if hi - 1 in pinned then 0 else atoms[hi - 1].tokens)
  }

  ghost predicate Priced(atoms: seq<Atom>) {
    forall i :: 0 <= i < |atoms| ==> atoms[i].tokens > 0
  }

  /** With room for exactly the free atoms from `k` on, the greedy choice is these atoms. */
  lemma {:induction false} GreedyFrom(atoms: seq<Atom>, pinned: set<nat>, k: nat, hi: nat)
    requires hi <= |atoms| && Priced(atoms)
    ensures Greedy(atoms, pinned, hi, RoomFrom(atoms, pinned, k, hi)) == FreeFrom(pinned, k, hi)
  {
    if hi > 0 {
      GreedyFrom(atoms, pinned, k, hi - 1);
    }
  }

  lemma {:induction false} RoomIsRest(atoms: seq<Atom>, pinned: set<nat>, k: nat, hi: nat)
    requires hi <= |atoms|
    ensures Weight(atoms, pinned, hi) + RoomFrom(atoms, pinned, k, hi) <= TotalTokens(atoms[..hi])
    ensures Priced(atoms) && (exists i :: 0 <= i < k && i < hi && i !in pinned) ==>
              Weight(atoms, pinned, hi) + RoomFrom(atoms, pinned, k, hi) < TotalTokens(atoms[..hi])
  {
    if hi > 0 {
      RoomIsRest(atoms, pinned, k, hi - 1);
      assert atoms[..hi] == atoms[..hi - 1] + [atoms[hi - 1]];
      TotalSplit(atoms[..hi - 1], [atoms[hi - 1]]);
    }
  }

  /** The budget that leaves room for exactly those. */
  ghost function BudgetFrom(atoms: seq<Atom>, k: nat): nat {
    PinnedTokens(atoms) + RoomFrom(atoms, Pinned(atoms), k, |atoms|)
  }

  /** What the window keeps with that budget, when something in front of `k` is free. */
  lemma WindowAt(lens: Lens, msgs: seq<Msg>, k: nat)
    requires Priced(Atoms(lens, msgs)) && k < |Atoms(lens, msgs)|
    requires exists i :: 0 <= i < k && i !in Pinned(Atoms(lens, msgs))
    ensures var atoms := Atoms(lens, msgs); var pinned := Pinned(atoms);
            var r := WindowOf(lens, msgs, BudgetFrom(atoms, k));
            r.Success? && r.value.msgs == Pick(atoms, pinned + FreeFrom(pinned, k, |atoms|), |atoms|)
  {
    var atoms := Atoms(lens, msgs);
    var pinned, b := Pinned(atoms), BudgetFrom(atoms, k);
    assert atoms[..|atoms|] == atoms;
    RoomIsRest(atoms, pinned, k, |atoms|);
    GreedyFrom(atoms, pinned, k, |atoms|);
    assert Kept(atoms, b) == pinned + FreeFrom(pinned, k, |atoms|);
    assert k in Kept(atoms, b);
  }

  // ---------------------------------------------------------------- what stands in front

  lemma {:induction false} AtomContent(lens: Lens, msgs: seq<Msg>, i: nat, k: nat)
    requires i <= |msgs| && k < |AtomsFrom(lens, msgs, i, 0)|
    ensures var a := AtomsFrom(lens, msgs, i, 0)[k];
            a.start < a.end <= |msgs| && a == Cut(lens, msgs, a.start, a.end, 0)
    decreases |msgs| - i
  {
    if k > 0 {
      AtomContent(lens, msgs, Extend(lens, msgs, i + 1), k - 1);
    }
  }

  /** Atom `k` in full: its messages, its kind and its first and last class. */
  lemma AtomClasses(lens: Lens, msgs: seq<Msg>, k: nat)
    requires k < |Atoms(lens, msgs)|
    ensures var a, raw := Atoms(lens, msgs)[k], RawAtoms(lens, msgs, 0)[k];
            && a.start < a.end <= |msgs| && a.msgs == msgs[a.start..a.end]
            && raw.kind == KindOf(lens.cls(msgs[a.start]))
            && (a.kind == raw.kind || (raw.kind == User && a.kind == Anchor))
            && (raw.kind == System ==> forall j :: a.start <= j < a.end ==> lens.cls(msgs[j]) == SystemMsg)
            && (raw.kind == User || raw.kind == Assist ==> a.end == a.start + 1)
            && (forall j :: a.start <= j < a.end && lens.cls(msgs[j]) != CallMsg && lens.cls(msgs[j]) != ToolMsg ==>
                            raw.kind == KindOf(lens.cls(msgs[j])))
            && (raw.kind == Tool ==> lens.cls(msgs[a.end - 1]) == CallMsg || lens.cls(msgs[a.end - 1]) == ToolMsg)
  {
    var raw := RawAtoms(lens, msgs, 0);
    AtomContent(lens, msgs, 0, k);
    AtomSpan(lens, msgs, k);
    MarkKeeps(raw);
    assert Atoms(lens, msgs)[k].(kind := System) == raw[k].(kind := System);
    GluedClasses(lens, msgs, raw[k].start, raw[k].end);
  }

  lemma {:induction false} GluedClasses(lens: Lens, msgs: seq<Msg>, a: nat, b: nat)
    requires a < b <= |msgs| && forall j :: a < j < b ==> Joined(lens, msgs, j)
    ensures lens.cls(msgs[a]) == SystemMsg ==> forall j :: a <= j < b ==> lens.cls(msgs[j]) == SystemMsg
    ensures lens.cls(msgs[a]) == UserMsg || lens.cls(msgs[a]) == AssistMsg ==> b == a + 1
    ensures forall j :: a <= j < b && lens.cls(msgs[j]) != CallMsg && lens.cls(msgs[j]) != ToolMsg ==>
                        lens.cls(msgs[j]) == lens.cls(msgs[a])
    ensures lens.cls(msgs[a]) == CallMsg || lens.cls(msgs[a]) == ToolMsg ==>
              lens.cls(msgs[b - 1]) == CallMsg || lens.cls(msgs[b - 1]) == ToolMsg
    decreases b
  {
    if b > a + 1 {
      GluedClasses(lens, msgs, a, b - 1);
      assert Joined(lens, msgs, b - 1);
    }
  }

  ghost predicate Quiet(lens: Lens, msgs: seq<Msg>) {
    forall j :: 0 <= j < |msgs| ==>
      KnownRole(msgs[j].role) && (lens.cls(msgs[j]) == SystemMsg || lens.cls(msgs[j]) == UserMsg)
  }

  lemma {:induction false} QuietRun(lens: Lens, s: State, msgs: seq<Msg>)
    requires Faithful(lens) && Quiet(lens, msgs)
    ensures Run(s, msgs) == Some(s)
    decreases |msgs|
  {
    if msgs != [] {
      NextByClass(lens, s, msgs[0]);
      QuietRun(lens, s, msgs[1..]);
    }
  }

  /** An atom that opens with a result: the atom before it is no tool exchange. */
  ghost predicate Orphan(lens: Lens, msgs: seq<Msg>, k: nat) {
    && k < |Atoms(lens, msgs)| && Atoms(lens, msgs)[k].start < |msgs|
    && lens.cls(msgs[Atoms(lens, msgs)[k].start]) == ToolMsg
  }

  /** Of the atoms in front of an orphan only system runs and the anchor are pinned. */
  lemma PinnedInFront(lens: Lens, msgs: seq<Msg>, k: nat, i: nat)
    requires Orphan(lens, msgs, k) && i < k && i in Pinned(Atoms(lens, msgs)) && ExactRoles(msgs)
    ensures Quiet(lens, Atoms(lens, msgs)[i].msgs)
  {
    var atoms := Atoms(lens, msgs);
    AtomClasses(lens, msgs, i);
    AtomClasses(lens, msgs, k - 1);
    AtomSpan(lens, msgs, k - 1);
    AtomSpan(lens, msgs, k);
    assert atoms[k - 1].end == atoms[k].start;
    assert atoms[k - 1].kind != Tool;
    assert !InTail(atoms, i);
    var a := atoms[i];
    forall j | 0 <= j < |a.msgs|
      ensures KnownRole(a.msgs[j].role) && (lens.cls(a.msgs[j]) == SystemMsg || lens.cls(a.msgs[j]) == UserMsg)
    {
      assert a.msgs[j] == msgs[a.start + j];
    }
  }

  lemma {:induction false} QuietPick(lens: Lens, atoms: seq<Atom>, chosen: set<nat>, hi: nat)
    requires hi <= |atoms| && forall i: nat :: i < hi && i in chosen ==> Quiet(lens, atoms[i].msgs)
    ensures Quiet(lens, Pick(atoms, chosen, hi))
  {
    if hi > 0 {
      QuietPick(lens, atoms, chosen, hi - 1);
    }
  }

  lemma {:induction false} RunStopped(atoms: seq<Atom>, chosen: set<nat>, lo: nat, hi: nat)
    requires lo <= hi <= |atoms| && Run(START, Pick(atoms, chosen, lo)).None?
    ensures Run(START, Pick(atoms, chosen, hi)).None?
    decreases hi
  {
    if lo < hi {
      RunStopped(atoms, chosen, lo, hi - 1);
      RunSplit(START, Pick(atoms, chosen, hi - 1), if hi - 1 in chosen then atoms[hi - 1].msgs else []);
    }
  }

  /** A choice that takes an orphan, and before it only what is quiet, is rejected. */
  lemma OrphanRejected(lens: Lens, msgs: seq<Msg>, k: nat, chosen: set<nat>)
    requires Faithful(lens) && ExactRoles(msgs) && Orphan(lens, msgs, k) && k in chosen
    requires forall i: nat :: i < k && i in chosen ==> i in Pinned(Atoms(lens, msgs))
    ensures !Accepts(Pick(Atoms(lens, msgs), chosen, |Atoms(lens, msgs)|))
  {
    var atoms := Atoms(lens, msgs);
    forall i: nat | i < k && i in chosen ensures Quiet(lens, atoms[i].msgs) {
      PinnedInFront(lens, msgs, k, i);
    }
    QuietPick(lens, atoms, chosen, k);
    var front, own := Pick(atoms, chosen, k), atoms[k].msgs;
    QuietRun(lens, START, front);
    AtomClasses(lens, msgs, k);
    assert own[0] == msgs[atoms[k].start];
    NextByClass(lens, START, own[0]);
    assert Next(START, own[0]).None?;
    RunSplit(START, front, own);
    assert Pick(atoms, chosen, k + 1) == front + own;
    RunStopped(atoms, chosen, k + 1, |atoms|);
  }

  /** With nothing free before it, an orphan makes the whole conversation unacceptable. */
  lemma OrphanHasFreeBefore(lens: Lens, msgs: seq<Msg>, k: nat)
    requires Faithful(lens) && ExactRoles(msgs) && Accepts(msgs) && Orphan(lens, msgs, k)
    ensures exists i :: 0 <= i < k && i !in Pinned(Atoms(lens, msgs))
  {
    if forall i: nat :: i < k ==> i in Pinned(Atoms(lens, msgs)) {
      var atoms := Atoms(lens, msgs);
      var all := Pinned(atoms) + FreeFrom(Pinned(atoms), k, |atoms|);
      PickAll(atoms, all, |atoms|);
      AtomsPartition(lens, msgs);
      assert atoms[..|atoms|] == atoms;
      OrphanRejected(lens, msgs, k, all);
    }
  }

  lemma {:induction false} PickAll(atoms: seq<Atom>, chosen: set<nat>, hi: nat)
    requires hi <= |atoms| && forall i: nat :: i < hi ==> i in chosen
    ensures Pick(atoms, chosen, hi) == Flatten(atoms[..hi])
  {
    if hi > 0 {
      PickAll(atoms, chosen, hi - 1);
      assert atoms[..hi] == atoms[..hi - 1] + [atoms[hi - 1]];
      FlattenSplit(atoms[..hi - 1], [atoms[hi - 1]]);
    }
  }

  lemma {:induction false} FlattenSplit(a: seq<Atom>, b: seq<Atom>)
    ensures Flatten(a + b) == Flatten(a) + Flatten(b)
    decreases |a|
  {
    if a == [] {
      assert a + b == b;
    } else {
      assert (a + b)[1..] == a[1..] + b;
      FlattenSplit(a[1..], b);
    }
  }

  /** A result that does not stand in the run behind its call opens an atom. */
  lemma PartedIsOrphan(lens: Lens, msgs: seq<Msg>) returns (k: nat)
    requires !ResultsInRuns(lens, msgs)
    ensures Orphan(lens, msgs, k)
  {
    var j :| 0 <= j < |msgs| && lens.cls(msgs[j]) == ToolMsg && !Joined(lens, msgs, j);
    k := AtomStartingAt(lens, msgs, 0, j);
    AtomContent(lens, msgs, 0, k);
    MarkedEnds(lens, msgs, k);
  }

  lemma MessagesCost(env: Env, msgs: seq<Msg>)
    ensures msgs != [] ==> SumTokens(View(env), msgs) > 0
  {
  }

  /** The window is safe for exactly the conversations whose results stand directly behind their
      calls: among accepted conversations with exact roles, every budget gives an accepted
      window if and only if every result is in the run behind its call. */
  lemma WindowSafeIff(env: Env, msgs: seq<Msg>)
    requires Sound(env) && ExactRoles(msgs) && Accepts(msgs)
    ensures (forall budget: int :: WindowOf(View(env), msgs, budget).Success? ==>
               Accepts(WindowOf(View(env), msgs, budget).value.msgs))
            <==> ResultsInRuns(View(env), msgs)
  {
    var lens := View(env);
    SoundIsFaithful(env);
    if ResultsInRuns(lens, msgs) {
      forall budget: int | WindowOf(lens, msgs, budget).Success?
        ensures Accepts(WindowOf(lens, msgs, budget).value.msgs)
      {
        WindowKeepsProtocol(lens, msgs, budget);
      }
    } else {
      var k := PartedIsOrphan(lens, msgs);
      var atoms := Atoms(lens, msgs);
      AtomsPartition(lens, msgs);
      forall i | 0 <= i < |atoms| ensures atoms[i].tokens > 0 {
        MessagesCost(env, atoms[i].msgs);
      }
      OrphanHasFreeBefore(lens, msgs, k);
      WindowAt(lens, msgs, k);
      var chosen := Pinned(atoms) + FreeFrom(Pinned(atoms), k, |atoms|);
      OrphanRejected(lens, msgs, k, chosen);
      assert !Accepts(WindowOf(lens, msgs, BudgetFrom(atoms, k)).value.msgs);
    }
  }

  // ---------------------------------------------------------------- when nothing is pinned

  lemma {:induction false} AtomAround(lens: Lens, msgs: seq<Msg>, j: nat, n: nat) returns (k: nat)
    requires j < |msgs| && n < |Atoms(lens, msgs)| && j < Atoms(lens, msgs)[n].end
    ensures k <= n && Atoms(lens, msgs)[k].start <= j < Atoms(lens, msgs)[k].end
    decreases n
  {
    AtomSpan(lens, msgs, n);
    if j >= Atoms(lens, msgs)[n].start {
      k := n;
    } else {
      AtomSpan(lens, msgs, n - 1);
      k := AtomAround(lens, msgs, j, n - 1);
    }
  }

  /** No atom is pinned exactly in a conversation of assistant and tool messages that closes with
      a plain assistant message. */
  lemma NothingPinnedIff(lens: Lens, msgs: seq<Msg>)
    requires msgs != []
    ensures Pinned(Atoms(lens, msgs)) == {} <==>
            && lens.cls(msgs[|msgs| - 1]) == AssistMsg
            && forall j :: 0 <= j < |msgs| ==> lens.cls(msgs[j]) != SystemMsg && lens.cls(msgs[j]) != UserMsg
  {
    var atoms := Atoms(lens, msgs);
    AtomsPartition(lens, msgs);
    var last := |atoms| - 1;
    AtomSpan(lens, msgs, last);
    AtomClasses(lens, msgs, last);
    if Pinned(atoms) == {} {
      forall j | 0 <= j < |msgs| ensures lens.cls(msgs[j]) != SystemMsg && lens.cls(msgs[j]) != UserMsg {
        UnpinnedMessage(lens, msgs, j, last);
      }
      UnpinnedAtom(lens, msgs, last);
      assert InTail(atoms, last) <==> atoms[last].kind == Tool;
      assert last !in Pinned(atoms);
    } else {
      var k :| k in Pinned(atoms);
      PinnedShows(lens, msgs, k, last);
    }
  }

  lemma UnpinnedMessage(lens: Lens, msgs: seq<Msg>, j: nat, last: nat)
    requires Pinned(Atoms(lens, msgs)) == {} && j < |msgs| && last == |Atoms(lens, msgs)| - 1
    ensures lens.cls(msgs[j]) != SystemMsg && lens.cls(msgs[j]) != UserMsg
  {
    AtomSpan(lens, msgs, last);
    var k := AtomAround(lens, msgs, j, last);
    UnpinnedAtom(lens, msgs, k);
    AtomClasses(lens, msgs, k);
  }

  lemma PinnedShows(lens: Lens, msgs: seq<Msg>, k: nat, last: nat)
    requires k in Pinned(Atoms(lens, msgs)) && last == |Atoms(lens, msgs)| - 1 && msgs != []
    ensures lens.cls(msgs[|msgs| - 1]) == AssistMsg ==>
              exists j :: 0 <= j < |msgs| && (lens.cls(msgs[j]) == SystemMsg || lens.cls(msgs[j]) == UserMsg)
  {
    AtomClasses(lens, msgs, k);
    AtomClasses(lens, msgs, last);
    AtomSpan(lens, msgs, last);
    assert InTail(Atoms(lens, msgs), k) ==> Atoms(lens, msgs)[last].kind == Tool;
  }

  lemma UnpinnedAtom(lens: Lens, msgs: seq<Msg>, k: nat)
    requires Pinned(Atoms(lens, msgs)) == {} && k < |Atoms(lens, msgs)|
    ensures var raw := RawAtoms(lens, msgs, 0)[k]; raw.kind != System && raw.kind != User
  {
    var atoms := Atoms(lens, msgs);
    AtomClasses(lens, msgs, k);
    assert k !in Pinned(atoms);
    if atoms[k].kind == User {
      MarkAnchored(RawAtoms(lens, msgs, 0), k);
    }
    if j: nat :| j < |atoms| && atoms[j].kind == Anchor {
      AnchorIsPinned(atoms, j);
    }
  }

  // ---------------------------------------------------------------- inputs that show it

  function Plain(role: string): Msg { Msg(role, "", "", "", None) }

  /** A call whose serialised form has two thousand characters. */
  function LongCall(): ToolCall {
    ToolCall("c1", "f", "", seq(2000, i => 'x'))
  }

  /** An accepted conversation whose result is parted from its call by a user message. */
  function PartedConversation(): seq<Msg> {
    [Plain("user"),
     Msg("assistant", "", "", "", Some([LongCall()])),
     Plain("user"),
     Msg("tool", "ok", "", "c1", None)]
  }

  /** One token for each character. */
  function CharEnv(): Env {
    Env(r => r, (s: string) => |s|, s => s)
  }

  ghost predicate PartedShape(lens: Lens, msgs: seq<Msg>)
    requires |msgs| == 4
  {
    RawAtoms(lens, msgs, 0) ==
    [Atom(User, [msgs[0]], 8, 0, 1), Atom(Tool, [msgs[1]], 2013, 1, 2),
     Atom(User, [msgs[2]], 8, 2, 3), Atom(Tool, [msgs[3]], 12, 3, 4)]
  }

  lemma PartedAtoms()
    ensures var msgs, lens := PartedConversation(), View(CharEnv());
            |msgs| == 4 && PartedShape(lens, msgs)
  {
    var msgs, lens := PartedConversation(), View(CharEnv());
    assert lens.cls(msgs[0]) == UserMsg && lens.cls(msgs[1]) == CallMsg;
    assert lens.cls(msgs[2]) == UserMsg && lens.cls(msgs[3]) == ToolMsg;
    PartedCosts();
    FourApart(lens, msgs);
  }

  /** Four messages, none of which is glued to the next, are four atoms. */
  lemma FourApart(lens: Lens, msgs: seq<Msg>)
    requires |msgs| == 4 && !Joined(lens, msgs, 1) && !Joined(lens, msgs, 2) && !Joined(lens, msgs, 3)
    ensures RawAtoms(lens, msgs, 0) ==
            [Single(lens, msgs, 0), Single(lens, msgs, 1), Single(lens, msgs, 2), Single(lens, msgs, 3)]
  {
    forall k: nat | k < 4
      ensures Extend(lens, msgs, k + 1) == k + 1 && Cut(lens, msgs, k, k + 1, 0) == Single(lens, msgs, k)
    {
      assert !Joined(lens, msgs, k + 1);
      SumTokensOne(lens, msgs[k]);
      assert msgs[k..k + 1] == [msgs[k]];
    }
    assert AtomsFrom(lens, msgs, 4, 0) == [];
    assert AtomsFrom(lens, msgs, 3, 0) == [Single(lens, msgs, 3)];
    assert AtomsFrom(lens, msgs, 2, 0) == [Single(lens, msgs, 2)] + AtomsFrom(lens, msgs, 3, 0);
    assert AtomsFrom(lens, msgs, 1, 0) == [Single(lens, msgs, 1)] + AtomsFrom(lens, msgs, 2, 0);
    assert AtomsFrom(lens, msgs, 0, 0) == [Single(lens, msgs, 0)] + AtomsFrom(lens, msgs, 1, 0);
  }

  function Single(lens: Lens, msgs: seq<Msg>, k: nat): Atom
    requires k < |msgs|
  {
    Atom(KindOf(lens.cls(msgs[k])), [msgs[k]], lens.cost(msgs[k]), k, k + 1)
  }

  lemma PartedCosts()
    ensures var msgs, env := PartedConversation(), CharEnv();
            && MessageTokens(env, msgs[0]) == MessageTokens(env, msgs[2]) == 8
            && MessageTokens(env, msgs[1]) == 2013 && MessageTokens(env, msgs[3]) == 12
  {
    var msgs, env := PartedConversation(), CharEnv();
    var calls := [LongCall()];
    assert msgs[1].Calls() == calls && calls[1..] == [];
    assert CallTokens(env, calls) == 2000 + CallTokens(env, []);
  }

  /** Without tidiness the window may break the protocol: it keeps the anchor, the second user
      message and the trailing result, and drops the call the result belongs to. */
  lemma WindowBreaksParted()
    ensures var msgs, lens := PartedConversation(), View(CharEnv());
            && Sound(CharEnv()) && ExactRoles(msgs) && Accepts(msgs) && !ResultsInRuns(lens, msgs)
            && WindowOf(lens, msgs, 1024) == Success(Window([msgs[0], msgs[2], msgs[3]], true))
            && !Accepts([msgs[0], msgs[2], msgs[3]])
  {
    var msgs, lens := PartedConversation(), View(CharEnv());
    PartedAccepted();
    PartedAtoms();
    PartedWindow(lens, msgs);
    assert lens.cls(msgs[3]) == ToolMsg && !Joined(lens, msgs, 3);
  }

  /** A long assistant message alone is sent although it overruns the budget. */
  lemma LongAnswerOverruns()
    ensures var env, m := CharEnv(), Msg("assistant", seq(2000, i => 'x'), "", "", None);
            && WindowOf(View(env), [m], 1024) == Success(Window([m], true))
            && LastAtomFallback(View(env), [m], 1024) && Cost(View(env), [m]) == 2020
  {
    var env, m := CharEnv(), Msg("assistant", seq(2000, i => 'x'), "", "", None);
    assert MessageTokens(env, m) == 2013;
    SumTokensOne(View(env), m);
    FallbackShows(env, m, 1024);
  }

  lemma PartedAccepted()
    ensures var msgs := PartedConversation();
            Accepts(msgs) && ExactRoles(msgs) && !Accepts([msgs[0], msgs[2], msgs[3]])
  {
    var msgs := PartedConversation();
    var call := State({"c1"}, {});
    assert Next(START, msgs[0]) == Some(START);
    assert AddCalls(START, [LongCall()]) == Some(call) by {
      assert AddCalls(call, []) == Some(call);
      assert {} + {"c1"} == {"c1"};
    }
    assert Next(START, msgs[1]) == Some(call);
    assert Next(call, msgs[2]) == Some(call);
    assert Next(call, msgs[3]) == Some(State({}, {"c1"}));
    assert Run(State({}, {"c1"}), []) == Some(State({}, {"c1"}));
    assert msgs[1..] == [msgs[1], msgs[2], msgs[3]] && msgs[1..][1..] == [msgs[2], msgs[3]];
    assert [msgs[2], msgs[3]][1..] == [msgs[3]] && [msgs[3]][1..] == [];
    assert Run(call, [msgs[3]]) == Some(State({}, {"c1"}));
    assert Run(call, [msgs[2], msgs[3]]) == Some(State({}, {"c1"}));
    assert Run(START, msgs[1..]) == Some(State({}, {"c1"}));
    var bad := [msgs[0], msgs[2], msgs[3]];
    assert bad[1..] == [msgs[2], msgs[3]];
    assert Run(START, [msgs[3]]) == None;
    assert Run(START, [msgs[2], msgs[3]]) == None;
  }

  lemma PartedWindow(lens: Lens, msgs: seq<Msg>)
    requires |msgs| == 4 && PartedShape(lens, msgs)
    ensures WindowOf(lens, msgs, 1024) == Success(Window([msgs[0], msgs[2], msgs[3]], true))
  {
    var raw, atoms := RawAtoms(lens, msgs, 0), Atoms(lens, msgs);
    MarkAt(raw, 0);
    assert |atoms| == 4 && atoms[0].kind == Anchor && atoms[1] == raw[1] && atoms[2] == raw[2] && atoms[3] == raw[3];
    PartedKept(atoms);
    assert [msgs[0]] + [msgs[2]] + [msgs[3]] == [msgs[0], msgs[2], msgs[3]];
    assert WindowFrom(atoms, {0, 2, 3}) == Window([msgs[0], msgs[2], msgs[3]], true);
  }

  /** The window of four atoms shaped like the parted conversation. */
  lemma PartedKept(atoms: seq<Atom>)
    requires |atoms| == 4
    requires atoms[0].kind == Anchor && atoms[1].kind == Tool && atoms[2].kind == User && atoms[3].kind == Tool
    requires atoms[0].tokens == atoms[2].tokens == 8 && atoms[1].tokens == 2013 && atoms[3].tokens == 12
    ensures TotalTokens(atoms) == 2041 && PinnedTokens(atoms) == 27
    ensures Kept(atoms, 1024) == {0, 2, 3} && |Kept(atoms, 1024)| == 3
    ensures Pick(atoms, {0, 2, 3}, 4) == atoms[0].msgs + atoms[2].msgs + atoms[3].msgs
  {
    assert !InTail(atoms, 1) && !InTail(atoms, 0) && !InTail(atoms, 2) && InTail(atoms, 3);
    assert FirstAnchor(atoms, 0);
    assert Pinned(atoms) == {0, 3};
    assert Weight(atoms, {0, 3}, 1) == 8;
    assert Weight(atoms, {0, 3}, 3) == 8;
    assert Greedy(atoms, {0, 3}, 0, 989) == {} && Greedy(atoms, {0, 3}, 1, 989) == {};
    assert Greedy(atoms, {0, 3}, 2, 989) == {};
    assert Greedy(atoms, {0, 3}, 3, 997) == {2};
    assert Greedy(atoms, {0, 3}, 4, 997) == {2};
    assert {0, 3} + {2} == {0, 2, 3};
    assert atoms[1..][1..] == atoms[2..] && atoms[2..][1..] == atoms[3..] && atoms[3..][1..] == [];
    assert TotalTokens([]) == 0 && TotalTokens(atoms[3..]) == 12;
    assert TotalTokens(atoms[2..]) == 20 && TotalTokens(atoms[1..]) == 2033;
    var kept := {0, 2, 3};
    assert Pick(atoms, kept, 1) == atoms[0].msgs;
    assert Pick(atoms, kept, 2) == atoms[0].msgs;
    assert Pick(atoms, kept, 3) == atoms[0].msgs + atoms[2].msgs;
  }
}
