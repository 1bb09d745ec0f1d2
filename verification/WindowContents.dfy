/** What the window must keep, told from the messages alone: internal/web/context_budget.go:154-238. */
module WindowContents {
  import opened Basics
  import opened Messages
  import opened ContextBudget
  import opened SlidingWindow
  import opened SessionContext
  import opened WindowSafety

  // ---------------------------------------------------------------- by message

  /** From `j` on there is nothing but calls and results: the running task. */
  ghost predicate TaskTail(lens: Lens, msgs: seq<Msg>, j: nat) {
    forall i :: j <= i < |msgs| ==> lens.cls(msgs[i]) == CallMsg || lens.cls(msgs[i]) == ToolMsg
  }

  ghost predicate FirstUser(lens: Lens, msgs: seq<Msg>, j: nat) {
    j < |msgs| && lens.cls(msgs[j]) == UserMsg && forall i :: 0 <= i < j ==> lens.cls(msgs[i]) != UserMsg
  }

  /** Every system message, the first user message and the running task. */
  ghost predicate MustKeep(lens: Lens, msgs: seq<Msg>, j: nat) {
    j < |msgs| && (lens.cls(msgs[j]) == SystemMsg || FirstUser(lens, msgs, j) || TaskTail(lens, msgs, j))
  }

  ghost function MustSet(lens: Lens, msgs: seq<Msg>): set<nat> {
    set j: nat | j < |msgs| && MustKeep(lens, msgs, j)
  }

  /** The messages below `n` with an index in `kept`, in order. */
  ghost function Select(msgs: seq<Msg>, kept: set<nat>, n: nat): seq<Msg>
    requires n <= |msgs|
  {
    if n == 0 then [] else Select(msgs, kept, n - 1) + (if n - 1 in kept then [msgs[n - 1]] else [])
  }

  // ---------------------------------------------------------------- atoms and messages

  /** All messages of an atom have classes of its kind. */
  lemma ClassKind(lens: Lens, msgs: seq<Msg>, k: nat, j: nat)
    requires k < |Atoms(lens, msgs)| && Atoms(lens, msgs)[k].start <= j < Atoms(lens, msgs)[k].end
    ensures j < |msgs| && KindOf(lens.cls(msgs[j])) == RawAtoms(lens, msgs, 0)[k].kind
  {
    AtomClasses(lens, msgs, k);
  }

  lemma {:induction false} MarkFirst(atoms: seq<Atom>, k: nat)
    requires k < |atoms| && atoms[k].kind != Anchor && Mark(atoms)[k].kind == Anchor
    ensures atoms[k].kind == User && forall i :: 0 <= i < k ==> atoms[i].kind != User
    decreases k
  {
    if k > 0 {
      assert atoms[0].kind != User;
      MarkFirst(atoms[1..], k - 1);
      assert forall i :: 0 < i < k ==> atoms[i] == atoms[1..][i - 1];
    }
  }

  lemma AtomHolding(lens: Lens, msgs: seq<Msg>, j: nat) returns (k: nat)
    requires j < |msgs|
    ensures k < |Atoms(lens, msgs)| && Atoms(lens, msgs)[k].start <= j < Atoms(lens, msgs)[k].end
  {
    AtomsPartition(lens, msgs);
    AtomSpan(lens, msgs, |Atoms(lens, msgs)| - 1);
    k := AtomAround(lens, msgs, j, |Atoms(lens, msgs)| - 1);
  }

  /** Atoms are in the order of their messages. */
  lemma {:induction false} AtomOrder(lens: Lens, msgs: seq<Msg>, i: nat, k: nat)
    requires i < k < |Atoms(lens, msgs)|
    ensures Atoms(lens, msgs)[i].end <= Atoms(lens, msgs)[k].start
    decreases k
  {
    AtomSpan(lens, msgs, k - 1);
    if i < k - 1 {
      AtomOrder(lens, msgs, i, k - 1);
    }
  }

  lemma TailIff(lens: Lens, msgs: seq<Msg>, k: nat, j: nat)
    requires k < |Atoms(lens, msgs)| && Atoms(lens, msgs)[k].start <= j < Atoms(lens, msgs)[k].end
    ensures InTail(Atoms(lens, msgs), k) <==> TaskTail(lens, msgs, j)
  {
    var atoms := Atoms(lens, msgs);
    if InTail(atoms, k) {
      forall i | j <= i < |msgs| ensures lens.cls(msgs[i]) == CallMsg || lens.cls(msgs[i]) == ToolMsg {
        var m := AtomHolding(lens, msgs, i);
        if m < k {
          AtomOrder(lens, msgs, m, k);
        }
        ClassKind(lens, msgs, m, i);
        AtomClasses(lens, msgs, m);
      }
    }
    if TaskTail(lens, msgs, j) {
      forall m | k <= m < |atoms| ensures atoms[m].kind == Tool {
        AtomClasses(lens, msgs, m);
        var i := if m == k then j else atoms[m].start;
        if m > k {
          AtomOrder(lens, msgs, k, m);
        }
        ClassKind(lens, msgs, m, i);
      }
    }
  }

  lemma AnchorIff(lens: Lens, msgs: seq<Msg>, k: nat, j: nat)
    requires k < |Atoms(lens, msgs)| && Atoms(lens, msgs)[k].start <= j < Atoms(lens, msgs)[k].end
    ensures FirstAnchor(Atoms(lens, msgs), k) <==> FirstUser(lens, msgs, j)
  {
    var atoms, raw := Atoms(lens, msgs), RawAtoms(lens, msgs, 0);
    AtomClasses(lens, msgs, k);
    ClassKind(lens, msgs, k, j);
    if FirstAnchor(atoms, k) {
      MarkFirst(raw, k);
      forall i | 0 <= i < j ensures lens.cls(msgs[i]) != UserMsg {
        var m := AtomHolding(lens, msgs, i);
        ClassKind(lens, msgs, m, i);
        if m > k {
          AtomOrder(lens, msgs, k, m);
        }
      }
    }
    if FirstUser(lens, msgs, j) {
      forall m | 0 <= m < k ensures atoms[m].kind != Anchor {
        AtomClasses(lens, msgs, m);
        ClassKind(lens, msgs, m, atoms[m].start);
        AtomOrder(lens, msgs, m, k);
      }
      if atoms[k].kind == User {
        MarkAnchored(raw, k);
      }
    }
  }

  /** An atom is pinned exactly if its messages must be kept. */
  lemma PinnedIff(lens: Lens, msgs: seq<Msg>, k: nat, j: nat)
    requires k < |Atoms(lens, msgs)| && Atoms(lens, msgs)[k].start <= j < Atoms(lens, msgs)[k].end
    ensures k in Pinned(Atoms(lens, msgs)) <==> MustKeep(lens, msgs, j)
  {
    AtomClasses(lens, msgs, k);
    ClassKind(lens, msgs, k, j);
    TailIff(lens, msgs, k, j);
    AnchorIff(lens, msgs, k, j);
  }

  /** The message indices `kept` are those of the chosen atoms. */
  ghost predicate SameChoice(atoms: seq<Atom>, chosen: set<nat>, kept: set<nat>) {
    forall k: nat, j: nat :: k < |atoms| && atoms[k].start <= j < atoms[k].end ==> (k in chosen <==> j in kept)
  }

  lemma {:induction false} SelectRun(msgs: seq<Msg>, kept: set<nat>, from: nat, end: nat, all: bool)
    requires from <= end <= |msgs| && forall j: nat :: from <= j < end ==> (j in kept <==> all)
    ensures Select(msgs, kept, end) == Select(msgs, kept, from) + (if all then msgs[from..end] else [])
    decreases end
  {
    if from < end {
      SelectRun(msgs, kept, from, end - 1, all);
      assert msgs[from..end] == msgs[from..end - 1] + [msgs[end - 1]];
    }
  }

  lemma {:induction false} PickIsSelect(lens: Lens, msgs: seq<Msg>, chosen: set<nat>, kept: set<nat>, hi: nat)
    requires hi <= |Atoms(lens, msgs)| && SameChoice(Atoms(lens, msgs), chosen, kept)
    ensures var n := if hi == 0 then 0 else Atoms(lens, msgs)[hi - 1].end;
            n <= |msgs| && Pick(Atoms(lens, msgs), chosen, hi) == Select(msgs, kept, n)
  {
    if hi > 0 {
      PickIsSelect(lens, msgs, chosen, kept, hi - 1);
      AtomSpan(lens, msgs, hi - 1);
      AtomClasses(lens, msgs, hi - 1);
      if hi > 1 {
        AtomSpan(lens, msgs, hi - 2);
      }
      var a := Atoms(lens, msgs)[hi - 1];
      SelectRun(msgs, kept, a.start, a.end, hi - 1 in chosen);
    }
  }

  ghost function Spread(atoms: seq<Atom>, chosen: set<nat>, n: nat): set<nat> {
    set j: nat | j < n && Covered(atoms, chosen, j)
  }

  ghost predicate Covered(atoms: seq<Atom>, chosen: set<nat>, j: nat) {
    exists k :: k in chosen && k < |atoms| && atoms[k].start <= j < atoms[k].end
  }

  lemma SpreadIsChoice(lens: Lens, msgs: seq<Msg>, chosen: set<nat>)
    ensures SameChoice(Atoms(lens, msgs), chosen, Spread(Atoms(lens, msgs), chosen, |msgs|))
  {
    var atoms := Atoms(lens, msgs);
    forall k: nat, j: nat | k < |atoms| && atoms[k].start <= j < atoms[k].end
      ensures k in chosen <==> j in Spread(atoms, chosen, |msgs|)
    {
      AtomSpan(lens, msgs, k);
      if m :| m in chosen && m < |atoms| && atoms[m].start <= j < atoms[m].end {
        if m < k {
          AtomOrder(lens, msgs, m, k);
        } else if k < m {
          AtomOrder(lens, msgs, k, m);
        }
      }
    }
  }

  // ---------------------------------------------------------------- the window

  /** Any choice of atoms, as a choice of messages. */
  lemma ChoiceSelects(lens: Lens, msgs: seq<Msg>, chosen: set<nat>) returns (kept: set<nat>)
    ensures SameChoice(Atoms(lens, msgs), chosen, kept)
    ensures Pick(Atoms(lens, msgs), chosen, |Atoms(lens, msgs)|) == Select(msgs, kept, |msgs|)
  {
    kept := Spread(Atoms(lens, msgs), chosen, |msgs|);
    SpreadIsChoice(lens, msgs, chosen);
    PickIsSelect(lens, msgs, chosen, kept, |Atoms(lens, msgs)|);
    AtomsPartition(lens, msgs);
    if Atoms(lens, msgs) != [] {
      AtomSpan(lens, msgs, |Atoms(lens, msgs)| - 1);
    }
  }

  /** A window that drops something is a choice of atoms with the pinned ones among them. */
  lemma WindowIsChoice(lens: Lens, msgs: seq<Msg>, budget: int) returns (chosen: set<nat>)
    requires WindowOf(lens, msgs, budget).Success? && WindowOf(lens, msgs, budget).value.msgs != msgs
    ensures var atoms := Atoms(lens, msgs);
            Pinned(atoms) <= chosen && WindowOf(lens, msgs, budget).value.msgs == Pick(atoms, chosen, |atoms|)
  {
    var atoms, b := Atoms(lens, msgs), Effective(budget);
    chosen := if Kept(atoms, b) == {} then {|atoms| - 1} else Kept(atoms, b);
    ConversationSafety.PickOne(atoms, |atoms| - 1, |atoms|);
  }

  lemma ChoiceKeepsMust(lens: Lens, msgs: seq<Msg>, chosen: set<nat>, kept: set<nat>)
    requires Pinned(Atoms(lens, msgs)) <= chosen && SameChoice(Atoms(lens, msgs), chosen, kept)
    ensures forall j: nat :: MustKeep(lens, msgs, j) ==> j in kept
  {
    forall j: nat | MustKeep(lens, msgs, j) ensures j in kept {
      var k := AtomHolding(lens, msgs, j);
      PinnedIff(lens, msgs, k, j);
    }
  }

  /** A window that does not err selects messages in order, and every one that must be kept is
      among them. */
  lemma WindowKeepsMust(lens: Lens, msgs: seq<Msg>, budget: int) returns (kept: set<nat>)
    requires WindowOf(lens, msgs, budget).Success?
    ensures forall j: nat :: MustKeep(lens, msgs, j) ==> j in kept
    ensures WindowOf(lens, msgs, budget).value.msgs == Select(msgs, kept, |msgs|)
  {
    if WindowOf(lens, msgs, budget).value.msgs == msgs {
      kept := FreeFrom({}, 0, |msgs|);
      SelectRun(msgs, kept, 0, |msgs|, true);
      assert msgs[0..|msgs|] == msgs;
    } else {
      var chosen := WindowIsChoice(lens, msgs, budget);
      kept := ChoiceSelects(lens, msgs, chosen);
      ChoiceKeepsMust(lens, msgs, chosen, kept);
    }
  }

  lemma {:induction false} SelectHas(msgs: seq<Msg>, kept: set<nat>, j: nat, n: nat)
    requires j < n <= |msgs| && j in kept
    ensures msgs[j] in Select(msgs, kept, n)
  {
    if j < n - 1 {
      SelectHas(msgs, kept, j, n - 1);
    }
  }

  /** In particular no system message and not the first user message is lost, and the output ends
      with the whole running task. */
  lemma WindowKeepsTask(lens: Lens, msgs: seq<Msg>, budget: int, k: nat)
    requires WindowOf(lens, msgs, budget).Success? && k <= |msgs| && TaskTail(lens, msgs, k)
    ensures var out := WindowOf(lens, msgs, budget).value.msgs;
            && |msgs| - k <= |out| && out[|out| - (|msgs| - k)..] == msgs[k..]
            && forall j: nat :: j < |msgs| && (lens.cls(msgs[j]) == SystemMsg || FirstUser(lens, msgs, j)) ==>
                 msgs[j] in out
  {
    var kept := WindowKeepsMust(lens, msgs, budget);
    assert forall j: nat :: k <= j < |msgs| ==> MustKeep(lens, msgs, j);
    SelectRun(msgs, kept, k, |msgs|, true);
    forall j: nat | j < |msgs| && (lens.cls(msgs[j]) == SystemMsg || FirstUser(lens, msgs, j))
      ensures msgs[j] in WindowOf(lens, msgs, budget).value.msgs
    {
      assert MustKeep(lens, msgs, j);
      SelectHas(msgs, kept, j, |msgs|);
    }
  }

  /** The pinned tokens are those of the messages that must be kept. */
  lemma PinnedCost(lens: Lens, msgs: seq<Msg>)
    ensures PinnedTokens(Atoms(lens, msgs)) == SumTokens(lens, Select(msgs, MustSet(lens, msgs), |msgs|)) + 7
  {
    var atoms := Atoms(lens, msgs);
    AtomsPartition(lens, msgs);
    PickTokens(lens, atoms, Pinned(atoms), |atoms|);
    forall k: nat, j: nat | k < |atoms| && atoms[k].start <= j < atoms[k].end
      ensures k in Pinned(atoms) <==> j in MustSet(lens, msgs)
    {
      PinnedIff(lens, msgs, k, j);
    }
    PickIsSelect(lens, msgs, Pinned(atoms), MustSet(lens, msgs), |atoms|);
    if atoms != [] {
      AtomSpan(lens, msgs, |atoms| - 1);
    }
  }

  /** The window errs exactly when the messages that must be kept, with the overhead of 7 tokens,
      exceed the budget, which is 1024 where none is given. */
  lemma WindowErrsIff(lens: Lens, msgs: seq<Msg>, budget: int)
    ensures WindowOf(lens, msgs, budget).Failure? <==>
            && msgs != []
            && SumTokens(lens, Select(msgs, MustSet(lens, msgs), |msgs|)) + 7 > (if budget <= 0 then 1024 else budget)
  {
    WindowErrs(lens, msgs, budget);
    PinnedCost(lens, msgs);
  }
}
