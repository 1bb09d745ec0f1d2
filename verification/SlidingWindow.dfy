/** The token-budget window over atoms, internal/web/context_budget.go:153-239. */
module SlidingWindow {
  import opened Basics
  import opened Messages
  import opened ContextBudget

  /** requestProtocolTokens + replyPrimingTokens */
  const OVERHEAD: nat := 4 + 3
  const DEFAULT_BUDGET: nat := 1024

  datatype Window = Window(msgs: seq<Msg>, truncated: bool)
  datatype Exceeded = Exceeded(pinned: nat, budget: nat)

  function Effective(budget: int): nat {
    if budget <= 0 then DEFAULT_BUDGET else budget
  }

  // ---------------------------------------------------------------- sets of atoms

  /** The tokens of the chosen atoms with index below `hi`. */
  function Weight(atoms: seq<Atom>, chosen: set<nat>, hi: nat): nat
    requires hi <= |atoms|
  {
    if hi == 0 then 0
    else Weight(atoms, chosen, hi - 1) + (if hi - 1 in chosen then atoms[hi - 1].tokens else 0)
  }

  function Pick(atoms: seq<Atom>, chosen: set<nat>, hi: nat): seq<Msg>
    requires hi <= |atoms|
  {
    if hi == 0 then []
    else Pick(atoms, chosen, hi - 1) + (if hi - 1 in chosen then atoms[hi - 1].msgs else [])
  }

  predicate InTail(atoms: seq<Atom>, i: nat) {
    forall j :: i <= j < |atoms| ==> atoms[j].kind == Tool
  }

  predicate FirstAnchor(atoms: seq<Atom>, i: nat) {
    i < |atoms| && atoms[i].kind == Anchor && forall j :: 0 <= j < i ==> atoms[j].kind != Anchor
  }

  /** System atoms, the trailing tool exchange and the anchor are never dropped. */
  predicate IsPinned(atoms: seq<Atom>, i: nat) {
    i < |atoms| && (atoms[i].kind == System || InTail(atoms, i) || FirstAnchor(atoms, i))
  }

  ghost function Pinned(atoms: seq<Atom>): set<nat> {
    set i: nat | i < |atoms| && IsPinned(atoms, i)
  }

  ghost function PinnedTokens(atoms: seq<Atom>): nat {
    Weight(atoms, Pinned(atoms), |atoms|) + OVERHEAD
  }

  /** Newest first, every free atom that still fits. */
  function Greedy(atoms: seq<Atom>, pinned: set<nat>, hi: nat, remaining: int): set<nat>
    requires hi <= |atoms|
  {
    if hi == 0 then {}
    else if hi - 1 !in pinned && atoms[hi - 1].tokens <= remaining then
      {hi - 1} + Greedy(atoms, pinned, hi - 1, remaining - atoms[hi - 1].tokens)
    else Greedy(atoms, pinned, hi - 1, remaining)
  }

  ghost function Kept(atoms: seq<Atom>, budget: nat): set<nat> {
    Pinned(atoms) + Greedy(atoms, Pinned(atoms), |atoms|, budget - PinnedTokens(atoms))
  }

  ghost function WindowOf(lens: Lens, msgs: seq<Msg>, budget: int): Result<Window, Exceeded> {
    var b, atoms := Effective(budget), Atoms(lens, msgs);
    if atoms == [] || TotalTokens(atoms) + OVERHEAD <= b then Success(Window(msgs, false))
    else if PinnedTokens(atoms) > b then Failure(Exceeded(PinnedTokens(atoms), b))
    else
      Success(WindowFrom(atoms, Kept(atoms, b)))
  }

  // ---------------------------------------------------------------- the code

  lemma {:induction false} WeightAdd(atoms: seq<Atom>, chosen: set<nat>, i: nat, hi: nat)
    requires hi <= |atoms| && i !in chosen && i < |atoms|
    ensures Weight(atoms, chosen + {i}, hi) == Weight(atoms, chosen, hi) + (if i < hi then atoms[i].tokens else 0)
  {
    if hi > 0 {
      WeightAdd(atoms, chosen, i, hi - 1);
    }
  }

  lemma {:induction false} WeightNone(atoms: seq<Atom>, hi: nat)
    requires hi <= |atoms|
    ensures Weight(atoms, {}, hi) == 0
  {
    if hi > 0 {
      WeightNone(atoms, hi - 1);
    }
  }

  /** Sums all tokens: the first loop of `slidingWindow`. */
  method SumAtoms(atoms: seq<Atom>) returns (total: nat)
    ensures total == TotalTokens(atoms)
  {
    total := 0;
    for i := 0 to |atoms|
      invariant total + TotalTokens(atoms[i..]) == TotalTokens(atoms)
    {
      assert atoms[i..][1..] == atoms[i + 1..];
      total := total + atoms[i].tokens;
    }
  }

  /** Pins the system atoms, the trailing run of tool atoms and the anchor. */
  method PinAtoms(atoms: seq<Atom>) returns (selected: set<nat>, sum: nat)
    ensures selected == Pinned(atoms) && sum == PinnedTokens(atoms)
  {
    selected, sum := {}, OVERHEAD;
    var anchor := -1;
    WeightNone(atoms, |atoms|);
    for idx := 0 to |atoms|
      invariant selected == set i: nat | i < idx && atoms[i].kind == System
      invariant sum == Weight(atoms, selected, |atoms|) + OVERHEAD
      invariant anchor == -1 ==> forall i :: 0 <= i < idx ==> atoms[i].kind != Anchor
      invariant anchor != -1 ==> 0 <= anchor < idx && FirstAnchor(atoms, anchor)
    {
      if atoms[idx].kind == System {
        WeightAdd(atoms, selected, idx, |atoms|);
        selected := selected + {idx};
        sum := sum + atoms[idx].tokens;
      }
      if atoms[idx].kind == Anchor && anchor == -1 {
        anchor := idx;
      }
    }
    var tail := |atoms|;
    while tail > 0 && atoms[tail - 1].kind == Tool
      invariant 0 <= tail <= |atoms| && InTail(atoms, tail)
      invariant selected == set i: nat | i < |atoms| && (atoms[i].kind == System || tail <= i)
      invariant sum == Weight(atoms, selected, |atoms|) + OVERHEAD
    {
      tail := tail - 1;
      WeightAdd(atoms, selected, tail, |atoms|);
      selected := selected + {tail};
      sum := sum + atoms[tail].tokens;
    }
    assert forall i: nat :: i < |atoms| ==> (InTail(atoms, i) <==> tail <= i);
    if anchor != -1 {
      WeightAdd(atoms, selected, anchor, |atoms|);
      selected := selected + {anchor};
      sum := sum + atoms[anchor].tokens;
    }
  }

  /** Fills the budget from the newest atom backwards. */
  method FillBudget(atoms: seq<Atom>, pinned: set<nat>, budget: nat) returns (selected: set<nat>)
    ensures selected == pinned + Greedy(atoms, pinned, |atoms|, budget)
  {
    selected := pinned;
    var remaining, idx := budget, |atoms|;
    while idx > 0
      invariant 0 <= idx <= |atoms|
      invariant forall i :: 0 <= i < idx ==> (i in selected <==> i in pinned)
      invariant pinned + Greedy(atoms, pinned, |atoms|, budget) == selected + Greedy(atoms, pinned, idx, remaining)
    {
      idx := idx - 1;
      if idx in selected {
        continue;
      }
      var tok := atoms[idx].tokens;
      if tok <= remaining {
        selected := selected + {idx};
        remaining := remaining - tok;
      }
    }
  }

  method CollectSelected(atoms: seq<Atom>, selected: set<nat>) returns (out: seq<Msg>)
    ensures out == Pick(atoms, selected, |atoms|)
  {
    out := [];
    for idx := 0 to |atoms|
      invariant out == Pick(atoms, selected, idx)
    {
      if idx in selected {
        out := out + atoms[idx].msgs;
      }
    }
  }

  /** Atoms hold messages, so picking nothing and picking no atom are the same. */
  lemma {:induction false} PickEmpty(lens: Lens, atoms: seq<Atom>, chosen: set<nat>, hi: nat)
    requires hi <= |atoms| && forall k :: 0 <= k < |atoms| ==> WellCut(lens, atoms[k])
    ensures Pick(atoms, chosen, hi) == [] <==> forall i :: 0 <= i < hi ==> i !in chosen
  {
    if hi > 0 {
      PickEmpty(lens, atoms, chosen, hi - 1);
    }
  }

  lemma {:induction false} GreedyRange(atoms: seq<Atom>, pinned: set<nat>, hi: nat, remaining: int)
    requires hi <= |atoms|
    ensures forall i :: i in Greedy(atoms, pinned, hi, remaining) ==> i < hi && i !in pinned
  {
    if hi > 0 {
      GreedyRange(atoms, pinned, hi - 1, remaining);
      GreedyRange(atoms, pinned, hi - 1, remaining - atoms[hi - 1].tokens);
    }
  }

  lemma KeptEmpty(lens: Lens, msgs: seq<Msg>, budget: nat)
    ensures var atoms := Atoms(lens, msgs);
            Pick(atoms, Kept(atoms, budget), |atoms|) == [] <==> Kept(atoms, budget) == {}
  {
    var atoms := Atoms(lens, msgs);
    AtomsPartition(lens, msgs);
    PickEmpty(lens, atoms, Kept(atoms, budget), |atoms|);
    GreedyRange(atoms, Pinned(atoms), |atoms|, budget - PinnedTokens(atoms));
  }

  function WindowFrom(atoms: seq<Atom>, kept: set<nat>): Window
    requires atoms != []
  {
    if kept == {} then Window(atoms[|atoms| - 1].msgs, true)
    else Window(Pick(atoms, kept, |atoms|), |kept| < |atoms|)
  }

  /** The closing part of `slidingWindow`, with the fallback to the last atom. */
  method EmitWindow(atoms: seq<Atom>, selected: set<nat>) returns (w: Window)
    requires atoms != []
    requires Pick(atoms, selected, |atoms|) == [] <==> selected == {}
    ensures w == WindowFrom(atoms, selected)
  {
    var out := CollectSelected(atoms, selected);
    var truncated := |selected| < |atoms|;
    if |out| == 0 && |atoms| > 0 {
      var last := atoms[|atoms| - 1];
      assert out + last.msgs == last.msgs;
      out := out + last.msgs;
      truncated := true;
    }
    w := Window(out, truncated);
  }

  /** `slidingWindow`. */
  method SlideWindow(env: Env, messages: seq<Msg>, budget: int) returns (r: Result<Window, Exceeded>)
    ensures r == WindowOf(View(env), messages, budget)
  {
    var b := if budget <= 0 then DEFAULT_BUDGET else budget;
    var atoms := BuildAtoms(env, messages);
    if |atoms| == 0 {
      return Success(Window(messages, false));
    }
    var total := SumAtoms(atoms);
    total := total + OVERHEAD;
    if total <= b {
      return Success(Window(messages, false));
    }
    KeptEmpty(View(env), messages, b);
    r := ShrinkWindow(atoms, b);
  }

  /** The part of `slidingWindow` for atoms over the budget. */
  method ShrinkWindow(atoms: seq<Atom>, b: nat) returns (r: Result<Window, Exceeded>)
    requires atoms != []
    requires Pick(atoms, Kept(atoms, b), |atoms|) == [] <==> Kept(atoms, b) == {}
    ensures r == if PinnedTokens(atoms) > b then Failure(Exceeded(PinnedTokens(atoms), b))
                 else Success(WindowFrom(atoms, Kept(atoms, b)))
  {
    var pinned, sum := PinAtoms(atoms);
    if sum > b {
      return Failure(Exceeded(sum, b));
    }
    var selected := FillBudget(atoms, pinned, b - sum);
    var w := EmitWindow(atoms, selected);
    return Success(w);
  }

  // ---------------------------------------------------------------- what the window keeps

  /** A choice of atoms the window may make. */
  ghost predicate Feasible(atoms: seq<Atom>, chosen: set<nat>, budget: nat) {
    && (forall i :: i in chosen ==> i < |atoms|)
    && Pinned(atoms) <= chosen
    && Weight(atoms, chosen, |atoms|) + OVERHEAD <= budget
  }

  /** `a` has the newest atom on which the two choices differ. */
  ghost predicate Newer(a: set<nat>, b: set<nat>) {
    exists i :: i in a && i !in b && forall j :: j > i ==> (j in a <==> j in b)
  }

  /** Weight splits over the pinned part and the rest. */
  lemma {:induction false} WeightUnion(atoms: seq<Atom>, a: set<nat>, b: set<nat>, hi: nat)
    requires hi <= |atoms| && a !! b
    ensures Weight(atoms, a + b, hi) == Weight(atoms, a, hi) + Weight(atoms, b, hi)
  {
    if hi > 0 {
      WeightUnion(atoms, a, b, hi - 1);
    }
  }

  lemma {:induction false} GreedyFits(atoms: seq<Atom>, pinned: set<nat>, hi: nat, remaining: int)
    requires hi <= |atoms| && remaining >= 0
    ensures Weight(atoms, Greedy(atoms, pinned, hi, remaining), hi) <= remaining
  {
    if hi > 0 {
      var i := hi - 1;
      if i !in pinned && atoms[i].tokens <= remaining {
        var rest := Greedy(atoms, pinned, i, remaining - atoms[i].tokens);
        GreedyFits(atoms, pinned, i, remaining - atoms[i].tokens);
        GreedyRange(atoms, pinned, i, remaining - atoms[i].tokens);
        WeightAdd(atoms, rest, i, hi);
        assert {i} + rest == rest + {i};
      } else {
        GreedyFits(atoms, pinned, i, remaining);
        GreedyRange(atoms, pinned, i, remaining);
      }
    }
  }

  /** Where the greedy choice and another fitting choice of free atoms differ last, the greedy
      one has the atom. */
  lemma {:induction false} GreedyBeats(atoms: seq<Atom>, pinned: set<nat>, hi: nat, remaining: int, other: set<nat>)
    requires hi <= |atoms|
    requires forall i :: i in other ==> i < hi && i !in pinned
    requires Weight(atoms, other, hi) <= remaining
    requires other != Greedy(atoms, pinned, hi, remaining)
    ensures Newer(Greedy(atoms, pinned, hi, remaining), other)
  {
    var i, greedy := hi - 1, Greedy(atoms, pinned, hi, remaining);
    if hi > 0 {
      WeightMonotone(atoms, other, i);
      if i in greedy && i !in other {
        GreedyRange(atoms, pinned, hi, remaining);
      } else if i in greedy {
        var less := other - {i};
        WeightAdd(atoms, less, i, hi);
        assert less + {i} == other;
        GreedyRange(atoms, pinned, i, remaining - atoms[i].tokens);
        var rest := Greedy(atoms, pinned, i, remaining - atoms[i].tokens);
        assert greedy == {i} + rest;
        GreedyBeats(atoms, pinned, i, remaining - atoms[i].tokens, less);
        var d :| d in rest && d !in less && forall j :: j > d ==> (j in rest <==> j in less);
        assert d in greedy && d !in other && forall j :: j > d ==> (j in greedy <==> j in other);
      } else {
        assert i !in other;
        GreedyBeats(atoms, pinned, i, remaining, other);
      }
    }
  }

  lemma WeightMonotone(atoms: seq<Atom>, chosen: set<nat>, i: nat)
    requires i < |atoms|
    ensures Weight(atoms, chosen, i + 1) >= if i in chosen then atoms[i].tokens else 0
  {
  }

  /** The kept atoms are the best choice: they are feasible, and compared from the newest atom
      backwards they beat every other feasible choice. */
  lemma KeptIsOptimal(atoms: seq<Atom>, budget: nat)
    requires PinnedTokens(atoms) <= budget
    ensures Feasible(atoms, Kept(atoms, budget), budget)
    ensures forall other :: Feasible(atoms, other, budget) && other != Kept(atoms, budget) ==>
              Newer(Kept(atoms, budget), other)
  {
    var n, pinned := |atoms|, Pinned(atoms);
    var room := budget - PinnedTokens(atoms);
    var free := Greedy(atoms, pinned, n, room);
    GreedyFits(atoms, pinned, n, room);
    GreedyRange(atoms, pinned, n, room);
    WeightUnion(atoms, pinned, free, n);
    forall other | Feasible(atoms, other, budget) && other != Kept(atoms, budget)
      ensures Newer(Kept(atoms, budget), other)
    {
      var rest := other - pinned;
      assert pinned + rest == other;
      WeightUnion(atoms, pinned, rest, n);
      GreedyBeats(atoms, pinned, n, room, rest);
      var i :| i in free && i !in rest && forall j :: j > i ==> (j in free <==> j in rest);
      assert i in Kept(atoms, budget) && i !in other;
    }
  }

  /** Hence no dropped atom would still fit. */
  lemma KeptIsMaximal(atoms: seq<Atom>, budget: nat, i: nat)
    requires PinnedTokens(atoms) <= budget
    requires i < |atoms| && i !in Kept(atoms, budget)
    ensures !Feasible(atoms, Kept(atoms, budget) + {i}, budget)
  {
    KeptIsOptimal(atoms, budget);
    var more := Kept(atoms, budget) + {i};
    assert i in more && !Newer(Kept(atoms, budget), more);
  }

  // ---------------------------------------------------------------- budget and stability

  lemma {:induction false} PickTokens(lens: Lens, atoms: seq<Atom>, chosen: set<nat>, hi: nat)
    requires hi <= |atoms| && forall k :: 0 <= k < |atoms| ==> WellCut(lens, atoms[k])
    ensures SumTokens(lens, Pick(atoms, chosen, hi)) == Weight(atoms, chosen, hi)
  {
    if hi > 0 {
      PickTokens(lens, atoms, chosen, hi - 1);
      SumTokensSplit(lens, Pick(atoms, chosen, hi - 1), if hi - 1 in chosen then atoms[hi - 1].msgs else []);
    }
  }

  /** The prompt cost of a list of messages. */
  function Cost(lens: Lens, msgs: seq<Msg>): nat {
    SumTokens(lens, msgs) + OVERHEAD
  }

  /** There is room for the overhead, nothing is pinned and no atom fits by itself. */
  ghost predicate LastAtomFallback(lens: Lens, msgs: seq<Msg>, budget: int) {
    var atoms, b := Atoms(lens, msgs), Effective(budget);
    && msgs != [] && Pinned(atoms) == {} && OVERHEAD <= b
    && forall i :: 0 <= i < |atoms| ==> atoms[i].tokens + OVERHEAD > b
  }

  /** The window reaches its closing branch and has kept nothing. */
  ghost predicate KeepsNothing(lens: Lens, msgs: seq<Msg>, budget: int) {
    var atoms, b := Atoms(lens, msgs), Effective(budget);
    atoms != [] && TotalTokens(atoms) + OVERHEAD > b && PinnedTokens(atoms) <= b && Kept(atoms, b) == {}
  }

  /** The code sends the last atom regardless of the budget exactly then. */
  lemma FallbackIff(lens: Lens, msgs: seq<Msg>, budget: int)
    ensures KeepsNothing(lens, msgs, budget) <==> LastAtomFallback(lens, msgs, budget)
  {
    var atoms, b := Atoms(lens, msgs), Effective(budget);
    AtomsPartition(lens, msgs);
    assert atoms == [] <==> msgs == [];
    if atoms != [] {
      WeightNone(atoms, |atoms|);
      if KeepsNothing(lens, msgs, budget) {
        NothingFits(atoms, b);
      }
      if LastAtomFallback(lens, msgs, budget) {
        GreedyNone(atoms, |atoms|, b - OVERHEAD);
      }
    }
  }

  lemma {:induction false} GreedyNone(atoms: seq<Atom>, hi: nat, remaining: int)
    requires hi <= |atoms| && forall i :: 0 <= i < hi ==> atoms[i].tokens > remaining
    ensures Greedy(atoms, {}, hi, remaining) == {}
  {
    if hi > 0 {
      GreedyNone(atoms, hi - 1, remaining);
    }
  }

  /** The window errs exactly when the pinned atoms alone overrun the budget. */
  lemma WindowErrs(lens: Lens, msgs: seq<Msg>, budget: int)
    ensures WindowOf(lens, msgs, budget).Failure? <==>
            msgs != [] && PinnedTokens(Atoms(lens, msgs)) > Effective(budget)
  {
    var atoms := Atoms(lens, msgs);
    AtomsPartition(lens, msgs);
    PinnedBelowTotal(atoms, Pinned(atoms), |atoms|);
    assert atoms[..|atoms|] == atoms;
    assert atoms == [] <==> msgs == [];
  }

  lemma {:induction false} PinnedBelowTotal(atoms: seq<Atom>, chosen: set<nat>, hi: nat)
    requires hi <= |atoms|
    ensures Weight(atoms, chosen, hi) <= TotalTokens(atoms[..hi])
  {
    if hi > 0 {
      PinnedBelowTotal(atoms, chosen, hi - 1);
      assert atoms[..hi] == atoms[..hi - 1] + [atoms[hi - 1]];
      TotalSplit(atoms[..hi - 1], [atoms[hi - 1]]);
    }
  }

  lemma {:induction false} TotalSplit(a: seq<Atom>, b: seq<Atom>)
    ensures TotalTokens(a + b) == TotalTokens(a) + TotalTokens(b)
    decreases |a|
  {
    if a == [] {
      assert a + b == b;
    } else {
      assert (a + b)[1..] == a[1..] + b;
      TotalSplit(a[1..], b);
    }
  }

  /** A window that does not err fits the budget, exactly unless it is the fallback. */
  lemma WindowFits(lens: Lens, msgs: seq<Msg>, budget: int)
    requires msgs != [] && WindowOf(lens, msgs, budget).Success?
    ensures Cost(lens, WindowOf(lens, msgs, budget).value.msgs) <= Effective(budget)
            <==> !LastAtomFallback(lens, msgs, budget)
  {
    var atoms, b := Atoms(lens, msgs), Effective(budget);
    AtomsPartition(lens, msgs);
    FallbackIff(lens, msgs, budget);
    if Cost(lens, msgs) > b {
      WindowErrs(lens, msgs, budget);
      KeptIsOptimal(atoms, b);
      PickTokens(lens, atoms, Kept(atoms, b), |atoms|);
      if Kept(atoms, b) == {} {
        NothingFits(atoms, b);
      }
    }
  }

  lemma NothingFits(atoms: seq<Atom>, budget: nat)
    requires atoms != [] && PinnedTokens(atoms) <= budget && Kept(atoms, budget) == {}
    ensures forall i :: 0 <= i < |atoms| ==> atoms[i].tokens + OVERHEAD > budget
  {
    forall i: nat | i < |atoms| ensures atoms[i].tokens + OVERHEAD > budget {
      KeptIsMaximal(atoms, budget, i);
      WeightNone(atoms, |atoms|);
      WeightAdd(atoms, {}, i, |atoms|);
      assert Kept(atoms, budget) + {i} == {} + {i};
    }
  }

  lemma {:induction false} AnchorIsPinned(atoms: seq<Atom>, k: nat)
    requires k < |atoms| && atoms[k].kind == Anchor
    ensures exists j :: j in Pinned(atoms) && atoms[j].kind == Anchor
  {
    if j: nat :| j < k && atoms[j].kind == Anchor {
      AnchorIsPinned(atoms, j);
    } else {
      assert FirstAnchor(atoms, k) && k in Pinned(atoms);
    }
  }

  /** With nothing pinned, the last atom is a plain assistant message. */
  lemma UnpinnedLast(atoms: seq<Atom>)
    requires atoms != [] && forall i :: i !in Pinned(atoms)
    requires atoms[|atoms| - 1].kind == User ==> exists j :: 0 <= j < |atoms| && atoms[j].kind == Anchor
    ensures atoms[|atoms| - 1].kind == Assist
  {
    var k := |atoms| - 1;
    assert InTail(atoms, k) <==> atoms[k].kind == Tool;
    assert k !in Pinned(atoms);
    if j :| 0 <= j < |atoms| && atoms[j].kind == Anchor {
      AnchorIsPinned(atoms, j);
    }
  }

  lemma MarkedAlone(lens: Lens, msgs: seq<Msg>, k: nat)
    requires k < |Atoms(lens, msgs)| && Atoms(lens, msgs)[k].kind == Assist
    ensures var a := Atoms(lens, msgs)[k]; RawAtoms(lens, a.msgs, a.start) == [a]
  {
    var raw := RawAtoms(lens, msgs, 0);
    MarkKeeps(raw);
    assert Atoms(lens, msgs)[k].(kind := System) == raw[k].(kind := System);
    AtomAlone(lens, msgs, 0, 0, k);
  }

  /** The fallback atom is a plain assistant message, and the window of it is itself. */
  lemma FallbackAlone(lens: Lens, msgs: seq<Msg>, budget: nat)
    requires budget > 0 && LastAtomFallback(lens, msgs, budget)
    ensures var atoms := Atoms(lens, msgs); var last := atoms[|atoms| - 1];
            last.kind == Assist && WindowOf(lens, last.msgs, budget) == Success(Window(last.msgs, true))
  {
    var atoms := Atoms(lens, msgs);
    var k := |atoms| - 1;
    var last := atoms[k];
    if last.kind == User {
      MarkAnchored(RawAtoms(lens, msgs, 0), k);
    }
    UnpinnedLast(atoms);
    MarkedAlone(lens, msgs, k);
    assert WellCut(lens, last) by {
      AtomsPartition(lens, msgs);
    }
    AloneAgain(lens, last.msgs, last.start, budget);
  }

  /** One assistant message that does not fit is sent as it is. */
  lemma AloneAgain(lens: Lens, own: seq<Msg>, start: nat, budget: nat)
    requires budget >= OVERHEAD && Cost(lens, own) > budget
    requires |RawAtoms(lens, own, start)| == 1 && RawAtoms(lens, own, start)[0].kind == Assist
    ensures WindowOf(lens, own, budget) == Success(Window(own, true))
  {
    var atoms := Atoms(lens, own);
    AtomsPartition(lens, own);
    assert |atoms| == 1 && atoms[0].kind == Assist && atoms[0].msgs == own by {
      assert |own| > 0;
      var j := Extend(lens, own, 1);
      assert RawAtoms(lens, own, start) == [Cut(lens, own, 0, j, start)] + AtomsFrom(lens, own, j, start);
      assert RawAtoms(lens, own, 0) == [Cut(lens, own, 0, j, 0)] + AtomsFrom(lens, own, j, 0);
      assert j == |own|;
      assert own[0..j] == own;
    }
    assert !InTail(atoms, 0);
    assert Pinned(atoms) == {};
    WeightNone(atoms, 1);
    assert Greedy(atoms, {}, 1, budget - OVERHEAD) == {};
  }

  /** Windowing twice is windowing once: the second pass returns the same messages. */
  lemma WindowStable(lens: Lens, msgs: seq<Msg>, budget: int)
    requires WindowOf(lens, msgs, budget).Success?
    ensures var out := WindowOf(lens, msgs, budget).value.msgs;
            WindowOf(lens, out, budget).Success? && WindowOf(lens, out, budget).value.msgs == out
  {
    var out, b := WindowOf(lens, msgs, budget).value.msgs, Effective(budget);
    AtomsPartition(lens, msgs);
    if msgs != [] {
      WindowFits(lens, msgs, budget);
      FallbackIff(lens, msgs, budget);
      if LastAtomFallback(lens, msgs, budget) {
        FallbackAlone(lens, msgs, b);
      } else {
        FittingStays(lens, out, budget);
      }
    }
  }

  lemma FittingStays(lens: Lens, msgs: seq<Msg>, budget: int)
    requires Cost(lens, msgs) <= Effective(budget)
    ensures WindowOf(lens, msgs, budget) == Success(Window(msgs, false))
  {
    AtomsPartition(lens, msgs);
  }

  /** It happens: one long assistant message is sent over the budget. */
  lemma FallbackShows(env: Env, m: Msg, budget: nat)
    requires Classify(env, m) == AssistMsg && OVERHEAD <= budget < MessageTokens(env, m) + OVERHEAD
    ensures WindowOf(View(env), [m], budget) == Success(Window([m], true))
    ensures LastAtomFallback(View(env), [m], budget) && Cost(View(env), [m]) > budget
  {
    var lens := View(env);
    SumTokensOne(lens, m);
    assert RawAtoms(lens, [m], 0) == [Cut(lens, [m], 0, 1, 0)] by {
      assert Extend(lens, [m], 1) == 1 && AtomsFrom(lens, [m], 1, 0) == [];
    }
    assert [m][0..1] == [m];
    AloneAgain(lens, [m], 0, budget);
    assert KeepsNothing(lens, [m], budget) by {
      var atoms := Atoms(lens, [m]);
      assert !InTail(atoms, 0) && Pinned(atoms) == {};
      assert Greedy(atoms, {}, 1, budget - OVERHEAD) == {};
    }
    FallbackIff(lens, [m], budget);
  }
}
