/** Atomising the output of a choice of atoms again, as every later stage of a request does:
    nothing changes but that neighbouring system runs grow together. */
module Reatomise {
  import opened Messages
  import opened ContextBudget
  import opened SlidingWindow
  import opened ConversationSafety

  function Groups(atoms: seq<Atom>): seq<seq<Msg>> {
    seq(|atoms|, k requires 0 <= k < |atoms| => atoms[k].msgs)
  }

  function ChosenGroups(atoms: seq<Atom>, chosen: set<nat>, hi: nat): seq<seq<Msg>>
    requires hi <= |atoms|
  {
    if hi == 0 then []
    else ChosenGroups(atoms, chosen, hi - 1) + (if hi - 1 in chosen then [atoms[hi - 1].msgs] else [])
  }

  predicate EndsSystem(lens: Lens, g: seq<Msg>) {
    g != [] && lens.cls(g[|g| - 1]) == SystemMsg
  }

  predicate StartsSystem(lens: Lens, g: seq<Msg>) {
    g != [] && lens.cls(g[0]) == SystemMsg
  }

  function AppendGroup(lens: Lens, gs: seq<seq<Msg>>, g: seq<Msg>): seq<seq<Msg>> {
    if gs != [] && EndsSystem(lens, gs[|gs| - 1]) && StartsSystem(lens, g)
    then gs[..|gs| - 1] + [gs[|gs| - 1] + g]
    else gs + [g]
  }

  /** Joins neighbouring system groups and leaves the others as they are. */
  function MergeSystem(lens: Lens, gs: seq<seq<Msg>>): seq<seq<Msg>> {
    if gs == [] then [] else AppendGroup(lens, MergeSystem(lens, gs[..|gs| - 1]), gs[|gs| - 1])
  }

  /** The last atom, seen from the front. */
  lemma {:induction false} LastCut(lens: Lens, msgs: seq<Msg>, i: nat) returns (p: nat)
    requires i < |msgs| && !Joined(lens, msgs, i)
    ensures i <= p < |msgs| && !Joined(lens, msgs, p)
    ensures forall j :: p < j < |msgs| ==> Joined(lens, msgs, j)
    ensures var atoms := AtomsFrom(lens, msgs, i, 0); atoms != [] && atoms[|atoms| - 1] == Cut(lens, msgs, p, |msgs|, 0)
    decreases |msgs| - i
  {
    var j := Extend(lens, msgs, i + 1);
    ExtendLocal(lens, msgs, i + 1);
    if j == |msgs| {
      p := i;
      assert AtomsFrom(lens, msgs, i, 0) == [Cut(lens, msgs, i, j, 0)];
    } else {
      p := LastCut(lens, msgs, j);
    }
  }

  lemma OneGroup(lens: Lens, g: seq<Msg>, base: nat)
    requires g != [] && forall j :: 0 < j < |g| ==> Joined(lens, g, j)
    ensures Groups(RawAtoms(lens, g, base)) == [g]
  {
    ExtendUnique(lens, g, 1, |g|);
    assert g[0..|g|] == g;
    assert RawAtoms(lens, g, base) == [Cut(lens, g, 0, |g|, base)] + AtomsFrom(lens, g, |g|, base);
  }

  lemma GroupsJoin(a: seq<Atom>, b: seq<Atom>)
    ensures Groups(a + b) == Groups(a) + Groups(b)
  {
  }

  lemma {:induction false} GroupsAnyBase(lens: Lens, msgs: seq<Msg>, i: nat, base: nat)
    requires i <= |msgs|
    ensures Groups(AtomsFrom(lens, msgs, i, base)) == Groups(AtomsFrom(lens, msgs, i, 0))
    decreases |msgs| - i
  {
    if i < |msgs| {
      var j := Extend(lens, msgs, i + 1);
      GroupsAnyBase(lens, msgs, j, base);
      GroupsJoin([Cut(lens, msgs, i, j, base)], AtomsFrom(lens, msgs, j, base));
      GroupsJoin([Cut(lens, msgs, i, j, 0)], AtomsFrom(lens, msgs, j, 0));
    }
  }

  /** A cut conversation has the groups of its halves. */
  lemma GroupsSplit(lens: Lens, a: seq<Msg>, b: seq<Msg>)
    requires !Joined(lens, a + b, |a|)
    ensures Groups(RawAtoms(lens, a + b, 0)) == Groups(RawAtoms(lens, a, 0)) + Groups(RawAtoms(lens, b, 0))
  {
    AtomsSplit(lens, a, b, 0);
    GroupsJoin(RawAtoms(lens, a, 0), RawAtoms(lens, b, |a|));
    GroupsAnyBase(lens, b, 0, |a|);
  }

  lemma AddGroupApart(lens: Lens, a: seq<Msg>, g: seq<Msg>)
    requires g != [] && forall j :: 0 < j < |g| ==> Joined(lens, g, j)
    requires !Joined(lens, a + g, |a|)
    ensures Groups(RawAtoms(lens, a + g, 0)) == Groups(RawAtoms(lens, a, 0)) + [g]
  {
    GroupsSplit(lens, a, g);
    OneGroup(lens, g, 0);
  }

  lemma AddGroupGlued(lens: Lens, a: seq<Msg>, g: seq<Msg>)
    requires a != [] && g != [] && forall j :: 0 < j < |g| ==> Joined(lens, g, j)
    requires Joined(lens, a + g, |a|)
    ensures var gs := Groups(RawAtoms(lens, a, 0));
            gs != [] && gs[|gs| - 1] != [] && gs[|gs| - 1][|gs[|gs| - 1]| - 1] == a[|a| - 1]
            && Groups(RawAtoms(lens, a + g, 0)) == gs[..|gs| - 1] + [gs[|gs| - 1] + g]
  {
    var front, last := LastRun(lens, a);
    assert a + g == front + (last + g);
    assert (last + g)[0] == last[0];
    GroupsSplit(lens, front, last + g);
    GluedRunsJoin(lens, last, g);
    OneGroup(lens, last + g, 0);
    var fs := Groups(RawAtoms(lens, front, 0));
    assert (fs + [last])[..|fs|] == fs;
  }

  /** The last atom and what stands before it. */
  lemma LastRun(lens: Lens, a: seq<Msg>) returns (front: seq<Msg>, last: seq<Msg>)
    requires a != []
    ensures a == front + last && last != [] && last[|last| - 1] == a[|a| - 1]
    ensures forall j :: 0 < j < |last| ==> Joined(lens, last, j)
    ensures front != [] ==> !Glued(lens, front[|front| - 1], last[0])
    ensures Groups(RawAtoms(lens, a, 0)) == Groups(RawAtoms(lens, front, 0)) + [last]
  {
    var p := LastCut(lens, a, 0);
    front, last := a[..p], a[p..];
    forall j | 0 < j < |last| ensures Joined(lens, last, j) {
      assert last[j - 1] == a[p + j - 1] && last[j] == a[p + j];
      assert Joined(lens, a, p + j);
    }
    assert a == front + last;
    GroupsSplit(lens, front, last);
    OneGroup(lens, last, 0);
  }

  lemma GluedRunsJoin(lens: Lens, a: seq<Msg>, b: seq<Msg>)
    requires a != [] && b != [] && Glued(lens, a[|a| - 1], b[0])
    requires forall j :: 0 < j < |a| ==> Joined(lens, a, j)
    requires forall j :: 0 < j < |b| ==> Joined(lens, b, j)
    ensures forall j :: 0 < j < |a + b| ==> Joined(lens, a + b, j)
  {
    var ab := a + b;
    forall j | 0 < j < |ab| ensures Joined(lens, ab, j) {
      if j < |a| {
        assert Joined(lens, a, j);
      } else if j > |a| {
        assert Joined(lens, b, j - |a|);
        assert ab[j - 1] == b[j - |a| - 1] && ab[j] == b[j - |a|];
      }
    }
  }

  lemma AddGroup(lens: Lens, a: seq<Msg>, g: seq<Msg>)
    requires g != [] && lens.cls(g[0]) != ToolMsg && forall j :: 0 < j < |g| ==> Joined(lens, g, j)
    ensures Groups(RawAtoms(lens, a + g, 0)) == AppendGroup(lens, Groups(RawAtoms(lens, a, 0)), g)
  {
    assert Joined(lens, a + g, |a|) <==> a != [] && lens.cls(a[|a| - 1]) == SystemMsg && lens.cls(g[0]) == SystemMsg;
    if Joined(lens, a + g, |a|) {
      AddGroupGlued(lens, a, g);
    } else {
      AddGroupApart(lens, a, g);
      if a != [] {
        var front, last := LastRun(lens, a);
        assert EndsSystem(lens, last) <==> lens.cls(a[|a| - 1]) == SystemMsg;
      }
    }
  }

  ghost predicate GluedAtom(lens: Lens, a: Atom) {
    a.msgs != [] && lens.cls(a.msgs[0]) != ToolMsg && forall j :: 0 < j < |a.msgs| ==> Joined(lens, a.msgs, j)
  }

  lemma {:induction false} AtomsAreGlued(lens: Lens, msgs: seq<Msg>, i: nat)
    requires ResultsInRuns(lens, msgs) && i <= |msgs| && !Joined(lens, msgs, i)
    ensures forall k :: 0 <= k < |AtomsFrom(lens, msgs, i, 0)| ==> GluedAtom(lens, AtomsFrom(lens, msgs, i, 0)[k])
    decreases |msgs| - i
  {
    if i < |msgs| {
      var j := Extend(lens, msgs, i + 1);
      ExtendLocal(lens, msgs, i + 1);
      AtomsAreGlued(lens, msgs, j);
      var own := msgs[i..j];
      forall x | 0 < x < |own| ensures Joined(lens, own, x) {
        assert own[x - 1] == msgs[i + x - 1] && own[x] == msgs[i + x];
        assert Joined(lens, msgs, i + x);
      }
      assert GluedAtom(lens, Cut(lens, msgs, i, j, 0));
    }
  }

  lemma {:induction false} ChosenRegroup(lens: Lens, atoms: seq<Atom>, chosen: set<nat>, hi: nat)
    requires hi <= |atoms| && forall k :: 0 <= k < |atoms| ==> GluedAtom(lens, atoms[k])
    ensures Groups(RawAtoms(lens, Pick(atoms, chosen, hi), 0)) == MergeSystem(lens, ChosenGroups(atoms, chosen, hi))
  {
    if hi > 0 {
      ChosenRegroup(lens, atoms, chosen, hi - 1);
      var before, gs := Pick(atoms, chosen, hi - 1), ChosenGroups(atoms, chosen, hi - 1);
      if hi - 1 in chosen {
        AddGroup(lens, before, atoms[hi - 1].msgs);
        assert ChosenGroups(atoms, chosen, hi)[..|gs|] == gs;
      } else {
        assert before + [] == before && gs + [] == gs;
      }
    }
  }

  /** Atomising a choice of atoms finds exactly those atoms again, up to merged system runs. */
  lemma ReatomiseChoice(lens: Lens, msgs: seq<Msg>, chosen: set<nat>)
    requires ResultsInRuns(lens, msgs)
    ensures var atoms := RawAtoms(lens, msgs, 0);
            Groups(RawAtoms(lens, Pick(atoms, chosen, |atoms|), 0))
            == MergeSystem(lens, ChosenGroups(atoms, chosen, |atoms|))
  {
    AtomsAreGlued(lens, msgs, 0);
    ChosenRegroup(lens, RawAtoms(lens, msgs, 0), chosen, |RawAtoms(lens, msgs, 0)|);
  }
}
