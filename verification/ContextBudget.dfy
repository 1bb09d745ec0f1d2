/** Conversation atoms and the sliding window, internal/web/context_budget.go. */
module ContextBudget {
  import opened Messages

  datatype Kind = System | User | Tool | Assist | Anchor

  datatype Atom = Atom(kind: Kind, msgs: seq<Msg>, tokens: nat, start: nat, end: nat)

  // ---------------------------------------------------------------- atoms, as a function

  /** Two neighbouring messages that no atom boundary may separate: a system run, or a tool
      result behind the call it follows or behind another result. */
  predicate Glued(lens: Lens, a: Msg, b: Msg) {
    || (lens.cls(a) == SystemMsg && lens.cls(b) == SystemMsg)
    || ((lens.cls(a) == CallMsg || lens.cls(a) == ToolMsg) && lens.cls(b) == ToolMsg)
  }

  /** Message `k` belongs to the atom of the message before it. */
  predicate Joined(lens: Lens, msgs: seq<Msg>, k: nat) {
    0 < k < |msgs| && Glued(lens, msgs[k - 1], msgs[k])
  }

  /** The end of the glued run through position `k`. */
  function Extend(lens: Lens, msgs: seq<Msg>, k: nat): (n: nat)
    requires k <= |msgs|
    ensures k <= n <= |msgs|
    decreases |msgs| - k
  {
    if Joined(lens, msgs, k) then Extend(lens, msgs, k + 1) else k
  }

  function KindOf(c: Class): Kind {
    match c
    case SystemMsg => System
    case CallMsg => Tool
    case ToolMsg => Tool
    case UserMsg => User
    case AssistMsg => Assist
  }

  /** The messages [from, to) as one atom; indices are counted from `base`. */
  function Cut(lens: Lens, msgs: seq<Msg>, from: nat, to: nat, base: nat): Atom
    requires from < to <= |msgs|
  {
    Atom(KindOf(lens.cls(msgs[from])), msgs[from..to], SumTokens(lens, msgs[from..to]), base + from, base + to)
  }

  /** The atoms of msgs[i..]: its maximal glued runs. */
  function AtomsFrom(lens: Lens, msgs: seq<Msg>, i: nat, base: nat): seq<Atom>
    requires i <= |msgs|
    decreases |msgs| - i
  {
    if i == |msgs| then []
    else
      var j := Extend(lens, msgs, i + 1);
      [Cut(lens, msgs, i, j, base)] + AtomsFrom(lens, msgs, j, base)
  }

  /** The atoms of a conversation whose first message has index `base`. */
  function RawAtoms(lens: Lens, msgs: seq<Msg>, base: nat): seq<Atom> {
    AtomsFrom(lens, msgs, 0, base)
  }

  /** The first user atom becomes the anchor. */
  function Mark(atoms: seq<Atom>): (marked: seq<Atom>)
    ensures |marked| == |atoms|
    decreases |atoms|
  {
    if atoms == [] then []
    else if atoms[0].kind == User then [atoms[0].(kind := Anchor)] + atoms[1..]
    else [atoms[0]] + Mark(atoms[1..])
  }

  function Atoms(lens: Lens, msgs: seq<Msg>): seq<Atom> {
    Mark(RawAtoms(lens, msgs, 0))
  }

  // ---------------------------------------------------------------- the loop of the source

  /** The first atom is the only prefix that is glued inside and not glued to what follows. */
  lemma {:induction false} ExtendUnique(lens: Lens, msgs: seq<Msg>, k: nat, n: nat)
    requires 0 < k <= n <= |msgs|
    requires forall j :: k <= j < n ==> Joined(lens, msgs, j)
    requires !Joined(lens, msgs, n)
    ensures Extend(lens, msgs, k) == n
    decreases n - k
  {
    if k < n {
      ExtendUnique(lens, msgs, k + 1, n);
    }
  }

  lemma {:induction false} ExtendLocal(lens: Lens, msgs: seq<Msg>, k: nat)
    requires 0 < k <= |msgs|
    ensures var n := Extend(lens, msgs, k);
            && !Joined(lens, msgs, n)
            && forall j :: k <= j < n ==> Joined(lens, msgs, j)
    decreases |msgs| - k
  {
    if Joined(lens, msgs, k) {
      ExtendLocal(lens, msgs, k + 1);
    }
  }

  lemma SumTokensNext(lens: Lens, msgs: seq<Msg>, from: nat, i: nat)
    requires from <= i < |msgs|
    ensures msgs[from..i + 1] == msgs[from..i] + [msgs[i]]
    ensures SumTokens(lens, msgs[from..i] + [msgs[i]]) == SumTokens(lens, msgs[from..i]) + lens.cost(msgs[i])
  {
    SumTokensSplit(lens, msgs[from..i], [msgs[i]]);
    SumTokensOne(lens, msgs[i]);
  }

  /** The inner loops: collect the run of class `c` that starts at `from`. */
  method CollectRun(env: Env, messages: seq<Msg>, from: nat, c: Class) returns (msgs: seq<Msg>, total: nat, i: nat)
    requires from <= |messages|
    ensures from <= i <= |messages|
    ensures forall j :: from <= j < i ==> Classify(env, messages[j]) == c
    ensures i < |messages| ==> Classify(env, messages[i]) != c
    ensures msgs == messages[from..i] && total == SumTokens(View(env), msgs)
  {
    msgs, total, i := [], 0, from;
    while i < |messages| && Classify(env, messages[i]) == c
      invariant from <= i <= |messages|
      invariant forall j :: from <= j < i ==> Classify(env, messages[j]) == c
      invariant msgs == messages[from..i] && total == SumTokens(View(env), msgs)
    {
      var tokens := EstimateMessageTokens(env, messages[i]);
      SumTokensNext(View(env), messages, from, i);
      msgs := msgs + [messages[i]];
      total := total + tokens;
      i := i + 1;
    }
  }

  lemma MarkAt(atoms: seq<Atom>, k: nat)
    requires k < |atoms| && atoms[k].kind == User
    requires forall j :: 0 <= j < k ==> atoms[j].kind != User
    ensures Mark(atoms) == atoms[k := atoms[k].(kind := Anchor)]
    decreases k
  {
    if k > 0 {
      MarkAt(atoms[1..], k - 1);
      assert atoms[k := atoms[k].(kind := Anchor)] == [atoms[0]] + atoms[1..][k - 1 := atoms[k].(kind := Anchor)];
    } else {
      assert atoms[0 := atoms[0].(kind := Anchor)] == [atoms[0].(kind := Anchor)] + atoms[1..];
    }
  }

  lemma MarkNone(atoms: seq<Atom>)
    requires forall j :: 0 <= j < |atoms| ==> atoms[j].kind != User
    ensures Mark(atoms) == atoms
    decreases |atoms|
  {
    if atoms != [] {
      MarkNone(atoms[1..]);
    }
  }

  /** The case split of the source finds the glued run: a system run, a call with its results,
      a run of results, or one message. */
  lemma RunIsExtend(lens: Lens, msgs: seq<Msg>, from: nat, to: nat)
    requires from < to <= |msgs|
    requires var c := lens.cls(msgs[from]);
             var follow := if c == CallMsg then ToolMsg else c;
             if c == UserMsg || c == AssistMsg then to == from + 1
             else
               && (forall j :: from < j < to ==> lens.cls(msgs[j]) == follow)
               && (to < |msgs| ==> lens.cls(msgs[to]) != follow)
    ensures Extend(lens, msgs, from + 1) == to
  {
    assert forall j :: from < j < to ==> Joined(lens, msgs, j);
    ExtendUnique(lens, msgs, from + 1, to);
  }

  /** One turn of the outer loop of `buildAtomsWithCounter`. */
  method NextAtom(env: Env, messages: seq<Msg>, from: nat) returns (atom: Atom, i: nat)
    requires from < |messages|
    ensures i == Extend(View(env), messages, from + 1)
    ensures atom == Cut(View(env), messages, from, i, 0)
  {
    var m := messages[from];
    var c := Classify(env, m);
    var msgs, total := [m], 0;
    if c == SystemMsg || c == ToolMsg {
      msgs, total, i := CollectRun(env, messages, from, c);
    } else if c == CallMsg {
      var own := EstimateMessageTokens(env, m);
      msgs, total, i := CollectRun(env, messages, from + 1, ToolMsg);
      total := own + total;
      SumTokensSplit(View(env), [m], msgs);
      assert [m] + messages[from + 1..i] == messages[from..i];
      msgs := [m] + msgs;
    } else {
      total := EstimateMessageTokens(env, m);
      i := from + 1;
      assert [m] == messages[from..i];
    }
    atom := Atom(KindOf(c), msgs, total, from, i);
    RunIsExtend(View(env), messages, from, i);
    SumTokensOne(View(env), m);
  }

  lemma SumTokensOne(lens: Lens, m: Msg)
    ensures SumTokens(lens, [m]) == lens.cost(m)
  {
  }

  /** `buildAtomsWithCounter`. */
  method BuildAtoms(env: Env, messages: seq<Msg>) returns (atoms: seq<Atom>)
    ensures atoms == Atoms(View(env), messages)
  {
    atoms := [];
    var i := 0;
    while i < |messages|
      invariant 0 <= i <= |messages|
      invariant RawAtoms(View(env), messages, 0) == atoms + AtomsFrom(View(env), messages, i, 0)
    {
      var atom, j := NextAtom(env, messages, i);
      atoms := atoms + [atom];
      i := j;
    }
    assert atoms + [] == atoms;
    atoms := MarkAnchor(atoms);
  }

  /** The closing loop of `buildAtomsWithCounter`. */
  method MarkAnchor(raw: seq<Atom>) returns (atoms: seq<Atom>)
    ensures atoms == Mark(raw)
  {
    atoms := raw;
    for idx := 0 to |raw|
      invariant atoms == raw
      invariant forall j :: 0 <= j < idx ==> raw[j].kind != User
    {
      if raw[idx].kind == User {
        atoms := atoms[idx := raw[idx].(kind := Anchor)];
        MarkAt(raw, idx);
        return;
      }
    }
    MarkNone(raw);
  }

  // ---------------------------------------------------------------- what atoms are

  /** Extend sees only neighbours, so it is the same in any longer conversation that does not
      glue something to the end of `a`. */
  lemma {:induction false} ExtendInFront(lens: Lens, a: seq<Msg>, b: seq<Msg>, k: nat)
    requires 0 < k <= |a| && !Joined(lens, a + b, |a|)
    ensures Extend(lens, a + b, k) == Extend(lens, a, k)
    decreases |a| - k
  {
    if k < |a| {
      assert (a + b)[k - 1] == a[k - 1] && (a + b)[k] == a[k];
      if Joined(lens, a, k) {
        ExtendInFront(lens, a, b, k + 1);
      }
    }
  }

  lemma {:induction false} ExtendBehind(lens: Lens, a: seq<Msg>, b: seq<Msg>, k: nat)
    requires 0 < k <= |b|
    ensures Extend(lens, a + b, |a| + k) == |a| + Extend(lens, b, k)
    decreases |b| - k
  {
    if k < |b| {
      assert (a + b)[|a| + k - 1] == b[k - 1] && (a + b)[|a| + k] == b[k];
      if Joined(lens, b, k) {
        ExtendBehind(lens, a, b, k + 1);
      }
    }
  }

  lemma CutBehind(lens: Lens, a: seq<Msg>, b: seq<Msg>, k: nat, j: nat, base: nat)
    requires k < j <= |b|
    ensures Cut(lens, a + b, |a| + k, |a| + j, base) == Cut(lens, b, k, j, base + |a|)
  {
    assert (a + b)[|a| + k..|a| + j] == b[k..j];
    assert (a + b)[|a| + k] == b[k];
  }

  lemma {:induction false} AtomsBehind(lens: Lens, a: seq<Msg>, b: seq<Msg>, k: nat, base: nat)
    requires k <= |b|
    ensures AtomsFrom(lens, a + b, |a| + k, base) == AtomsFrom(lens, b, k, base + |a|)
    decreases |b| - k
  {
    if k < |b| {
      var j := Extend(lens, b, k + 1);
      ExtendBehind(lens, a, b, k + 1);
      CutBehind(lens, a, b, k, j, base);
      AtomsBehind(lens, a, b, j, base);
    }
  }

  lemma CutInFront(lens: Lens, a: seq<Msg>, b: seq<Msg>, i: nat, j: nat, base: nat)
    requires i < j <= |a|
    ensures Cut(lens, a + b, i, j, base) == Cut(lens, a, i, j, base)
  {
    assert (a + b)[i..j] == a[i..j];
  }

  lemma {:induction false} AtomsInFront(lens: Lens, a: seq<Msg>, b: seq<Msg>, i: nat, base: nat)
    requires i <= |a| && !Joined(lens, a + b, |a|)
    ensures AtomsFrom(lens, a + b, i, base) == AtomsFrom(lens, a, i, base) + AtomsFrom(lens, a + b, |a|, base)
    decreases |a| - i
  {
    if i < |a| {
      var j := Extend(lens, a, i + 1);
      ExtendInFront(lens, a, b, i + 1);
      CutInFront(lens, a, b, i, j, base);
      AtomsInFront(lens, a, b, j, base);
    }
  }

  /** Cutting a conversation at a boundary cuts its atoms in two and changes none. */
  lemma AtomsSplit(lens: Lens, a: seq<Msg>, b: seq<Msg>, base: nat)
    requires !Joined(lens, a + b, |a|)
    ensures RawAtoms(lens, a + b, base) == RawAtoms(lens, a, base) + RawAtoms(lens, b, base + |a|)
  {
    AtomsInFront(lens, a, b, 0, base);
    AtomsBehind(lens, a, b, 0, base);
  }

  lemma {:induction false} EndsAfter(lens: Lens, msgs: seq<Msg>, i: nat, base: nat)
    requires i <= |msgs|
    ensures forall a :: a in AtomsFrom(lens, msgs, i, base) ==> a.end > base + i
    decreases |msgs| - i
  {
    if i < |msgs| {
      EndsAfter(lens, msgs, Extend(lens, msgs, i + 1), base);
    }
  }

  /** `n` ends an atom exactly where its two neighbours are not glued. */
  lemma {:induction false} BoundaryIsAtomEnd(lens: Lens, msgs: seq<Msg>, i: nat, n: nat, base: nat)
    requires i < n <= |msgs|
    ensures !Joined(lens, msgs, n) <==> exists a :: a in AtomsFrom(lens, msgs, i, base) && a.end == base + n
    decreases |msgs| - i
  {
    var j := Extend(lens, msgs, i + 1);
    var atoms, tail := AtomsFrom(lens, msgs, i, base), AtomsFrom(lens, msgs, j, base);
    ExtendLocal(lens, msgs, i + 1);
    EndsAfter(lens, msgs, j, base);
    assert atoms[0].end == base + j && atoms[0] in atoms;
    if n > j {
      BoundaryIsAtomEnd(lens, msgs, j, n, base);
      if !Joined(lens, msgs, n) {
        var a :| a in tail && a.end == base + n;
        assert a in atoms;
      }
    }
  }

  function Flatten(atoms: seq<Atom>): seq<Msg> {
    if atoms == [] then [] else atoms[0].msgs + Flatten(atoms[1..])
  }

  function TotalTokens(atoms: seq<Atom>): nat {
    if atoms == [] then 0 else atoms[0].tokens + TotalTokens(atoms[1..])
  }

  /** Atoms are a contiguous partition of the input, and their tokens add up. */
  ghost predicate Partition(lens: Lens, atoms: seq<Atom>, msgs: seq<Msg>, base: nat) {
    && Flatten(atoms) == msgs
    && TotalTokens(atoms) == SumTokens(lens, msgs)
    && (forall k :: 0 <= k < |atoms| ==> WellCut(lens, atoms[k]))
    && (forall k :: 0 <= k < |atoms| - 1 ==> atoms[k].end == atoms[k + 1].start)
    && (atoms != [] ==> atoms[0].start == base && atoms[|atoms| - 1].end == base + |msgs|)
  }

  ghost predicate WellCut(lens: Lens, a: Atom) {
    a.msgs != [] && a.tokens == SumTokens(lens, a.msgs) && a.end == a.start + |a.msgs|
  }

  lemma {:induction false} AtomsFromPartition(lens: Lens, msgs: seq<Msg>, i: nat, base: nat)
    requires i <= |msgs|
    ensures Partition(lens, AtomsFrom(lens, msgs, i, base), msgs[i..], base + i)
    decreases |msgs| - i
  {
    if i < |msgs| {
      var j := Extend(lens, msgs, i + 1);
      var atoms, tail := AtomsFrom(lens, msgs, i, base), AtomsFrom(lens, msgs, j, base);
      AtomsFromPartition(lens, msgs, j, base);
      assert msgs[i..] == msgs[i..j] + msgs[j..];
      SumTokensSplit(lens, msgs[i..j], msgs[j..]);
      assert atoms[1..] == tail && WellCut(lens, atoms[0]);
      forall k | 0 <= k < |atoms|
        ensures WellCut(lens, atoms[k]) && (k < |atoms| - 1 ==> atoms[k].end == atoms[k + 1].start)
      {
        assert k > 0 ==> atoms[k] == tail[k - 1];
      }
    }
  }

  lemma {:induction false} MarkKeeps(atoms: seq<Atom>)
    ensures Flatten(Mark(atoms)) == Flatten(atoms) && TotalTokens(Mark(atoms)) == TotalTokens(atoms)
    ensures forall k :: 0 <= k < |atoms| ==>
              && Mark(atoms)[k].(kind := System) == atoms[k].(kind := System)
              && (Mark(atoms)[k].kind == atoms[k].kind || (atoms[k].kind == User && Mark(atoms)[k].kind == Anchor))
    decreases |atoms|
  {
    if atoms != [] {
      MarkKeeps(atoms[1..]);
      assert Mark(atoms)[1..] == if atoms[0].kind == User then atoms[1..] else Mark(atoms[1..]);
    }
  }

  lemma AtomsPartition(lens: Lens, msgs: seq<Msg>)
    ensures Partition(lens, Atoms(lens, msgs), msgs, 0)
  {
    var raw, marked := RawAtoms(lens, msgs, 0), Atoms(lens, msgs);
    AtomsFromPartition(lens, msgs, 0, 0);
    assert msgs[0..] == msgs;
    MarkKeeps(raw);
    forall k | 0 <= k < |raw|
      ensures marked[k].msgs == raw[k].msgs && marked[k].tokens == raw[k].tokens
      ensures marked[k].start == raw[k].start && marked[k].end == raw[k].end
    {
      assert marked[k].(kind := System) == raw[k].(kind := System);
    }
  }

  /** An atom on its own is atomised to itself. */
  lemma {:induction false} AtomAlone(lens: Lens, msgs: seq<Msg>, i: nat, base: nat, k: nat)
    requires i <= |msgs| && k < |AtomsFrom(lens, msgs, i, base)|
    ensures var a := AtomsFrom(lens, msgs, i, base)[k];
            a.msgs != [] && RawAtoms(lens, a.msgs, a.start) == [a]
    decreases |msgs| - i
  {
    var j := Extend(lens, msgs, i + 1);
    if k == 0 {
      var own := msgs[i..j];
      ExtendLocal(lens, msgs, i + 1);
      forall x | 0 < x < |own| ensures Joined(lens, own, x) {
        assert own[x - 1] == msgs[i + x - 1] && own[x] == msgs[i + x];
        assert Joined(lens, msgs, i + x);
      }
      ExtendUnique(lens, own, 1, |own|);
      assert own[0..|own|] == own;
      var a := Cut(lens, msgs, i, j, base);
      assert Cut(lens, own, 0, |own|, base + i) == a;
      assert RawAtoms(lens, own, base + i) == [a] + AtomsFrom(lens, own, |own|, base + i);
    } else {
      AtomAlone(lens, msgs, j, base, k - 1);
    }
  }

  /** A user atom that was not marked leaves an anchor before it. */
  lemma {:induction false} MarkAnchored(atoms: seq<Atom>, k: nat)
    requires k < |atoms| && Mark(atoms)[k].kind == User
    ensures exists j :: 0 <= j < k && Mark(atoms)[j].kind == Anchor
    decreases |atoms|
  {
    if atoms[0].kind == User {
      assert Mark(atoms)[0].kind == Anchor;
    } else {
      MarkAnchored(atoms[1..], k - 1);
      var j :| 0 <= j < k - 1 && Mark(atoms[1..])[j].kind == Anchor;
      assert Mark(atoms)[j + 1].kind == Anchor;
    }
  }
}
