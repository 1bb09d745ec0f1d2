/** Where a cached conversation may be resumed and how stored history is cut:
    `contextPrefixLen` and `cloneMessages` of internal/web/session_resolver.go, and the order
    in which `openaiChat` of internal/web/server.go uses them. */
module SessionContext {
  import opened Basics
  import opened Messages
  import opened ToolState
  import opened ContextBudget
  import opened SlidingWindow
  import opened ConversationSafety

  // ---------------------------------------------------------------- prefix match

  ghost predicate SamePrefix(env: Env, hist: seq<Msg>, msgs: seq<Msg>) {
    |hist| <= |msgs| && forall i :: 0 <= i < |hist| ==> SameMessage(env, hist[i], msgs[i])
  }

  /** The history is a non-empty prefix that ends on an atom boundary. */
  ghost predicate Resumable(env: Env, hist: seq<Msg>, msgs: seq<Msg>) {
    hist != [] && SamePrefix(env, hist, msgs) && !Joined(View(env), msgs, |hist|)
  }

  lemma {:induction false} EndsIncrease(lens: Lens, msgs: seq<Msg>, i: nat, j: nat, k: nat)
    requires i <= |msgs| && j < k < |AtomsFrom(lens, msgs, i, 0)|
    ensures AtomsFrom(lens, msgs, i, 0)[j].end < AtomsFrom(lens, msgs, i, 0)[k].end
    decreases |msgs| - i
  {
    var next := Extend(lens, msgs, i + 1);
    var tail := AtomsFrom(lens, msgs, next, 0);
    if j == 0 {
      EndsAfter(lens, msgs, next, 0);
      assert tail[k - 1] in tail;
    } else {
      EndsIncrease(lens, msgs, next, j - 1, k - 1);
    }
  }

  lemma NoEndBehind(lens: Lens, msgs: seq<Msg>, k: nat, n: nat)
    requires var raw := RawAtoms(lens, msgs, 0); k < |raw| && raw[k].end > n
    ensures var raw := RawAtoms(lens, msgs, 0); forall j :: k <= j < |raw| ==> raw[j].end != n
  {
    var raw := RawAtoms(lens, msgs, 0);
    forall j | k < j < |raw| ensures raw[j].end != n {
      EndsIncrease(lens, msgs, 0, k, j);
    }
  }

  lemma MarkedEnds(lens: Lens, msgs: seq<Msg>, k: nat)
    requires k < |Atoms(lens, msgs)|
    ensures Atoms(lens, msgs)[k].start == RawAtoms(lens, msgs, 0)[k].start
    ensures Atoms(lens, msgs)[k].end == RawAtoms(lens, msgs, 0)[k].end
  {
    var raw := RawAtoms(lens, msgs, 0);
    MarkKeeps(raw);
    assert Mark(raw)[k].(kind := System) == raw[k].(kind := System);
  }

  /** The search of `contextPrefixLen` for an atom that ends at `n`. */
  method IsBoundary(env: Env, msgs: seq<Msg>, n: nat) returns (boundary: bool)
    requires 0 < n <= |msgs|
    ensures boundary <==> !Joined(View(env), msgs, n)
  {
    var atoms := BuildAtoms(env, msgs);
    ghost var lens := View(env);
    for k := 0 to |atoms|
      invariant forall j :: 0 <= j < k ==> RawAtoms(lens, msgs, 0)[j].end != n
    {
      MarkedEnds(lens, msgs, k);
      if atoms[k].end == n {
        EndFound(lens, msgs, k, n);
        return true;
      }
      if atoms[k].end > n {
        NoEndBehind(lens, msgs, k, n);
        EndMissing(lens, msgs, n);
        return false;
      }
    }
    EndMissing(lens, msgs, n);
    return false;
  }

  lemma EndFound(lens: Lens, msgs: seq<Msg>, k: nat, n: nat)
    requires 0 < n <= |msgs| && k < |RawAtoms(lens, msgs, 0)| && RawAtoms(lens, msgs, 0)[k].end == n
    ensures !Joined(lens, msgs, n)
  {
    BoundaryIsAtomEnd(lens, msgs, 0, n, 0);
    assert RawAtoms(lens, msgs, 0)[k] in RawAtoms(lens, msgs, 0);
  }

  lemma EndMissing(lens: Lens, msgs: seq<Msg>, n: nat)
    requires 0 < n <= |msgs| && forall j :: 0 <= j < |RawAtoms(lens, msgs, 0)| ==> RawAtoms(lens, msgs, 0)[j].end != n
    ensures n < |msgs| && Joined(lens, msgs, n)
  {
    BoundaryIsAtomEnd(lens, msgs, 0, n, 0);
    var raw := RawAtoms(lens, msgs, 0);
    forall a | a in raw ensures a.end != n {
      var j :| 0 <= j < |raw| && raw[j] == a;
    }
  }

  /** `contextPrefixLen`: the history length exactly when it can be resumed, else 0. */
  method ContextPrefixLen(env: Env, hist: seq<Msg>, msgs: seq<Msg>) returns (n: nat)
    ensures n == if Resumable(env, hist, msgs) then |hist| else 0
  {
    if |hist| == 0 || |msgs| < |hist| {
      return 0;
    }
    for i := 0 to |hist|
      invariant forall k :: 0 <= k < i ==> SameMessage(env, hist[k], msgs[k])
    {
      var same := MessagesEqual(env, hist[i], msgs[i]);
      if !same {
        return 0;
      }
    }
    var boundary := IsBoundary(env, msgs, |hist|);
    if !boundary {
      return 0;
    }
    return |hist|;
  }

  /** Resumption is atom-safe: the atoms of the whole are the atoms of the two parts, and what
      is sent on top of the cached conversation passes the checker by itself. */
  lemma ResumeIsSafe(env: Env, hist: seq<Msg>, msgs: seq<Msg>)
    requires Sound(env) && Resumable(env, hist, msgs)
    ensures var n := |hist|;
            && RawAtoms(View(env), msgs, 0) == RawAtoms(View(env), msgs[..n], 0) + RawAtoms(View(env), msgs[n..], n)
            && (Tidy(View(env), msgs) && Accepts(msgs) && n < |msgs| ==> Accepts(msgs[n..]))
  {
    var n, lens := |hist|, View(env);
    assert msgs == msgs[..n] + msgs[n..];
    AtomsSplit(lens, msgs[..n], msgs[n..], 0);
    SoundIsFaithful(env);
    if Tidy(lens, msgs) && Accepts(msgs) && n < |msgs| {
      SuffixAccepted(lens, msgs, n);
    }
  }

  /** The cached history has the same atom boundaries as the prefix it stands for, although
      ids and content encodings may differ. */
  lemma SameBoundaries(env: Env, hist: seq<Msg>, msgs: seq<Msg>, k: nat)
    requires SamePrefix(env, hist, msgs) && k < |hist|
    ensures Joined(View(env), hist, k) <==> Joined(View(env), msgs, k)
  {
    if k > 0 {
      SameMessageSameClass(env, hist[k - 1], msgs[k - 1]);
      SameMessageSameClass(env, hist[k], msgs[k]);
    }
  }

  // ---------------------------------------------------------------- stored history

  const HISTORY_LIMIT: nat := 512

  /** `start` is where the stored suffix begins: the longest run of whole atoms that fits. */
  ghost predicate LongestWholeSuffix(lens: Lens, msgs: seq<Msg>, start: nat) {
    && start < |msgs| && !Joined(lens, msgs, start)
    && (forall s :: 0 <= s < start && !Joined(lens, msgs, s) ==> |msgs| - s > 512)
    && (|msgs| - start > 512 ==> forall s :: start < s < |msgs| ==> Joined(lens, msgs, s))
  }

  lemma {:induction false} AtomStarts(lens: Lens, msgs: seq<Msg>, i: nat, k: nat)
    requires i <= |msgs| && !Joined(lens, msgs, i) && k < |AtomsFrom(lens, msgs, i, 0)|
    ensures var a := AtomsFrom(lens, msgs, i, 0)[k];
            && i <= a.start < a.end <= |msgs|
            && (k == 0 ==> a.start == i) && (k == |AtomsFrom(lens, msgs, i, 0)| - 1 ==> a.end == |msgs|)
            && (k > 0 ==> AtomsFrom(lens, msgs, i, 0)[k - 1].end == a.start)
            && !Joined(lens, msgs, a.start)
            && forall j :: a.start < j < a.end ==> Joined(lens, msgs, j)
    decreases |msgs| - i
  {
    var next := Extend(lens, msgs, i + 1);
    ExtendLocal(lens, msgs, i + 1);
    if k > 0 {
      AtomStarts(lens, msgs, next, k - 1);
    }
  }

  /** Atom `k` spans a glued run between two boundaries and meets its neighbour. */
  lemma AtomSpan(lens: Lens, msgs: seq<Msg>, k: nat)
    requires k < |Atoms(lens, msgs)|
    ensures var atoms := Atoms(lens, msgs); var a := atoms[k];
            && a.start < a.end <= |msgs| && !Joined(lens, msgs, a.start)
            && (k == 0 ==> a.start == 0)
            && a.end == (if k == |atoms| - 1 then |msgs| else atoms[k + 1].start)
            && forall j :: a.start < j < a.end ==> Joined(lens, msgs, j)
  {
    MarkedEnds(lens, msgs, k);
    AtomStarts(lens, msgs, 0, k);
    if k < |Atoms(lens, msgs)| - 1 {
      MarkedEnds(lens, msgs, k + 1);
      AtomStarts(lens, msgs, 0, k + 1);
    }
  }

  /** The backward loop of `cloneMessages`. */
  method CutIndex(env: Env, msgs: seq<Msg>) returns (start: nat)
    requires |msgs| > HISTORY_LIMIT
    ensures LongestWholeSuffix(View(env), msgs, start)
  {
    var atoms := BuildAtoms(env, msgs);
    var count := 0;
    start := |msgs|;
    var i := |atoms|;
    while i > 0
      invariant 0 < i <= |atoms| && start <= |msgs| && count == |msgs| - start <= HISTORY_LIMIT
      invariant start == if i == |atoms| then |msgs| else atoms[i].start
      invariant !Joined(View(env), msgs, start)
    {
      AtomSpan(View(env), msgs, i - 1);
      var c := atoms[i - 1].end - atoms[i - 1].start;
      if count + c > HISTORY_LIMIT {
        break;
      }
      count := count + c;
      start := atoms[i - 1].start;
      i := i - 1;
    }
    if i < |atoms| {
      AtomSpan(View(env), msgs, i);
    }
    if count == 0 {
      start := atoms[|atoms| - 1].start;
    }
    SuffixFound(View(env), msgs, i, start);
  }

  /** The backward loop stops in front of the first atom that does not fit. */
  lemma SuffixFound(lens: Lens, msgs: seq<Msg>, i: nat, start: nat)
    requires 0 < i <= |Atoms(lens, msgs)| && |msgs| - Atoms(lens, msgs)[i - 1].start > HISTORY_LIMIT
    requires
      var atoms := Atoms(lens, msgs);
      if i == |atoms| then start == atoms[i - 1].start else start == atoms[i].start && |msgs| - start <= HISTORY_LIMIT
    ensures LongestWholeSuffix(lens, msgs, start)
  {
    AtomSpan(lens, msgs, i - 1);
    if i < |Atoms(lens, msgs)| {
      AtomSpan(lens, msgs, i);
    }
  }

  ghost predicate IsClone(env: Env, msgs: seq<Msg>, out: seq<Msg>) {
    if |msgs| <= 512 then out == msgs
    else exists start: nat :: LongestWholeSuffix(View(env), msgs, start) && out == msgs[start..]
  }

  /** `cloneMessages`: up to 512 messages are kept as they are, and longer histories are cut to
      the longest suffix of whole atoms with at most 512 messages, or to the last atom. */
  method CloneMessages(env: Env, msgs: seq<Msg>) returns (out: seq<Msg>)
    ensures IsClone(env, msgs, out)
  {
    if |msgs| <= HISTORY_LIMIT {
      return msgs;
    }
    var start := CutIndex(env, msgs);
    return msgs[start..];
  }

  /** The suffix is determined, so the property above names one history. */
  lemma LongestSuffixUnique(lens: Lens, msgs: seq<Msg>, s: nat, t: nat)
    requires LongestWholeSuffix(lens, msgs, s) && LongestWholeSuffix(lens, msgs, t)
    ensures s == t
  {
    assert s < t ==> |msgs| - s > HISTORY_LIMIT && Joined(lens, msgs, t);
    assert t < s ==> |msgs| - t > HISTORY_LIMIT && Joined(lens, msgs, s);
  }

  /** Stored history is again an accepted tidy conversation. */
  lemma StoredHistoryAccepted(lens: Lens, msgs: seq<Msg>, start: nat)
    requires Faithful(lens) && Tidy(lens, msgs) && Accepts(msgs)
    requires LongestWholeSuffix(lens, msgs, start)
    ensures Accepts(msgs[start..]) && Tidy(lens, msgs[start..])
  {
    SuffixAccepted(lens, msgs, start);
    TidyCut(lens, msgs, start);
  }

  // ---------------------------------------------------------------- one request, one turn later

  /** A turn and the answer it got. */
  function TurnHistory(msgs: seq<Msg>, answer: string): seq<Msg> {
    msgs + [Msg("assistant", answer, "", "", None)]
  }

  /** The last message is the answer, and calls nothing. */
  predicate EndsWithAnswer(history: seq<Msg>, answer: string) {
    && history != []
    && var m := history[|history| - 1];
       m.role == "assistant" && m.content == answer && m.Calls() == []
  }

  /** A turn is what was asked, then the answer. */
  lemma TurnIs(msgs: seq<Msg>, answer: string)
    ensures |TurnHistory(msgs, answer)| == |msgs| + 1 && TurnHistory(msgs, answer)[..|msgs|] == msgs
    ensures EndsWithAnswer(TurnHistory(msgs, answer), answer)
  {
  }

  lemma CloneKeepsLast(env: Env, msgs: seq<Msg>, out: seq<Msg>)
    requires msgs != [] && IsClone(env, msgs, out)
    ensures out != [] && out[|out| - 1] == msgs[|msgs| - 1]
  {
  }

  lemma AnswerIsApart(env: Env, msgs: seq<Msg>, answer: string)
    requires Sound(env)
    ensures !Joined(View(env), TurnHistory(msgs, answer), |msgs|)
  {
    SoundIsFaithful(env);
    var m := TurnHistory(msgs, answer)[|msgs|];
    assert KnownRole(m.role) && View(env).cls(m) == RoleClass(m);
  }

  /** `bindConversation` and `Bind`: the history is cloned, extended by the answer and cloned
      again, so a turn is stored whole exactly when it has fewer than 512 messages. */
  method StoreTurn(env: Env, msgs: seq<Msg>, answer: string) returns (hist: seq<Msg>)
    requires Sound(env)
    ensures exists cut :: IsClone(env, msgs, cut) && IsClone(env, TurnHistory(cut, answer), hist)
    ensures hist == TurnHistory(msgs, answer) <==> |msgs| < 512
    ensures EndsWithAnswer(hist, answer)
  {
    var cloned := CloneMessages(env, msgs);
    assert |cloned| <= |msgs|;
    hist := CloneMessages(env, TurnHistory(cloned, answer));
    CloneKeepsLast(env, TurnHistory(cloned, answer), hist);
    if |cloned| >= HISTORY_LIMIT {
      AnswerCutsOff(env, cloned, answer, hist);
    }
  }

  lemma AnswerCutsOff(env: Env, msgs: seq<Msg>, answer: string, hist: seq<Msg>)
    requires Sound(env) && |msgs| >= HISTORY_LIMIT && IsClone(env, TurnHistory(msgs, answer), hist)
    ensures |hist| <= |msgs|
  {
    var all := TurnHistory(msgs, answer);
    var start: nat :| LongestWholeSuffix(View(env), all, start) && hist == all[start..];
    AnswerIsApart(env, msgs, answer);
    assert !Joined(View(env), all, 0) && start > 0;
  }

  /** The next turn of the same client resumes exactly where the last one ended: whatever
      follows the answer, the stored history matches and ends on an atom boundary. */
  lemma NextTurnResumes(env: Env, msgs: seq<Msg>, answer: string, replayed: seq<Msg>, rest: seq<Msg>)
    requires Sound(env) && |replayed| == |msgs| + 1
    requires forall i :: 0 <= i < |replayed| ==> SameMessage(env, TurnHistory(msgs, answer)[i], replayed[i])
    ensures Resumable(env, TurnHistory(msgs, answer), replayed + rest)
  {
    var hist, all, n := TurnHistory(msgs, answer), replayed + rest, |msgs|;
    assert forall i :: 0 <= i < |hist| ==> all[i] == replayed[i];
    SameMessageSameClass(env, hist[n], replayed[n]);
    SoundIsFaithful(env);
    assert KnownRole(hist[n].role) && View(env).cls(hist[n]) == RoleClass(hist[n]);
    assert View(env).cls(all[n]) == AssistMsg;
  }

  /** The messages `openaiChat` forwards: the window of the body, or what follows the history
      length `h` that the resolver reports. */
  function Forwarded(windowed: seq<Msg>, h: nat): seq<Msg> {
    if 0 < h < |windowed| then windowed[h..] else windowed
  }

  /** Validate, window, resume by prefix: the forwarded messages are accepted, for every body,
      budget and stored history. */
  lemma ForwardedByPrefixAccepted(env: Env, body: seq<Msg>, budget: int, hist: seq<Msg>)
    requires Sound(env) && Tidy(View(env), body) && Accepts(body)
    requires WindowOf(View(env), body, budget).Success?
    ensures var windowed := WindowOf(View(env), body, budget).value.msgs;
            Accepts(Forwarded(windowed, if Resumable(env, hist, windowed) then |hist| else 0))
  {
    var windowed := WindowOf(View(env), body, budget).value.msgs;
    SoundIsFaithful(env);
    WindowKeepsProtocol(View(env), body, budget);
    if Resumable(env, hist, windowed) {
      ResumeIsSafe(env, hist, windowed);
    }
  }

  /** The explicit and the suffix match report a length that was not checked against atom
      boundaries. The forwarded messages are then accepted exactly when the first of them is
      not a tool result. */
  lemma ForwardedByLengthAccepted(env: Env, windowed: seq<Msg>, h: nat)
    requires Sound(env) && Tidy(View(env), windowed) && Accepts(windowed)
    ensures Accepts(Forwarded(windowed, h)) <==> !(0 < h < |windowed|) || View(env).cls(windowed[h]) != ToolMsg
  {
    SoundIsFaithful(env);
    if 0 < h < |windowed| {
      SuffixAccepted(View(env), windowed, h);
    }
  }
}
