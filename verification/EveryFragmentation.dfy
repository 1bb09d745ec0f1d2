/** When every fragmentation of a text gives what the whole-text sanitiser gives:
    internal/web/public_identity.go:244-271 and 403-454. */
module EveryFragmentation {
  import opened Basics
  import opened PublicIdentity
  import opened IdentityCuts

  // ---------------------------------------------------------------- where a sentence can be cut

  /** Sizes up to that of the sentence, none smaller than the one before. */
  ghost predicate Growing(s: Bytes, sizes: seq<nat>) {
    sizes == [] || (Growing(s, sizes[..|sizes| - 1]) && Last(sizes[..|sizes| - 1]) <= Last(sizes) <= |s|)
  }

  function Last(sizes: seq<nat>): nat {
    if sizes == [] then 0 else sizes[|sizes| - 1]
  }

  /** How many bytes of the sentence are out raw when the filter has looked at it after its first
      sizes[0], sizes[1], .. bytes. */
  ghost function RawAfter(p: Policy, s: Bytes, sizes: seq<nat>): (c: nat)
    requires Growing(s, sizes)
    ensures c <= Last(sizes) <= |s|
    ensures c == 0 || (c < Last(sizes) && RuneStart(s[c]))
  {
    if sizes == [] then 0
    else
      var c, n := RawAfter(p, s, sizes[..|sizes| - 1]), Last(sizes);
      if Overlong(p, s[c..n]) then c + CutOf(s[c..n]) else c
  }

  /** The filter may look at the sentence after these sizes: before its stop has come, and at all
      of it when it has none. */
  ghost predicate Looks(s: Bytes, sizes: seq<nat>) {
    && sizes != [] && Growing(s, sizes) && NoStops(s[..Last(sizes)])
    && (EndsAt(s, |s|) || Last(sizes) == |s|)
  }

  /** The sentence of `t` that begins at `i` can be cut by looking at it after these sizes. */
  ghost predicate CanCut(p: Policy, t: Bytes, i: nat, sizes: seq<nat>) {
    && i < |t| && (i == 0 || EndsAt(t, i)) && Looks(FirstSentence(t[i..]), sizes)
    && RawAfter(p, FirstSentence(t[i..]), sizes) > 0
  }

  /** Neither the sentence nor what is left of it behind the cut is an identity statement. */
  ghost predicate Harmless(p: Policy, t: Bytes, i: nat, sizes: seq<nat>)
    requires CanCut(p, t, i, sizes)
  {
    var s := FirstSentence(t[i..]);
    !p.Identity(s) && !p.Identity(s[RawAfter(p, s, sizes)..])
  }

  ghost predicate TerseAt(p: Policy, t: Bytes, i: nat, sizes: seq<nat>)
    requires CanCut(p, t, i, sizes)
  {
    var s := FirstSentence(t[i..]);
    var c := RawAfter(p, s, sizes);
    Terse(p, s[..c], s[c..], Fold(p, t[..i], false).1, |s| < |t| - i)
  }

  lemma {:induction false} RawAfterPrefix(p: Policy, u: Bytes, s: Bytes, sizes: seq<nat>)
    requires u <= s && Growing(u, sizes)
    ensures Growing(s, sizes) && RawAfter(p, s, sizes) == RawAfter(p, u, sizes)
    decreases |sizes|
  {
    if sizes != [] {
      var front := sizes[..|sizes| - 1];
      RawAfterPrefix(p, u, s, front);
      var c, n := RawAfter(p, u, front), Last(sizes);
      assert s[c..n] == u[c..n];
    }
  }

  // ---------------------------------------------------------------- a fragmentation for every cut

  /** The pushes that make the filter look at the sentence after these sizes. */
  lemma {:induction false} MiddleFor(p: Policy, s: Bytes, sizes: seq<nat>, w: bool) returns (middle: seq<Bytes>)
    requires Growing(s, sizes) && NoStops(s[..Last(sizes)])
    ensures var c := RawAfter(p, s, sizes);
            && Resumed(p, Filter([], w), middle) == (Filter(s[c..Last(sizes)], w), s[..c])
            && Concat(middle) == s[..Last(sizes)]
    decreases |sizes|
  {
    if sizes == [] {
      middle := [];
      assert s[0..0] == [] == s[..0];
    } else {
      var front := sizes[..|sizes| - 1];
      NoStopsEarlier(s, Last(front), Last(sizes));
      var before := MiddleFor(p, s, front, w);
      middle := PieceRaw(p, s, RawAfter(p, s, front), Last(front), Last(sizes), w, before);
    }
  }

  lemma NoStopsEarlier(s: Bytes, m: nat, n: nat)
    requires m <= n <= |s| && NoStops(s[..n])
    ensures NoStops(s[..m])
  {
    assert s[..m] + s[m..n] == s[..n];
    NoStopsFront(s[..m], s[m..n]);
  }

  lemma PieceRaw(p: Policy, s: Bytes, c: nat, m: nat, n: nat, w: bool, front: seq<Bytes>) returns (middle: seq<Bytes>)
    requires c <= m <= n <= |s| && NoStops(s[..n])
    requires Resumed(p, Filter([], w), front) == (Filter(s[c..m], w), s[..c]) && Concat(front) == s[..m]
    ensures var d := if Overlong(p, s[c..n]) then c + CutOf(s[c..n]) else c;
            Resumed(p, Filter([], w), middle) == (Filter(s[d..n], w), s[..d])
    ensures Concat(middle) == s[..n]
  {
    middle := front + [s[m..n]];
    ResumedSnoc(p, Filter([], w), front, s[m..n]);
    LookAgain(p, s, c, m, n, w);
    ConcatSnoc(front, s[m..n]);
    assert s[..m] + s[m..n] == s[..n];
  }

  lemma ConcatSnoc(parts: seq<Bytes>, x: Bytes)
    ensures Concat(parts + [x]) == Concat(parts) + x
  {
    assert (parts + [x])[..|parts|] == parts;
  }

  lemma LookAgain(p: Policy, s: Bytes, c: nat, m: nat, n: nat, w: bool)
    requires c <= m <= n <= |s| && NoStops(s[..n])
    ensures var d := if Overlong(p, s[c..n]) then c + CutOf(s[c..n]) else c;
            var step := Pushed(p, Filter(s[c..m], w), s[m..n]);
            step.0 == Filter(s[d..n], w) && s[..c] + step.1 == s[..d]
  {
    SliceJoin(s, c, m, n);
    SliceJoin(s, 0, c, n);
    assert s[0..c] == s[..c] && s[0..n] == s[..n];
    NoStopsTail(s[..c], s[c..n]);
    LookConsumes(p, s, c, n, w);
  }

  lemma SliceJoin(s: Bytes, a: nat, b: nat, c: nat)
    requires a <= b <= c <= |s|
    ensures s[a..b] + s[b..c] == s[a..c]
  {
  }

  lemma LookConsumes(p: Policy, s: Bytes, c: nat, n: nat, w: bool)
    requires c <= n <= |s| && LastEnd(s[c..n]) == 0
    ensures var d := if Overlong(p, s[c..n]) then c + CutOf(s[c..n]) else c;
            var step := Consumed(p, s[c..n], w);
            step.0 == Filter(s[d..n], w) && s[..c] + step.1 == s[..d]
  {
    ConsumedUnfinished(p, s[c..n], w);
    if Overlong(p, s[c..n]) {
      SliceCut(s, c, n, CutOf(s[c..n]));
    } else {
      SliceCut(s, c, n, 0);
    }
  }

  lemma SliceCut(s: Bytes, c: nat, n: nat, k: nat)
    requires c <= n <= |s| && k <= n - c
    ensures s[c..n][k..] == s[c + k..n] && s[..c] + s[c..n][..k] == s[..c + k]
    ensures k == 0 ==> s[..c] + [] == s[..c]
  {
  }

  lemma FrontStreamed(p: Policy, a: Bytes) returns (front: seq<Bytes>)
    requires Closed(a) && p.strip(a) == a
    ensures Concat(front) == a && Unhurried(p, FRESH, front)
    ensures Streamed(p, front) == (Filter([], Fold(p, a, false).1), Fold(p, a, false).0)
  {
    if a == [] {
      front := [];
    } else {
      front := [a];
      ConcatOne(a);
      ResumedOne(p, FRESH, a);
      assert FRESH.pending + a == a && LastEnd(a) == |a|;
      assert a[..|a|] == a && a[|a|..] == [];
      assert front[..0] == [];
    }
  }

  /** What follows the last look is one fragment, in which the sentence ends. */
  lemma LaterWaits(p: Policy, t: Bytes, i: nat, s: Bytes, c: nat, n: nat, w: bool) returns (later: seq<Bytes>)
    requires i < |t| && s == FirstSentence(t[i..]) && 0 < c < n <= |s| && RuneStart(s[c])
    requires EndsAt(s, |s|) || n == |s|
    ensures i + n <= |t| && Concat(later) == t[i + n..] && Unhurried(p, Filter(s[c..n], w), later)
  {
    if i + n == |t| {
      later := [];
    } else {
      later := [t[i + n..]];
      ConcatOne(t[i + n..]);
      LaterEnds(t, i, s, c, n);
      UnhurriedOne(p, Filter(s[c..n], w), t[i + n..]);
    }
  }

  lemma UnhurriedOne(p: Policy, f: Filter, fragment: Bytes)
    requires Waits(p, f.pending + fragment)
    ensures Unhurried(p, f, [fragment])
  {
    assert [fragment][..0] == [];
  }

  lemma LaterEnds(t: Bytes, i: nat, s: Bytes, c: nat, n: nat)
    requires i < |t| && s == FirstSentence(t[i..]) && 0 < c < n <= |s| && RuneStart(s[c]) && i + n < |t|
    requires EndsAt(s, |s|) || n == |s|
    ensures s[c..n] + t[i + n..] == t[i + c..] && LastEnd(t[i + c..]) > 0
  {
    var x := t[i..];
    assert s[c..n] + t[i + n..] == x[c..] == t[i + c..];
    assert EndsAt(x, |s|);
    EndsBehindCut(x, c, |s|);
  }

  lemma EndsBehindCut(x: Bytes, c: nat, e: nat)
    requires c < e <= |x| && RuneStart(x[c]) && EndsAt(x, e)
    ensures LastEnd(x[c..]) > 0
  {
    assert x[..c] + x[c..] == x;
    EndsBehindRune(x[..c], x[c..], e - c);
  }

  /** The stream that looks at the sentence after these sizes disagrees exactly if the cut is not
      harmless. */
  lemma CutDecides(p: Policy, t: Bytes, i: nat, sizes: seq<nat>) returns (fragments: seq<Bytes>)
    requires Clean(p, t) && CanCut(p, t, i, sizes) && TerseAt(p, t, i, sizes)
    ensures Concat(fragments) == t
    ensures Flushed(p, fragments) == Sanitized(p, t, false) <==> Harmless(p, t, i, sizes)
  {
    var s, n := FirstSentence(t[i..]), Last(sizes);
    var c, w := RawAfter(p, s, sizes), Fold(p, t[..i], false).1;
    CleanAt(p, t, 0, i, t[..i]);
    assert Closed(t[..i]);
    var front := FrontStreamed(p, t[..i]);
    var middle := MiddleFor(p, s, sizes, w);
    var later := LaterWaits(p, t, i, s, c, n, w);
    fragments := front + middle + later;
    ConcatJoin(front, middle);
    ConcatJoin(front + middle, later);
    SentenceParts(t, i, s, c, n);
    CutShowsIff(p, front, middle, later);
  }

  lemma SentenceParts(t: Bytes, i: nat, s: Bytes, c: nat, n: nat)
    requires i <= |t| && s <= t[i..] && 0 < c <= n <= |s|
    ensures i + n <= |t| && t[..i] + s[..n] + t[i + n..] == t
    ensures [] + s[..n] == s[..n] && s[..n] + t[i + n..] == t[i..]
    ensures s[..c] != [] && s[c..n] + t[i + n..] == t[i + c..] && s[..c] + s[c..] == s
  {
  }

  // ---------------------------------------------------------------- every stream, when all is harmless

  /** The filter holds the unfinished sentence `u`, of which a front is out raw, and everything
      before it, `done`, is out as the whole-text sanitiser has it. */
  ghost predicate Along(p: Policy, all: (Filter, Bytes), done: Bytes, u: Bytes, sizes: seq<nat>) {
    && Closed(done) && NoStops(u) && Growing(u, sizes)
    && var c, before := RawAfter(p, u, sizes), Fold(p, done, false);
       && (c > 0 ==> Last(sizes) == |u|)
       && all == (Filter(u[c..], before.1), before.0 + u[..c])
  }

  ghost predicate AllHarmless(p: Policy, t: Bytes) {
    forall i: nat, sizes: seq<nat> :: CanCut(p, t, i, sizes) ==> Harmless(p, t, i, sizes)
  }

  /** Stops behind a raw front are stops of the sentence. */
  lemma NoStopsGrow(u: Bytes, c: nat, f: Bytes)
    requires c <= |u| && NoStops(u) && (c == 0 || (c < |u| && RuneStart(u[c]))) && LastEnd(u[c..] + f) == 0
    ensures NoStops(u + f)
  {
    var q, v := u[..c], u[c..] + f;
    assert u + f == q + v;
    forall e: nat ensures !EndsAt(u + f, e) {
      if c < e <= |u + f| {
        EndsBehindRune(q, v, e - c);
      } else if e <= c {
        assert EndsAt(u + f, e) ==> EndsAt(u, e);
      }
    }
  }

  lemma RawAfterMore(p: Policy, u: Bytes, sizes: seq<nat>, f: Bytes)
    requires Growing(u, sizes)
    ensures var c, more, v := RawAfter(p, u, sizes), sizes + [|u + f|], u[RawAfter(p, u, sizes)..] + f;
            && Growing(u + f, more) && Last(more) == |u + f|
            && RawAfter(p, u + f, more) == if Overlong(p, v) then c + CutOf(v) else c
  {
    var c, more, s := RawAfter(p, u, sizes), sizes + [|u + f|], u + f;
    RawAfterPrefix(p, u, s, sizes);
    assert more[..|more| - 1] == sizes;
    assert s[c..|s|] == u[c..] + f;
  }

  lemma PushUnfinished(p: Policy, u: Bytes, sizes: seq<nat>, f: Bytes, w: bool)
    requires NoStops(u) && Growing(u, sizes) && LastEnd(u[RawAfter(p, u, sizes)..] + f) == 0
    ensures var c, more := RawAfter(p, u, sizes), sizes + [|u + f|];
            && NoStops(u + f) && Growing(u + f, more) && Last(more) == |u + f|
            && var d, step := RawAfter(p, u + f, more), Pushed(p, Filter(u[c..], w), f);
               step.0 == Filter((u + f)[d..], w) && u[..c] + step.1 == (u + f)[..d]
  {
    var c := RawAfter(p, u, sizes);
    NoStopsGrow(u, c, f);
    RawAfterMore(p, u, sizes, f);
    PushOn(p, u, c, f, w);
  }

  lemma PushOn(p: Policy, u: Bytes, c: nat, f: Bytes, w: bool)
    requires c <= |u| && LastEnd(u[c..] + f) == 0
    ensures var v, s := u[c..] + f, u + f;
            var d, step := if Overlong(p, v) then c + CutOf(v) else c, Pushed(p, Filter(u[c..], w), f);
            step.0 == Filter(s[d..], w) && u[..c] + step.1 == s[..d]
  {
    var v, s := u[c..] + f, u + f;
    ConsumedUnfinished(p, v, w);
    PushSlices(u, c, f, if Overlong(p, v) then CutOf(v) else 0);
  }

  lemma PushSlices(u: Bytes, c: nat, f: Bytes, k: nat)
    requires c <= |u| && k <= |u| - c + |f|
    ensures (u[c..] + f)[k..] == (u + f)[c + k..] && u[..c] + (u[c..] + f)[..k] == (u + f)[..c + k]
    ensures k == 0 ==> (u[c..] + f)[k..] == u[c..] + f && u[..c] + [] == (u + f)[..c]
  {
  }

  /** The first sentence of a text is that of any longer text, if it ends in it. */
  lemma FirstSentenceOf(x: Bytes, u: Bytes, n: nat)
    requires u <= x && NoStops(u) && 0 < n <= |x| && EndsAt(x, n)
    ensures var s := FirstSentence(x);
            |u| < |s| <= n && s <= x && EndsAt(s, |s|) && FirstSentence(x[..n]) == s && u <= s
  {
    var e := FirstEnd(x, 0);
    assert e <= |u| ==> EndsAt(u, e);
    assert EndsAt(x[..n], n) && x[..n] + x[n..] == x;
    FirstEndOfJoin(x[..n], x[n..]);
    assert EndsAt(x, e);
  }

  /** A sentence that was cut at `c` is harmless, where everything is. */
  lemma HarmlessSentence(p: Policy, t: Bytes, i: nat, u: Bytes, sizes: seq<nat>)
    requires AllHarmless(p, t) && i < |t| && (i == 0 || EndsAt(t, i))
    requires Growing(u, sizes) && Last(sizes) == |u| && NoStops(u) && RawAfter(p, u, sizes) > 0
    requires var s := FirstSentence(t[i..]); u <= s && (EndsAt(s, |s|) || u == s)
    ensures var s := FirstSentence(t[i..]); !p.Identity(s) && !p.Identity(s[RawAfter(p, u, sizes)..])
  {
    var s := FirstSentence(t[i..]);
    RawAfterPrefix(p, u, s, sizes);
    assert s[..|u|] == u;
    assert CanCut(p, t, i, sizes);
    assert Harmless(p, t, i, sizes);
  }

  lemma FoldHarmless(p: Policy, q: Bytes, v: Bytes, w: bool)
    requires v != [] && FirstSentence(q + v) == q + FirstSentence(v)
    requires !p.Identity(q + FirstSentence(v)) && !p.Identity(FirstSentence(v))
    ensures Fold(p, q + v, w) == (q + Fold(p, v, w).0, Fold(p, v, w).1)
  {
    var r := FirstSentence(v);
    var rest := v[|r|..];
    FoldFirst(p, v, w);
    FoldFirst(p, q + v, w);
    assert (q + v)[|q + r|..] == rest;
    JoinAssoc(q, r, Fold(p, rest, w).0);
  }

  /** A push that ends the cut sentence puts out what the sanitiser has for the rest of it. */
  lemma ChunkHarmless(p: Policy, t: Bytes, i: nat, u: Bytes, sizes: seq<nat>, chunk: Bytes, w: bool)
    requires AllHarmless(p, t) && i < |t| && (i == 0 || EndsAt(t, i))
    requires Growing(u, sizes) && NoStops(u) && u <= t[i..] && (RawAfter(p, u, sizes) > 0 ==> Last(sizes) == |u|)
    requires chunk != [] && EndsAt(chunk, |chunk|) && u[..RawAfter(p, u, sizes)] + chunk <= t[i..]
    ensures var q := u[..RawAfter(p, u, sizes)];
            Fold(p, q + chunk, w) == (q + Fold(p, chunk, w).0, Fold(p, chunk, w).1)
  {
    var c := RawAfter(p, u, sizes);
    var q := u[..c];
    if c == 0 {
      assert q == [] && [] + chunk == chunk && [] + Fold(p, chunk, w).0 == Fold(p, chunk, w).0;
    } else {
      CutSentenceOf(t[i..], u, c, chunk);
      HarmlessSentence(p, t, i, u, sizes);
      FoldHarmless(p, q, chunk, w);
    }
  }

  /** The first sentence of `x`, of which `u` has come and `c` bytes are out raw. */
  lemma CutSentenceOf(x: Bytes, u: Bytes, c: nat, chunk: Bytes)
    requires u <= x && NoStops(u) && 0 < c < |u| && RuneStart(u[c])
    requires chunk != [] && EndsAt(chunk, |chunk|) && u[..c] + chunk <= x
    ensures var s, q := FirstSentence(x), u[..c];
            && u <= s && EndsAt(s, |s|) && s[c..] == FirstSentence(chunk)
            && s == q + FirstSentence(chunk) == FirstSentence(q + chunk)
  {
    var q, n := u[..c], c + |chunk|;
    assert x[..n] == q + chunk;
    ClosedJoin(q, chunk);
    assert EndsAt(q + chunk, n);
    FirstSentenceOf(x, u, n);
    assert (q + chunk)[c] == x[c] == u[c];
    FirstEndBehind(q, chunk);
  }

  lemma PushFinished(p: Policy, t: Bytes, all: (Filter, Bytes), done: Bytes, u: Bytes, sizes: seq<nat>, f: Bytes)
    requires Clean(p, t) && AllHarmless(p, t) && Along(p, all, done, u, sizes) && done + (u + f) <= t
    requires LastEnd(all.0.pending + f) > 0
    ensures var v, step := all.0.pending + f, Pushed(p, all.0, f);
            var end := LastEnd(v);
            Along(p, (step.0, all.1 + step.1), done + (u[..RawAfter(p, u, sizes)] + v[..end]), v[end..], [])
  {
    var v := all.0.pending + f;
    var c, end := RawAfter(p, u, sizes), LastEnd(v);
    ChunkFold(p, t, done, u, sizes, f, end, all.0.written);
    PushEnds(p, all.0, f);
    NoStopsAfterLast(v);
    FinishAlong(p, done, u[..c], v[..end], v[end..]);
  }

  lemma ChunkFold(p: Policy, t: Bytes, done: Bytes, u: Bytes, sizes: seq<nat>, f: Bytes, end: nat, w: bool)
    requires Clean(p, t) && AllHarmless(p, t) && Closed(done) && done + (u + f) <= t && NoStops(u)
    requires Growing(u, sizes) && (RawAfter(p, u, sizes) > 0 ==> Last(sizes) == |u|)
    requires EndsAt(u[RawAfter(p, u, sizes)..] + f, end)
    ensures var c := RawAfter(p, u, sizes);
            var q, chunk := u[..c], (u[c..] + f)[..end];
            && p.strip(chunk) == chunk
            && Fold(p, q + chunk, w) == (q + Fold(p, chunk, w).0, Fold(p, chunk, w).1)
  {
    var c := RawAfter(p, u, sizes);
    var chunk := (u[c..] + f)[..end];
    PushParts(t, done, u, f, c, end);
    assert |done| == 0 || EndsAt(t, |done|);
    CleanAt(p, t, |done| + c, |done| + c + end, chunk);
    assert EndsAt(chunk, end);
    ChunkHarmless(p, t, |done|, u, sizes, chunk, w);
  }

  lemma PushEnds(p: Policy, f: Filter, fragment: Bytes)
    requires var v := f.pending + fragment; LastEnd(v) > 0 && p.strip(v[..LastEnd(v)]) == v[..LastEnd(v)]
    ensures var v := f.pending + fragment;
            var out := Fold(p, v[..LastEnd(v)], f.written);
            && Pushed(p, f, fragment) == (Filter(v[LastEnd(v)..], out.1), out.0)
            && v[..LastEnd(v)] != [] && EndsAt(v[..LastEnd(v)], LastEnd(v))
  {
  }

  lemma FinishAlong(p: Policy, done: Bytes, q: Bytes, chunk: Bytes, rest: Bytes)
    requires Closed(done) && EndsAt(chunk, |chunk|) && NoStops(rest)
    requires var w := Fold(p, done, false).1; var out := Fold(p, chunk, w); Fold(p, q + chunk, w) == (q + out.0, out.1)
    ensures var before := Fold(p, done, false);
            var out := Fold(p, chunk, before.1);
            Along(p, (Filter(rest, out.1), (before.0 + q) + out.0), done + (q + chunk), rest, [])
  {
    var before := Fold(p, done, false);
    var out := Fold(p, chunk, before.1);
    ClosedJoin(q, chunk);
    ClosedJoin(done, q + chunk);
    DoneFold(p, done, q + chunk, q, out);
    FreshlyAlong(p, (Filter(rest, out.1), (before.0 + q) + out.0), done + (q + chunk), rest);
  }

  lemma DoneFold(p: Policy, done: Bytes, t: Bytes, q: Bytes, out: (Bytes, bool))
    requires Closed(done) && Fold(p, t, Fold(p, done, false).1) == (q + out.0, out.1)
    ensures Fold(p, done + t, false) == ((Fold(p, done, false).0 + q) + out.0, out.1)
  {
    FoldSplit(p, done, t, false);
    JoinAssoc(Fold(p, done, false).0, q, out.0);
  }

  lemma FreshlyAlong(p: Policy, all: (Filter, Bytes), done: Bytes, u: Bytes)
    requires Closed(done) && NoStops(u) && Fold(p, done, false) == (all.1, all.0.written) && all.0.pending == u
    ensures Along(p, all, done, u, [])
  {
    assert u[0..] == u && u[..0] == [] && all.1 + [] == all.1;
  }

  lemma PushParts(t: Bytes, done: Bytes, u: Bytes, f: Bytes, c: nat, end: nat)
    requires c <= |u| && done + (u + f) <= t && 0 < end <= |u| - c + |f|
    ensures var v, i := u[c..] + f, |done|;
            && i < |t| && t[..i] == done && u <= t[i..] && u[..c] + v[..end] <= t[i..]
            && i + c + end <= |t| && t[i + c..i + c + end] == v[..end]
  {
    var v := u[c..] + f;
    assert u + f == u[..c] + v && t[..|done + (u + f)|] == done + (u + f);
  }

  lemma PushAlong(p: Policy, all: (Filter, Bytes), done: Bytes, u: Bytes, sizes: seq<nat>, f: Bytes)
    requires Along(p, all, done, u, sizes) && LastEnd(all.0.pending + f) == 0
    ensures var step := Pushed(p, all.0, f);
            Along(p, (step.0, all.1 + step.1), done, u + f, sizes + [|u + f|])
  {
    PushUnfinished(p, u, sizes, f, all.0.written);
    JoinAssoc(Fold(p, done, false).0, u[..RawAfter(p, u, sizes)], Pushed(p, all.0, f).1);
  }

  // ---------------------------------------------------------------- the theorem

  lemma {:induction false} StreamAlong(p: Policy, t: Bytes, fragments: seq<Bytes>)
    returns (done: Bytes, u: Bytes, sizes: seq<nat>)
    requires Clean(p, t) && AllHarmless(p, t) && Concat(fragments) <= t
    ensures Concat(fragments) == done + u && Along(p, Streamed(p, fragments), done, u, sizes)
  {
    if fragments == [] {
      done, u, sizes := [], [], [];
      FreshlyAlong(p, (FRESH, []), [], []);
    } else {
      var n := |fragments| - 1;
      var front, f := fragments[..n], fragments[n];
      var all := Streamed(p, front);
      PrefixOfPrefix(Concat(front), f, t);
      done, u, sizes := StreamAlong(p, t, front);
      JoinAssoc(done, u, f);
      if LastEnd(all.0.pending + f) > 0 {
        PushFinished(p, t, all, done, u, sizes, f);
        var c, v := RawAfter(p, u, sizes), all.0.pending + f;
        PartsJoin(done, u, f, c, LastEnd(v));
        done, u, sizes := done + (u[..c] + v[..LastEnd(v)]), v[LastEnd(v)..], [];
      } else {
        PushAlong(p, all, done, u, sizes, f);
        u, sizes := u + f, sizes + [|u + f|];
      }
    }
  }

  lemma PartsJoin(done: Bytes, u: Bytes, f: Bytes, c: nat, end: nat)
    requires c <= |u| && end <= |u| - c + |f|
    ensures var v := u[c..] + f; done + (u + f) == (done + (u[..c] + v[..end])) + v[end..]
  {
    var v := u[c..] + f;
    assert u + f == u[..c] + v && v == v[..end] + v[end..];
    JoinAssoc(u[..c], v[..end], v[end..]);
    JoinAssoc(done, u[..c] + v[..end], v[end..]);
  }

  lemma FlushAlong(p: Policy, all: (Filter, Bytes), done: Bytes, u: Bytes, sizes: seq<nat>)
    requires Clean(p, done + u) && AllHarmless(p, done + u) && Along(p, all, done, u, sizes)
    ensures Then((all.1, all.0.written), Sanitized(p, all.0.pending, all.0.written)) == Sanitized(p, done + u, false)
  {
    var c := RawAfter(p, u, sizes);
    CleanEnd(p, done, u, c);
    TailHarmless(p, done, u, sizes, all.0.written);
    DoneFold(p, done, u, u[..c], Fold(p, u[c..], all.0.written));
  }

  lemma CleanEnd(p: Policy, done: Bytes, u: Bytes, c: nat)
    requires Clean(p, done + u) && c <= |u|
    ensures p.strip(done + u) == done + u && p.strip(u[c..]) == u[c..]
  {
    var t := done + u;
    CleanAt(p, t, 0, |t|, t);
    CleanAt(p, t, |done| + c, |t|, u[c..]);
  }

  lemma TailHarmless(p: Policy, done: Bytes, u: Bytes, sizes: seq<nat>, w: bool)
    requires AllHarmless(p, done + u) && Closed(done) && NoStops(u) && Growing(u, sizes)
    requires RawAfter(p, u, sizes) > 0 ==> Last(sizes) == |u|
    ensures var c := RawAfter(p, u, sizes);
            Fold(p, u, w) == (u[..c] + Fold(p, u[c..], w).0, Fold(p, u[c..], w).1)
  {
    var c := RawAfter(p, u, sizes);
    SplitAt(u, c);
    if c == 0 {
      assert [] + Fold(p, u, w).0 == Fold(p, u, w).0;
    } else {
      UnfinishedSentence(done, u, c);
      HarmlessSentence(p, done + u, |done|, u, sizes);
      FoldHarmless(p, u[..c], u[c..], w);
    }
  }

  lemma UnfinishedSentence(done: Bytes, u: Bytes, c: nat)
    requires Closed(done) && NoStops(u) && c < |u|
    ensures (done + u)[|done|..] == u && (|done| == 0 || EndsAt(done + u, |done|))
    ensures FirstSentence(u) == u && FirstSentence(u[c..]) == u[c..]
  {
    SplitAt(u, c);
    NoStopsTail(u[..c], u[c..]);
  }

  /** If no sentence that can be cut is an identity statement, nor what is left of it behind the
      cut, then every way of splitting the text gives the whole-text output and state. */
  lemma HarmlessAgrees(p: Policy, fragments: seq<Bytes>)
    requires Clean(p, Concat(fragments)) && AllHarmless(p, Concat(fragments))
    ensures Flushed(p, fragments) == Sanitized(p, Concat(fragments), false)
  {
    var done, u, sizes := StreamAlong(p, Concat(fragments), fragments);
    FlushAlong(p, Streamed(p, fragments), done, u, sizes);
  }

  /** When fragmentation does not matter. For a text without citation markers, every way of
      splitting it gives the whole-text output and state if and only if every sentence that the
      buffer limit can cut, and what is left of it behind the cut, is no identity statement. */
  lemma EveryFragmentationIff(p: Policy, t: Bytes)
    requires Clean(p, t)
    requires forall i: nat, sizes: seq<nat> :: CanCut(p, t, i, sizes) ==> TerseAt(p, t, i, sizes)
    ensures (forall fragments: seq<Bytes> :: Concat(fragments) == t ==> Flushed(p, fragments) == Sanitized(p, t, false))
            <==> AllHarmless(p, t)
  {
    if AllHarmless(p, t) {
      forall fragments: seq<Bytes> | Concat(fragments) == t ensures Flushed(p, fragments) == Sanitized(p, t, false) {
        HarmlessAgrees(p, fragments);
      }
    } else {
      var i: nat, sizes: seq<nat> :| CanCut(p, t, i, sizes) && !Harmless(p, t, i, sizes);
      var fragments := CutDecides(p, t, i, sizes);
    }
  }
}
