/** What an overlong sentence does to the stream filter: internal/web/public_identity.go:433-454
    against 244-271. */
module IdentityCuts {
  import opened Basics
  import opened PublicIdentity

  // ---------------------------------------------------------------- one sentence

  /** The sanitiser on one sentence, with the state behind it. */
  function One(p: Policy, s: Bytes, written: bool): (Bytes, bool) {
    var one := SanitizeSegment(p, s, written);
    (one.0, written || one.1)
  }

  function FirstSentence(t: Bytes): (s: Bytes)
    ensures |s| <= |t| && (t != [] ==> s != [])
  {
    if t == [] then [] else t[..FirstEnd(t, 0)]
  }

  lemma FoldFirst(p: Policy, t: Bytes, written: bool)
    requires t != []
    ensures var one := One(p, FirstSentence(t), written);
            Fold(p, t, written) == Then(one, Fold(p, t[|FirstSentence(t)|..], one.1))
  {
  }

  /** With the answer written the rest is shorter by one answer, if it has an identity statement
      at all. */
  lemma {:induction false} AnswerLength(p: Policy, t: Bytes)
    ensures Fold(p, t, true).1
    ensures !Fold(p, t, false).1 ==> Fold(p, t, false).0 == Fold(p, t, true).0
    ensures Fold(p, t, false).1 ==> exists l :: |Fold(p, t, false).0| == |Fold(p, t, true).0| + |p.answer(l)|
    decreases |t|
  {
    if t != [] {
      var s, rest := FirstSentence(t), t[|FirstSentence(t)|..];
      FoldFirst(p, t, false);
      FoldFirst(p, t, true);
      AnswerLength(p, rest);
      if p.Identity(s) {
        assert |Fold(p, t, false).0| == |Fold(p, t, true).0| + |p.answer(p.LanguageOf(s))|;
      } else if Fold(p, rest, false).1 {
        var l :| |Fold(p, rest, false).0| == |Fold(p, rest, true).0| + |p.answer(l)|;
        assert |Fold(p, t, false).0| == |Fold(p, t, true).0| + |p.answer(l)|;
      }
    }
  }

  // ---------------------------------------------------------------- the stream in parts

  lemma {:induction false} ResumedJoin(p: Policy, f: Filter, a: seq<Bytes>, b: seq<Bytes>)
    ensures var x := Resumed(p, f, a); var y := Resumed(p, x.0, b);
            Resumed(p, f, a + b) == (y.0, x.1 + y.1)
    decreases |b|
  {
    var x := Resumed(p, f, a);
    if b == [] {
      assert a + b == a && x.1 + [] == x.1;
    } else {
      var n := |b| - 1;
      ResumedJoin(p, f, a, b[..n]);
      assert (a + b)[..|a + b| - 1] == a + b[..n] && (a + b)[|a + b| - 1] == b[n];
      var y := Resumed(p, x.0, b[..n]);
      var step := Pushed(p, y.0, b[n]);
      JoinAssoc(x.1, y.1, step.1);
    }
  }

  lemma {:induction false} ConcatJoin(a: seq<Bytes>, b: seq<Bytes>)
    ensures Concat(a + b) == Concat(a) + Concat(b)
    decreases |b|
  {
    if b == [] {
      assert a + b == a && Concat(a) + [] == Concat(a);
    } else {
      var n := |b| - 1;
      ConcatJoin(a, b[..n]);
      assert (a + b)[..|a + b| - 1] == a + b[..n] && (a + b)[|a + b| - 1] == b[n];
      JoinAssoc(Concat(a), Concat(b[..n]), b[n]);
    }
  }

  lemma NoStopsFront(a: Bytes, b: Bytes)
    requires NoStops(a + b)
    ensures NoStops(a)
  {
    assert forall e: nat :: EndsAt(a, e) ==> EndsAt(a + b, e);
  }

  lemma NoStopsTail(a: Bytes, b: Bytes)
    requires NoStops(a + b)
    ensures NoStops(b) && LastEnd(b) == 0
  {
    assert (a + b)[|a|..] == b;
    forall e: nat ensures !EndsAt(b, e) {
      EndsInTail(a + b, |a|, e);
    }
  }

  /** While a sentence goes on, the filter puts out a raw front of it, up to a rune start. */
  ghost predicate RawFront(all: (Filter, Bytes), t: Bytes, written: bool) {
    && t == all.1 + all.0.pending && all.0.written == written
    && (all.1 == [] || (all.0.pending != [] && RuneStart(all.0.pending[0])))
  }

  lemma ConsumedRaw(p: Policy, pending: Bytes, written: bool)
    requires LastEnd(pending) == 0
    ensures var step := Consumed(p, pending, written);
            && pending == step.1 + step.0.pending && step.0.written == written
            && (step.1 != [] ==> step.0.pending != [] && RuneStart(step.0.pending[0]))
  {
    ConsumedUnfinished(p, pending, written);
    if Overlong(p, pending) {
      SplitAt(pending, CutOf(pending));
    } else {
      SplitAt(pending, 0);
    }
  }

  /** What the filter does with an unfinished sentence. */
  lemma ConsumedUnfinished(p: Policy, v: Bytes, w: bool)
    requires LastEnd(v) == 0
    ensures Consumed(p, v, w) ==
            if Overlong(p, v) then (Filter(v[CutOf(v)..], w), v[..CutOf(v)]) else (Filter(v, w), [])
  {
  }

  lemma SplitAt(t: Bytes, n: nat)
    requires n <= |t|
    ensures t[..n] + t[n..] == t && (n == 0 ==> t[..n] == [] && t[n..] == t)
  {
  }

  lemma PushKeepsRaw(p: Policy, all: (Filter, Bytes), t: Bytes, fragment: Bytes, written: bool)
    requires RawFront(all, t, written) && NoStops(t + fragment)
    ensures var step := Pushed(p, all.0, fragment); RawFront((step.0, all.1 + step.1), t + fragment, written)
  {
    var pending := all.0.pending + fragment;
    JoinAssoc(all.1, all.0.pending, fragment);
    NoStopsTail(all.1, pending);
    ConsumedRaw(p, pending, all.0.written);
    var step := Consumed(p, pending, all.0.written);
    JoinAssoc(all.1, step.1, step.0.pending);
    if step.1 == [] && all.1 != [] {
      assert step.0.pending == pending && pending[0] == all.0.pending[0];
    }
  }

  lemma {:induction false} MiddleKeepsRaw(p: Policy, f: Filter, middle: seq<Bytes>)
    requires NoStops(f.pending + Concat(middle))
    ensures RawFront(Resumed(p, f, middle), f.pending + Concat(middle), f.written)
  {
    if middle == [] {
      assert f.pending + [] == f.pending == [] + f.pending;
    } else {
      var n := |middle| - 1;
      var before := f.pending + Concat(middle[..n]);
      assert f.pending + Concat(middle) == before + middle[n];
      NoStopsFront(before, middle[n]);
      MiddleKeepsRaw(p, f, middle[..n]);
      PushKeepsRaw(p, Resumed(p, f, middle[..n]), before, middle[n], f.written);
    }
  }

  /** A rune start is never inside a stop, so the tail of a cut sentence ends where it does. */
  lemma FirstEndBehind(q: Bytes, v: Bytes)
    requires v != [] && (q == [] || RuneStart(v[0])) && FirstEnd(q + v, 0) > |q|
    ensures FirstEnd(v, 0) == FirstEnd(q + v, 0) - |q| && FirstSentence(q + v) == q + FirstSentence(v)
  {
    var u := q + v;
    var x, y := FirstEnd(v, 0), FirstEnd(u, 0);
    EndsBehindRune(q, v, x);
    EndsBehindRune(q, v, y - |q|);
    assert x == |v| || EndsAt(v, x);
    assert y == |u| || EndsAt(u, y);
    assert u[..y] == q + v[..y - |q|];
  }

  lemma EndsBehindRune(q: Bytes, v: Bytes, e: nat)
    requires v != [] && (q == [] || RuneStart(v[0])) && 0 < e <= |v|
    ensures EndsAt(v, e) <==> EndsAt(q + v, |q| + e)
  {
    var u := q + v;
    assert u[|q|..] == v && u[|q|] == v[0];
    EndsInTail(u, |q|, e);
  }

  // ---------------------------------------------------------------- one cut sentence

  function CutOf(t: Bytes): (c: nat)
    requires |t| > BUFFER_LIMIT
    ensures c <= |t| - TAIL_BYTES && (c == 0 || RuneStart(t[c]))
  {
    BackToRune(t, |t| - TAIL_BYTES)
  }

  /** What replaces an identity statement is shorter than the front `q` that was put out raw, and
      an identity statement in the rest `r` is shortened by its replacement: below nothing when
      the answer was given before, and otherwise below what a later answer saves. */
  ghost predicate Terse(p: Policy, q: Bytes, r: Bytes, written: bool, more: bool) {
    && |p.indent(q + r)| + |p.answer(p.LanguageOf(q + r))| + 2 < |q|
    && (written ==> |p.indent(r)| + 2 < |r|)
    && (!written && more ==> forall l :: |p.indent(r)| + |p.answer(p.LanguageOf(r))| + 2 < |r| + |p.answer(l)|)
  }

  /** The sentence `q + r` with its front raw, and whole, in front of the same rest. */
  lemma CutComparedIff(p: Policy, q: Bytes, r: Bytes, rest: Bytes, w: bool)
    requires Terse(p, q, r, w, rest != [])
    ensures var one, raw := One(p, q + r, w), One(p, r, w);
            (q + (raw.0 + Fold(p, rest, raw.1).0), Fold(p, rest, raw.1).1) == Then(one, Fold(p, rest, one.1))
            <==> !p.Identity(q + r) && !p.Identity(r)
  {
    var one, raw := One(p, q + r, w), One(p, r, w);
    AnswerLength(p, rest);
    if p.Identity(q + r) {
      CutLonger(p, q, r, rest, w);
    } else if p.Identity(r) {
      CutShorter(p, q, r, rest, w);
    } else {
      JoinAssoc(q, r, Fold(p, rest, w).0);
    }
  }

  lemma CutLonger(p: Policy, q: Bytes, r: Bytes, rest: Bytes, w: bool)
    requires Terse(p, q, r, w, rest != []) && p.Identity(q + r)
    ensures var one, raw := One(p, q + r, w), One(p, r, w);
            |q + (raw.0 + Fold(p, rest, raw.1).0)| > |Then(one, Fold(p, rest, one.1)).0|
  {
    AnswerLength(p, rest);
    var one, raw := One(p, q + r, w), One(p, r, w);
    assert |one.0| < |q| && one.1;
    assert |Fold(p, rest, raw.1).0| >= |Fold(p, rest, true).0|;
  }

  lemma CutShorter(p: Policy, q: Bytes, r: Bytes, rest: Bytes, w: bool)
    requires Terse(p, q, r, w, rest != []) && !p.Identity(q + r) && p.Identity(r)
    ensures var one, raw := One(p, q + r, w), One(p, r, w);
            || |q + (raw.0 + Fold(p, rest, raw.1).0)| < |Then(one, Fold(p, rest, one.1)).0|
            || Fold(p, rest, raw.1).1 != Fold(p, rest, one.1).1
  {
    AnswerLength(p, rest);
    var one, raw := One(p, q + r, w), One(p, r, w);
    assert raw.1 && one == (q + r, w);
    if !w && Fold(p, rest, false).1 {
      assert rest != [];
      var l :| |Fold(p, rest, false).0| == |Fold(p, rest, true).0| + |p.answer(l)|;
      assert |raw.0| < |r| + |p.answer(l)|;
    }
  }

  /** What comes before the cut sentence, what is put out raw of it, and what the filter holds. */
  lemma DoneOf(p: Policy, first: bool, all: (Filter, Bytes), t: Bytes) returns (done: Bytes)
    requires InStep(p, first, all, t)
    ensures t == done + all.0.pending && Closed(done) && Fold(p, done, first) == (all.1, all.0.written)
  {
    done := t[..|t| - |all.0.pending|];
  }

  lemma CleanAt(p: Policy, t: Bytes, i: nat, j: nat, s: Bytes)
    requires Clean(p, t) && i <= j <= |t| && t[i..j] == s
    ensures p.strip(s) == s
  {
    assert Plain(p, t, i, j);
  }

  lemma CleanTail(p: Policy, a: Bytes, b: Bytes)
    requires Clean(p, a + b)
    ensures Clean(p, b)
  {
    forall i: nat, j: nat | i <= j <= |b| ensures Plain(p, b, i, j) {
      assert Plain(p, a + b, |a| + i, |a| + j) && (a + b)[|a| + i..|a| + j] == b[i..j];
    }
  }

  /** The flush of a filter that waits for the ends of its sentences. */
  lemma ResumedFlush(p: Policy, f: Filter, later: seq<Bytes>)
    requires NoStops(f.pending) && Clean(p, f.pending + Concat(later)) && Unhurried(p, f, later)
    ensures var all := Resumed(p, f, later);
            Then((all.1, all.0.written), Sanitized(p, all.0.pending, all.0.written))
            == Fold(p, f.pending + Concat(later), f.written)
  {
    ResumeKeepsStep(p, f, later);
    StepFlush(p, f.written, Resumed(p, f, later), f.pending + Concat(later));
  }

  lemma StepFlush(p: Policy, first: bool, all: (Filter, Bytes), t: Bytes)
    requires InStep(p, first, all, t) && Clean(p, t)
    ensures Then((all.1, all.0.written), Sanitized(p, all.0.pending, all.0.written)) == Fold(p, t, first)
  {
    var c := |t| - |all.0.pending|;
    assert t[c..|t|] == t[c..];
    CleanAt(p, t, c, |t|, all.0.pending);
    FlushCompletes(p, first, all, t);
  }

  /** The three parts of a stream: before the cut sentence, in it, and behind the cut. */
  lemma FlushedInParts(p: Policy, front: seq<Bytes>, middle: seq<Bytes>, later: seq<Bytes>)
    ensures var x := Streamed(p, front); var y := Resumed(p, x.0, middle); var z := Resumed(p, y.0, later);
            var end := Then((z.1, z.0.written), Sanitized(p, z.0.pending, z.0.written));
            Flushed(p, front + middle + later) == (x.1 + (y.1 + end.0), end.1)
  {
    ResumedJoin(p, FRESH, front, middle);
    ResumedJoin(p, FRESH, front + middle, later);
    var x := Streamed(p, front);
    var y := Resumed(p, x.0, middle);
    var z := Resumed(p, y.0, later);
    var rest := Sanitized(p, z.0.pending, z.0.written).0;
    JoinAssoc(x.1 + y.1, z.1, rest);
    JoinAssoc(x.1, y.1, z.1 + rest);
  }

  /** The limit of the buffer shows. Take any stream that cuts one sentence, once or more often:
      no sentence is cut by the pushes of `front`, no sentence ends in `middle`, which puts out
      the raw front `q`, and nothing is cut by `later`. It agrees with the whole-text sanitiser
      exactly when neither that sentence nor what is left of it behind the cut is an identity
      statement. */
  lemma CutShowsIff(p: Policy, front: seq<Bytes>, middle: seq<Bytes>, later: seq<Bytes>)
    requires Clean(p, Concat(front + middle + later)) && Unhurried(p, FRESH, front)
    requires var f := Streamed(p, front).0;
             && NoStops(f.pending + Concat(middle)) && Resumed(p, f, middle).1 != []
             && Unhurried(p, Resumed(p, f, middle).0, later)
    ensures var f := Streamed(p, front).0;
            var q, v := Resumed(p, f, middle).1, Resumed(p, f, middle).0.pending + Concat(later);
            var r := FirstSentence(v);
            && FirstSentence(f.pending + Concat(middle) + Concat(later)) == q + r
            && (Terse(p, q, r, f.written, |r| < |v|) ==>
                  (Flushed(p, front + middle + later) == Sanitized(p, Concat(front + middle + later), false)
                   <==> !p.Identity(q + r) && !p.Identity(r)))
  {
    var x := Streamed(p, front);
    var y := Resumed(p, x.0, middle);
    var before, whole := Concat(front), Concat(front + middle + later);
    ConcatJoin(front, middle);
    ConcatJoin(front + middle, later);
    JoinAssoc(before, Concat(middle), Concat(later));
    CleanPrefix(p, before, whole);
    StreamKeepsStep(p, front);
    MiddleKeepsRaw(p, x.0, middle);
    CutInParts(p, before, x, Concat(middle), y, Concat(later));
    ResumedFlush(p, y.0, later);
    FlushedInParts(p, front, middle, later);
    SentenceComparedIff(p, x.1, y.1, y.0.pending + Concat(later), x.0.written);
  }

  lemma CutInParts(p: Policy, before: Bytes, x: (Filter, Bytes), middle: Bytes, y: (Filter, Bytes), later: Bytes)
    requires InStep(p, false, x, before) && RawFront(y, x.0.pending + middle, x.0.written) && y.1 != []
    requires NoStops(x.0.pending + middle) && Clean(p, before + (middle + later))
    ensures var q, v, whole := y.1, y.0.pending + later, before + (middle + later);
            && Sanitized(p, whole, false) == (x.1 + Fold(p, q + v, x.0.written).0, Fold(p, q + v, x.0.written).1)
            && v != [] && Clean(p, v) && NoStops(y.0.pending)
            && x.0.pending + middle + later == q + v && FirstSentence(q + v) == q + FirstSentence(v)
  {
    var q, v := y.1, y.0.pending + later;
    var done := DoneOf(p, false, x, before);
    JoinAssoc(q, y.0.pending, later);
    JoinAssoc(x.0.pending, middle, later);
    JoinAssoc(done, x.0.pending, middle + later);
    assert before + (middle + later) == done + (q + v);
    WholeInParts(p, done, q, v, x.1, x.0.written);
    CleanTail(p, done, q + v);
    CleanTail(p, q, v);
    NoStopsTail(q, y.0.pending);
    CutSentence(q, y.0.pending, later);
  }

  lemma WholeInParts(p: Policy, done: Bytes, q: Bytes, v: Bytes, out: Bytes, w: bool)
    requires Closed(done) && Fold(p, done, false) == (out, w) && Clean(p, done + (q + v))
    ensures Sanitized(p, done + (q + v), false) == (out + Fold(p, q + v, w).0, Fold(p, q + v, w).1)
  {
    var whole := done + (q + v);
    CleanAt(p, whole, 0, |whole|, whole);
    FoldSplit(p, done, q + v, false);
  }

  /** The sentence that `q` begins goes on behind the cut. */
  lemma CutSentence(q: Bytes, held: Bytes, later: Bytes)
    requires NoStops(q + held) && held != [] && RuneStart(held[0])
    ensures FirstSentence(q + (held + later)) == q + FirstSentence(held + later)
    ensures FirstEnd(q + (held + later), 0) > |q|
  {
    var v := held + later;
    var u := q + v;
    assert forall e: nat :: e <= |q + held| ==> (EndsAt(u, e) <==> EndsAt(q + held, e));
    assert FirstEnd(u, 0) > |q|;
    FirstEndBehind(q, v);
  }

  lemma SentenceComparedIff(p: Policy, out: Bytes, q: Bytes, v: Bytes, w: bool)
    requires v != [] && FirstSentence(q + v) == q + FirstSentence(v)
    ensures var r := FirstSentence(v);
            Terse(p, q, r, w, |r| < |v|) ==>
              ((out + (q + Fold(p, v, w).0), Fold(p, v, w).1) == (out + Fold(p, q + v, w).0, Fold(p, q + v, w).1)
               <==> !p.Identity(q + r) && !p.Identity(r))
  {
    var r := FirstSentence(v);
    var rest := v[|r|..];
    assert (q + v)[|q + r|..] == rest;
    FoldFirst(p, v, w);
    FoldFirst(p, q + v, w);
    SameBehind(out, q + Fold(p, v, w).0, Fold(p, q + v, w).0);
    if Terse(p, q, r, w, |r| < |v|) {
      CutComparedIff(p, q, r, rest, w);
    }
  }

  lemma SameBehind(a: Bytes, b: Bytes, c: Bytes)
    ensures a + b == a + c <==> b == c
  {
    assert (a + b)[|a|..] == b && (a + c)[|a|..] == c;
  }

  // ---------------------------------------------------------------- streams that end with the cut

  /** What replaces an identity statement is shorter than what the cut has put out, and an
      identity statement is more than white space. */
  predicate ShortAnswers(p: Policy, t: Bytes, written: bool)
    requires |t| > BUFFER_LIMIT
  {
    var tail := t[CutOf(t)..];
    && |p.indent(t)| + |p.answer(p.LanguageOf(t))| + 2 < CutOf(t)
    && (written ==> |p.indent(tail)| + 2 < |tail|)
  }

  /** A stream whose last push is the first to cut. */
  lemma FirstCutShowsIff(p: Policy, front: seq<Bytes>, last: Bytes)
    requires Clean(p, Concat(front + [last])) && Unhurried(p, FRESH, front)
    requires !Waits(p, Streamed(p, front).0.pending + last)
    ensures var f := Streamed(p, front).0;
            var t := f.pending + last;
            ShortAnswers(p, t, f.written) ==>
              (Flushed(p, front + [last]) == Sanitized(p, Concat(front + [last]), false)
               <==> !p.Identity(t) && !p.Identity(t[CutOf(t)..]))
  {
    var f := Streamed(p, front).0;
    var t := f.pending + last;
    if ShortAnswers(p, t, f.written) {
      var none: seq<Bytes> := [];
      assert front + [last] + none == front + [last];
      ConcatOne(last);
      ResumedOne(p, f, last);
      LastCut(p, t, f.written);
      CutShowsIff(p, front, [last], none);
    }
  }

  lemma LastCut(p: Policy, t: Bytes, written: bool)
    requires !Waits(p, t) && CutOf(t) > 0
    ensures var cut := CutOf(t);
            && Consumed(p, t, written) == (Filter(t[cut..], written), t[..cut])
            && NoStops(t) && t[..cut] != [] && t[..cut] + t[cut..] == t
            && t[cut..] + [] == t[cut..] && FirstSentence(t[cut..]) == t[cut..]
  {
    var cut := CutOf(t);
    assert t[..cut] + t[cut..] == t;
    assert NoStops(t);
    NoStopsTail(t[..cut], t[cut..]);
  }

  lemma ConcatOne(t: Bytes)
    ensures Concat([t]) == t
  {
    assert [t][..0] == [] && [] + t == t;
  }

  lemma ResumedOne(p: Policy, f: Filter, fragment: Bytes)
    ensures Resumed(p, f, [fragment]) == Pushed(p, f, fragment)
  {
    assert [fragment][..0] == [];
    var step := Pushed(p, f, fragment);
    assert [] + step.1 == step.1;
  }

  /** One push of an unfinished text. */
  lemma RawTextIff(p: Policy, t: Bytes)
    requires NoStops(t) && Clean(p, t) && Overlong(p, t) && ShortAnswers(p, t, false)
    ensures Flushed(p, [t]) == Sanitized(p, t, false) <==> !p.Identity(t) && !p.Identity(t[CutOf(t)..])
  {
    ConcatOne(t);
    assert [] + [t] == [t] && FRESH.pending + t == t && LastEnd(t) == 0;
    FirstCutShowsIff(p, [], t);
  }

  /** A provider name in 1025 bytes without a stop: the sanitiser gives one sentence, the stream
      puts 769 raw bytes before it. */
  lemma RawTextShows(t: Bytes)
    requires |t| == 1025 && forall i :: 0 <= i < |t| ==> t[i] == 0x43
    ensures Sanitized(NamePolicy(), t, false) == ([0x49], true)
    ensures Flushed(NamePolicy(), [t]) == (t[..769] + [0x49], true)
  {
    var p, tail := NamePolicy(), t[769..];
    NameAnswer(t);
    NameAnswer(tail);
    assert BackToRune(t, 769) == 769 && LastEnd(t) == 0;
    assert [] + t == t && t[..769] + tail == t;
    assert NoStops(t);
    NoStopsTail(t[..769], tail);
    FoldOne(p, t, false);
    FoldOne(p, tail, false);
    ResumedOne(p, FRESH, t);
  }

  lemma NameAnswer(s: Bytes)
    requires s != [] && s[0] == s[|s| - 1] == 0x43
    ensures One(NamePolicy(), s, false) == ([0x49], true)
  {
    assert NamePolicy().provider(s);
    assert LineBreak(s) == [] by {
      if |s| >= 2 {
        assert s[|s| - 2..][1] == 0x43;
      }
    }
    assert [] + [0x49] + [] == [0x49];
  }

  /** Every text with a "C" is an identity statement, and the answer is "I". */
  function NamePolicy(): Policy {
    Policy(s => s, s => false, s => false, (s: Bytes) => 0x43 in s, s => false,
      s => [], s => false, s => false, l => [0x49])
  }
}
