/** The sentence-wise identity sanitiser and its streaming form: internal/web/public_identity.go
    lines 244-305, 389-454 and 506-514. Texts are bytes and need not be valid UTF-8. */
module PublicIdentity {
  import opened Basics

  datatype Language = English | Chinese | Japanese

  /** The patterns and phrases, which are data here: `strip` removes citation markers, `self`,
      `bare`, `provider` and `localized` recognise an identity statement, `indent` is the
      leading white space, `answer` is the identity sentence for the configured model. */
  datatype Policy = Policy(
    strip: Bytes -> Bytes,
    self: Bytes -> bool,
    bare: Bytes -> bool,
    provider: Bytes -> bool,
    localized: Bytes -> bool,
    indent: Bytes -> Bytes,
    han: Bytes -> bool,
    kana: Bytes -> bool,
    answer: Language -> Bytes)
  {
    predicate Identity(s: Bytes) {
      self(s) || bare(s) || provider(s) || localized(s)
    }

    function LanguageOf(s: Bytes): Language {
      if han(s) then (if kana(s) then Japanese else Chinese) else English
    }
  }

  // ---------------------------------------------------------------- sentence ends

  predicate In(t: Bytes, i: nat, low: int, high: int) {
    i < |t| && low <= t[i] <= high
  }

  /** How many bytes one step of Go's range loop takes: a well-formed rune, else one byte. */
  function Width(t: Bytes, i: nat): (w: nat)
    requires i < |t|
    ensures 1 <= w <= 4 && i + w <= |t|
    ensures forall j :: i < j < i + w ==> 0x80 <= t[j] <= 0xBF
  {
    var b := t[i];
    if 0xC2 <= b <= 0xDF && In(t, i + 1, 0x80, 0xBF) then 2
    else if 0xE0 <= b <= 0xEF && In(t, i + 1, if b == 0xE0 then 0xA0 else 0x80, if b == 0xED then 0x9F else 0xBF)
            && In(t, i + 2, 0x80, 0xBF) then 3
    else if 0xF0 <= b <= 0xF4 && In(t, i + 1, if b == 0xF0 then 0x90 else 0x80, if b == 0xF4 then 0x8F else 0xBF)
            && In(t, i + 2, 0x80, 0xBF) && In(t, i + 3, 0x80, 0xBF) then 4
    else 1
  }

  /** A full stop, exclamation mark, question mark or line feed. */
  predicate NarrowStop(b: Byte) {
    b == 0x2E || b == 0x21 || b == 0x3F || b == 0x0A
  }

  /** The ideographic full stop and the full-width exclamation and question marks. */
  predicate WideStop(a: Byte, b: Byte, c: Byte) {
    (a == 0xE3 && b == 0x80 && c == 0x82) || (a == 0xEF && b == 0xBC && (c == 0x81 || c == 0x9F))
  }

  predicate WideAt(t: Bytes, i: nat) {
    i + 3 <= |t| && WideStop(t[i], t[i + 1], t[i + 2])
  }

  /** The rune at `i` is one of the seven stops. */
  predicate StopAt(t: Bytes, i: nat)
    requires i < |t|
  {
    if Width(t, i) == 3 then WideAt(t, i) else Width(t, i) == 1 && NarrowStop(t[i])
  }

  /** A sentence ends before `e`: told from the last three bytes, whatever precedes them. */
  predicate EndsAt(t: Bytes, e: nat) {
    0 < e <= |t| && (NarrowStop(t[e - 1]) || (e >= 3 && WideStop(t[e - 3], t[e - 2], t[e - 1])))
  }

  predicate Closed(t: Bytes) {
    t == [] || EndsAt(t, |t|)
  }

  ghost predicate NoStops(t: Bytes) {
    forall e: nat :: !EndsAt(t, e)
  }

  /** No wide stop lies across `i`: what the rune loop keeps about its index. */
  predicate Clear(t: Bytes, i: nat) {
    !(i >= 1 && WideAt(t, i - 1)) && !(i >= 2 && WideAt(t, i - 2))
  }

  /** One step of the rune loop sees a stop exactly when a sentence ends at the next index, and
      passes over no other end. */
  lemma RuneStep(t: Bytes, i: nat)
    requires i < |t| && Clear(t, i)
    ensures var next := i + Width(t, i);
            && Clear(t, next) && (StopAt(t, i) <==> EndsAt(t, next))
            && forall e :: i < e < next ==> !EndsAt(t, e)
  {
  }

  /** The end of the first sentence. */
  function FirstEnd(t: Bytes, e: nat): (r: nat)
    requires e < |t|
    ensures e < r <= |t| && (r < |t| ==> EndsAt(t, r))
    ensures forall k: nat :: e < k < r ==> !EndsAt(t, k)
    decreases |t| - e
  {
    if EndsAt(t, e + 1) || e + 1 == |t| then e + 1 else FirstEnd(t, e + 1)
  }

  /** An end seen in a tail is an end of the whole; the converse holds at a sentence end,
      because no two stops overlap. */
  lemma EndsInTail(t: Bytes, c: nat, e: nat)
    requires c <= |t|
    ensures EndsAt(t[c..], e) ==> EndsAt(t, c + e)
    ensures (c == 0 || EndsAt(t, c)) && e > 0 && EndsAt(t, c + e) ==> EndsAt(t[c..], e)
  {
  }

  // ---------------------------------------------------------------- the whole-text sanitiser

  function LineBreak(s: Bytes): Bytes {
    if |s| >= 2 && s[|s| - 2..] == [0x0D, 0x0A] then [0x0D, 0x0A]
    else if |s| >= 1 && s[|s| - 1] == 0x0A then [0x0A]
    else []
  }

  /** One sentence: kept, or replaced by the identity sentence the first time and by nothing
      later; indentation and line break stay. */
  function SanitizeSegment(p: Policy, s: Bytes, written: bool): (Bytes, bool) {
    if !p.Identity(s) then (s, false)
    else if written then (p.indent(s) + LineBreak(s), true)
    else (p.indent(s) + p.answer(p.LanguageOf(s)) + LineBreak(s), true)
  }

  /** The sentences in turn, with the state carried along. */
  function Fold(p: Policy, t: Bytes, written: bool): (Bytes, bool)
    decreases |t|
  {
    if t == [] then ([], written)
    else
      var e := FirstEnd(t, 0);
      var head := SanitizeSegment(p, t[..e], written);
      Then(head, Fold(p, t[e..], written || head.1))
  }

  function Sanitized(p: Policy, t: Bytes, written: bool): (Bytes, bool) {
    if t == [] then ([], written) else Fold(p, p.strip(t), written)
  }

  function Then(first: (Bytes, bool), second: (Bytes, bool)): (Bytes, bool) {
    (first.0 + second.0, second.1)
  }

  /** The text may be cut at any sentence end. */
  lemma {:induction false} FoldSplit(p: Policy, a: Bytes, b: Bytes, written: bool)
    requires Closed(a)
    ensures Fold(p, a + b, written) == Then(Fold(p, a, written), Fold(p, b, Fold(p, a, written).1))
    decreases |a|
  {
    if a == [] {
      assert a + b == b;
      assert [] + Fold(p, b, written).0 == Fold(p, b, written).0;
    } else {
      FirstEndOfJoin(a, b);
      var e := FirstEnd(a, 0);
      FoldSplit(p, a[e..], b, written || SanitizeSegment(p, a[..e], written).1);
      SplitBehindHead(p, a, a + b, e, a[e..], a[e..] + b, b, written);
    }
  }

  lemma FoldHead(p: Policy, t: Bytes, e: nat, written: bool)
    requires t != [] && FirstEnd(t, 0) == e
    ensures var head := SanitizeSegment(p, t[..e], written);
            Fold(p, t, written) == Then(head, Fold(p, t[e..], written || head.1))
  {
  }

  lemma ThenAssoc(a: (Bytes, bool), b: (Bytes, bool), c: (Bytes, bool))
    ensures Then(a, Then(b, c)) == Then(Then(a, b), c)
  {
    assert a.0 + (b.0 + c.0) == (a.0 + b.0) + c.0;
  }

  lemma SplitBehindHead(p: Policy, a: Bytes, t: Bytes, e: nat, rest: Bytes, restOfT: Bytes, b: Bytes, written: bool)
    requires a != [] && t != [] && FirstEnd(a, 0) == e == FirstEnd(t, 0)
    requires a[..e] == t[..e] && a[e..] == rest && t[e..] == restOfT
    requires var w := written || SanitizeSegment(p, a[..e], written).1;
             Fold(p, restOfT, w) == Then(Fold(p, rest, w), Fold(p, b, Fold(p, rest, w).1))
    ensures Fold(p, t, written) == Then(Fold(p, a, written), Fold(p, b, Fold(p, a, written).1))
  {
    var head := SanitizeSegment(p, a[..e], written);
    var x := Fold(p, rest, written || head.1);
    FoldHead(p, a, e, written);
    FoldHead(p, t, e, written);
    ThenAssoc(head, x, Fold(p, b, x.1));
  }

  lemma FirstEndOfJoin(a: Bytes, b: Bytes)
    requires a != [] && Closed(a)
    ensures var e := FirstEnd(a, 0);
            && FirstEnd(a + b, 0) == e && (a + b)[..e] == a[..e] && (a + b)[e..] == a[e..] + b && Closed(a[e..])
  {
    var e := FirstEnd(a, 0);
    assert forall k: nat :: k <= |a| ==> (EndsAt(a + b, k) <==> EndsAt(a, k));
    if e < |a| {
      EndsInTail(a, e, |a| - e);
    }
  }

  lemma FoldOne(p: Policy, s: Bytes, written: bool)
    requires s != [] && forall e: nat :: e < |s| ==> !EndsAt(s, e)
    ensures var one := SanitizeSegment(p, s, written); Fold(p, s, written) == (one.0, written || one.1)
  {
    assert FirstEnd(s, 0) == |s|;
    assert s[..|s|] == s && s[|s|..] == [];
    var one := SanitizeSegment(p, s, written);
    assert one.0 + [] == one.0;
  }

  /** The loop of `sanitizePublicAssistantTextWithStateForModel`. */
  method Sanitize(p: Policy, raw: Bytes, identityWritten: bool) returns (out: Bytes, written: bool)
    ensures (out, written) == Sanitized(p, raw, identityWritten)
  {
    if |raw| == 0 {
      return [], identityWritten;
    }
    out, written := SanitizeSentences(p, p.strip(raw), identityWritten);
  }

  method SanitizeSentences(p: Policy, text: Bytes, identityWritten: bool) returns (out: Bytes, written: bool)
    ensures (out, written) == Fold(p, text, identityWritten)
  {
    out, written := [], identityWritten;
    var start: nat, index: nat := 0, 0;
    while index < |text|
      invariant Scanned(text, start, index)
      invariant (out, written) == Fold(p, text[..start], identityWritten)
      decreases |text| - index
    {
      start, index, out, written := ScanRune(p, text, start, index, out, written, identityWritten);
    }
    if start < |text| {
      out, written := WriteSegment(p, text, start, |text|, out, written, identityWritten);
    }
    assert text[..|text|] == text;
  }

  /** The body of the rune loop. */
  method ScanRune(p: Policy, text: Bytes, start0: nat, index0: nat, out0: Bytes, written0: bool, ghost first: bool)
    returns (start: nat, index: nat, out: Bytes, written: bool)
    requires Scanned(text, start0, index0) && index0 < |text|
    requires (out0, written0) == Fold(p, text[..start0], first)
    ensures Scanned(text, start, index) && index > index0
    ensures (out, written) == Fold(p, text[..start], first)
  {
    ScanStep(text, start0, index0);
    start, out, written := start0, out0, written0;
    index := index0 + Width(text, index0);
    if StopAt(text, index0) {
      out, written := WriteSegment(p, text, start0, index, out0, written0, first);
      start := index;
    }
  }

  /** The segment from `start` to `end` is sanitised and written. */
  method WriteSegment(p: Policy, text: Bytes, start: nat, end: nat, out0: Bytes, written0: bool, ghost first: bool)
    returns (out: Bytes, written: bool)
    requires start < end <= |text| && (start == 0 || EndsAt(text, start))
    requires forall e :: start < e < end ==> !EndsAt(text, e)
    requires (out0, written0) == Fold(p, text[..start], first)
    ensures (out, written) == Fold(p, text[..end], first)
  {
    NextSegment(p, text, start, end, first);
    var segment := SanitizeSegment(p, text[start..end], written0);
    out, written := out0 + segment.0, written0 || segment.1;
  }

  /** No sentence ends between `start`, where one begins, and `index`. */
  ghost predicate Scanned(t: Bytes, start: nat, index: nat) {
    && start <= index <= |t| && Clear(t, index) && (start == 0 || EndsAt(t, start))
    && forall e :: start < e <= index ==> !EndsAt(t, e)
  }

  lemma ScanStep(t: Bytes, start: nat, index: nat)
    requires Scanned(t, start, index) && index < |t|
    ensures var end := index + Width(t, index);
            if StopAt(t, index) then Scanned(t, end, end) && forall e :: start < e < end ==> !EndsAt(t, e)
            else Scanned(t, start, end)
  {
    RuneStep(t, index);
  }

  lemma NextSegment(p: Policy, t: Bytes, start: nat, end: nat, written: bool)
    requires start < end <= |t| && (start == 0 || EndsAt(t, start))
    requires forall e :: start < e < end ==> !EndsAt(t, e)
    ensures var before := Fold(p, t[..start], written);
            var one := SanitizeSegment(p, t[start..end], before.1);
            Fold(p, t[..end], written) == (before.0 + one.0, before.1 || one.1)
  {
    var s := t[start..end];
    assert t[..end] == t[..start] + s;
    FoldSplit(p, t[..start], s, written);
    forall e: nat | e < |s| ensures !EndsAt(s, e) {
      assert s == t[..end][start..];
      EndsInTail(t[..end], start, e);
      assert e > 0 ==> !EndsAt(t, start + e);
    }
    FoldOne(p, s, Fold(p, t[..start], written).1);
  }

  // ---------------------------------------------------------------- what a sentence becomes

  predicate EndsWith(t: Bytes, e: nat, stop: Bytes) {
    |stop| <= e <= |t| && t[e - |stop|..e] == stop
  }

  /** The seven stops are the full stop, the exclamation mark, the question mark, the line feed
      and, in UTF-8, U+3002, U+FF01 and U+FF1F. */
  lemma EndsIff(t: Bytes, e: nat)
    ensures EndsAt(t, e) <==>
            || EndsWith(t, e, [0x2E]) || EndsWith(t, e, [0x21]) || EndsWith(t, e, [0x3F]) || EndsWith(t, e, [0x0A])
            || EndsWith(t, e, [0xE3, 0x80, 0x82]) || EndsWith(t, e, [0xEF, 0xBC, 0x81])
            || EndsWith(t, e, [0xEF, 0xBC, 0x9F])
  {
    EndsWithOne(t, e, 0x2E);
    EndsWithOne(t, e, 0x21);
    EndsWithOne(t, e, 0x3F);
    EndsWithOne(t, e, 0x0A);
    EndsWithThree(t, e, 0xE3, 0x80, 0x82);
    EndsWithThree(t, e, 0xEF, 0xBC, 0x81);
    EndsWithThree(t, e, 0xEF, 0xBC, 0x9F);
  }

  lemma EndsWithOne(t: Bytes, e: nat, b: Byte)
    ensures EndsWith(t, e, [b]) <==> 0 < e <= |t| && t[e - 1] == b
  {
    if 0 < e <= |t| {
      assert t[e - 1..e] == [t[e - 1]];
    }
  }

  lemma EndsWithThree(t: Bytes, e: nat, a: Byte, b: Byte, c: Byte)
    ensures EndsWith(t, e, [a, b, c]) <==> 3 <= e <= |t| && t[e - 3] == a && t[e - 2] == b && t[e - 1] == c
  {
    if 3 <= e <= |t| {
      assert t[e - 3..e] == [t[e - 3], t[e - 2], t[e - 1]];
    }
  }

  /** What a sentence becomes: one that any of the four patterns recognises is replaced by the
      answer in its language, between its indentation and its line break, or by nothing when the
      answer was given before; any other stays. */
  lemma SentenceBecomes(p: Policy, s: Bytes, written: bool)
    requires s != [] && p.strip(s) == s && forall e: nat :: e < |s| ==> !EndsAt(s, e)
    ensures var hit := p.self(s) || p.bare(s) || p.provider(s) || p.localized(s);
            var answer := p.answer(if !p.han(s) then English else if p.kana(s) then Japanese else Chinese);
            var crlf := |s| >= 2 && s[|s| - 2] == 0x0D && s[|s| - 1] == 0x0A;
            var end := if crlf then [0x0D, 0x0A] else if s[|s| - 1] == 0x0A then [0x0A] else [];
            Sanitized(p, s, written) ==
            if !hit then (s, written)
            else if written then (p.indent(s) + end, true)
            else (p.indent(s) + answer + end, true)
  {
    FoldOne(p, s, written);
    if |s| >= 2 {
      assert s[|s| - 2..] == [s[|s| - 2], s[|s| - 1]];
    }
  }

  /** The sentence of `t` from `i` to `e`. */
  ghost predicate IsSentence(t: Bytes, i: nat, e: nat) {
    && i < e <= |t| && (i == 0 || EndsAt(t, i)) && (e == |t| || EndsAt(t, e))
    && forall k: nat :: i < k < e ==> !EndsAt(t, k)
  }

  ghost predicate Hit(p: Policy, t: Bytes, i: nat, e: nat)
    requires i <= e <= |t|
  {
    p.self(t[i..e]) || p.bare(t[i..e]) || p.provider(t[i..e]) || p.localized(t[i..e])
  }

  /** The sanitiser reports an identity statement exactly if some sentence matches a pattern. */
  lemma IdentifiedIff(p: Policy, t: Bytes)
    ensures var text := p.strip(t);
            Sanitized(p, t, false).1 <==>
            t != [] && exists i: nat, e: nat :: IsSentence(text, i, e) && Hit(p, text, i, e)
  {
    if t != [] {
      var text := p.strip(t);
      assert text[0..] == text;
      FoldIdentifies(p, text, 0);
    }
  }

  lemma {:induction false} FoldIdentifies(p: Policy, t: Bytes, i: nat)
    requires i <= |t| && (i == 0 || EndsAt(t, i) || i == |t|)
    ensures Fold(p, t[i..], false).1 <==> exists j: nat, e: nat :: i <= j && IsSentence(t, j, e) && Hit(p, t, j, e)
    decreases |t| - i
  {
    if i < |t| {
      var e := i + FirstEnd(t[i..], 0);
      SentenceFrom(t, i, e);
      var head := SanitizeSegment(p, t[i..e], false);
      assert t[i..][..e - i] == t[i..e] && t[i..][e - i..] == t[e..];
      FoldHead(p, t[i..], e - i, false);
      FoldIdentifies(p, t, e);
      StaysWritten(p, t[e..]);
      assert head.1 <==> Hit(p, t, i, e);
      forall j: nat, x: nat | i <= j && IsSentence(t, j, x) && Hit(p, t, j, x)
        ensures (j == i && x == e) || e <= j
      {
        assert j < e ==> j == i || !EndsAt(t, j);
      }
    }
  }

  /** The sentence that begins at `i`. */
  lemma SentenceFrom(t: Bytes, i: nat, e: nat)
    requires i < |t| && (i == 0 || EndsAt(t, i)) && e == i + FirstEnd(t[i..], 0)
    ensures IsSentence(t, i, e)
  {
    forall k: nat | i < k < e ensures !EndsAt(t, k) {
      EndsInTail(t, i, k - i);
    }
    EndsInTail(t, i, e - i);
  }

  /** A text in which no identity statement was found is returned as it is. */
  lemma {:induction false} UntouchedUnlessIdentified(p: Policy, t: Bytes)
    requires !Fold(p, t, false).1
    ensures Fold(p, t, false).0 == t
    decreases |t|
  {
    if t != [] {
      var e := FirstEnd(t, 0);
      StaysWritten(p, t[e..]);
      UntouchedUnlessIdentified(p, t[e..]);
    }
  }

  lemma {:induction false} StaysWritten(p: Policy, t: Bytes)
    ensures Fold(p, t, true).1
    decreases |t|
  {
    if t != [] {
      StaysWritten(p, t[FirstEnd(t, 0)..]);
    }
  }

  /** Once the identity sentence was written it is not written again: what follows does not
      depend on it. */
  lemma {:induction false} AnsweredOnce(p: Policy, q: Policy, t: Bytes)
    requires q == p.(answer := q.answer)
    ensures Fold(p, t, true) == Fold(q, t, true)
    decreases |t|
  {
    if t != [] {
      var e := FirstEnd(t, 0);
      assert p.Identity(t[..e]) == q.Identity(t[..e]);
      AnsweredOnce(p, q, t[e..]);
    }
  }

  // ---------------------------------------------------------------- the stream filter

  const BUFFER_LIMIT: nat := 1024
  const TAIL_BYTES: nat := 256

  datatype Filter = Filter(pending: Bytes, written: bool)

  function LastEnd(t: Bytes): (e: nat)
    ensures e <= |t| && (e > 0 ==> EndsAt(t, e))
    ensures forall k: nat :: e < k <= |t| ==> !EndsAt(t, k)
  {
    LastEndUpTo(t, |t|)
  }

  function LastEndUpTo(t: Bytes, n: nat): (e: nat)
    requires n <= |t|
    ensures e <= n && (e > 0 ==> EndsAt(t, e))
    ensures forall k: nat :: e < k <= n ==> !EndsAt(t, k)
  {
    if n == 0 || EndsAt(t, n) then n else LastEndUpTo(t, n - 1)
  }

  predicate RuneStart(b: Byte) {
    !(0x80 <= b <= 0xBF)
  }

  /** The last rune start at or before `n`, or 0. */
  function BackToRune(t: Bytes, n: nat): (c: nat)
    requires n < |t|
    ensures c <= n && (c == 0 || RuneStart(t[c]))
    ensures forall k :: c < k <= n ==> !RuneStart(t[k])
  {
    if n == 0 || RuneStart(t[n]) then n else BackToRune(t, n - 1)
  }

  /** The buffer is too long to wait for a sentence end. */
  predicate Overlong(p: Policy, pending: Bytes) {
    |pending| > BUFFER_LIMIT && !p.self(pending)
  }

  /** The filter and the output after `consume(false)`. */
  function Consumed(p: Policy, pending: Bytes, written: bool): (Filter, Bytes) {
    var end := LastEnd(pending);
    if end > 0 then
      var out := Sanitized(p, pending[..end], written);
      (Filter(pending[end..], out.1), out.0)
    else if !Overlong(p, pending) then (Filter(pending, written), [])
    else
      var cut := BackToRune(pending, |pending| - TAIL_BYTES);
      (Filter(pending[cut..], written), pending[..cut])
  }

  function Pushed(p: Policy, f: Filter, fragment: Bytes): (Filter, Bytes) {
    Consumed(p, f.pending + fragment, f.written)
  }

  /** From the filter `f` on: the filter and all it put out after the fragments. */
  function Resumed(p: Policy, f: Filter, fragments: seq<Bytes>): (Filter, Bytes) {
    if fragments == [] then (f, [])
    else
      var before := Resumed(p, f, fragments[..|fragments| - 1]);
      var step := Pushed(p, before.0, fragments[|fragments| - 1]);
      (step.0, before.1 + step.1)
  }

  const FRESH := Filter([], false)

  function Streamed(p: Policy, fragments: seq<Bytes>): (Filter, Bytes) {
    Resumed(p, FRESH, fragments)
  }

  /** And after the flush. */
  function Flushed(p: Policy, fragments: seq<Bytes>): (Bytes, bool) {
    var all := Streamed(p, fragments);
    Then((all.1, all.0.written), Sanitized(p, all.0.pending, all.0.written))
  }

  class StreamFilter {
    const policy: Policy
    const enabled: bool
    var pending: Bytes
    var identityWritten: bool

    function State(): Filter reads this {
      Filter(pending, identityWritten)
    }

    constructor (policy: Policy, enabled: bool)
      ensures this.policy == policy && this.enabled == enabled && State() == Filter([], false)
    {
      this.policy, this.enabled := policy, enabled;
      pending, identityWritten := [], false;
    }

    method Push(fragment: Bytes) returns (out: Bytes)
      modifies this
      ensures !enabled ==> State() == old(State()) && out == fragment
      ensures enabled ==> (State(), out) == Pushed(policy, old(State()), fragment)
    {
      if !enabled {
        return fragment;
      }
      pending := pending + fragment;
      out := Consume();
    }

    method Consume() returns (out: Bytes)
      modifies this
      ensures (State(), out) == Consumed(policy, old(pending), old(identityWritten))
    {
      var end := LastBoundary(pending);
      if end > 0 {
        var chunk := pending[..end];
        pending := pending[end..];
        out, identityWritten := Sanitize(policy, chunk, identityWritten);
        return;
      }
      if |pending| <= BUFFER_LIMIT || policy.self(pending) {
        return [];
      }
      var cut := CutBefore(pending, |pending| - TAIL_BYTES);
      out := pending[..cut];
      pending := pending[cut..];
    }

    method Flush() returns (out: Bytes)
      modifies this
      ensures State().pending == []
      ensures !enabled ==> out == old(pending) && identityWritten == old(identityWritten)
      ensures enabled ==> (out, identityWritten) == Sanitized(policy, old(pending), old(identityWritten))
    {
      if !enabled {
        out := pending;
        pending := [];
        return;
      }
      out, identityWritten := Sanitize(policy, pending, identityWritten);
      pending := [];
    }
  }

  /** The backward loop of `consume`. */
  method CutBefore(t: Bytes, n: nat) returns (cut: nat)
    requires n < |t|
    ensures cut == BackToRune(t, n)
  {
    cut := n;
    while cut > 0 && !RuneStart(t[cut])
      invariant cut < |t| && BackToRune(t, n) == BackToRune(t, cut)
    {
      cut := cut - 1;
    }
  }

  /** `lastPublicIdentityBoundary`. */
  method LastBoundary(value: Bytes) returns (last: nat)
    ensures last == LastEnd(value)
  {
    last := 0;
    var index := 0;
    while index < |value|
      invariant last <= index <= |value| && Clear(value, index)
      invariant last > 0 ==> EndsAt(value, last)
      invariant forall e: nat :: last < e <= index ==> !EndsAt(value, e)
      decreases |value| - index
    {
      RuneStep(value, index);
      if StopAt(value, index) {
        last := index + Width(value, index);
      }
      index := index + Width(value, index);
    }
  }

  /** What a push of an unfinished sentence does, in the numbers of the source: up to 1024 bytes,
      or self-identification, waits; anything longer is put out up to the last rune start that
      leaves at least 256 bytes. */
  lemma PushOfUnfinished(p: Policy, f: Filter, fragment: Bytes)
    requires NoStops(f.pending + fragment)
    ensures var v, step := f.pending + fragment, Pushed(p, f, fragment);
            && step.0.written == f.written
            && (|v| <= 1024 || p.self(v) ==> step == (Filter(v, f.written), []))
            && (|v| > 1024 && !p.self(v) ==>
                  && step.1 + step.0.pending == v && |step.0.pending| >= 256
                  && (step.1 == [] || !(0x80 <= step.0.pending[0] <= 0xBF))
                  && forall k :: |step.1| < k <= |v| - 256 ==> 0x80 <= v[k] <= 0xBF)
  {
    var v := f.pending + fragment;
    assert LastEnd(v) == 0;
    UnfinishedWaits(p, v, f.written);
    if Overlong(p, v) {
      CutAtRune(v, BackToRune(v, |v| - 256));
    }
  }

  lemma UnfinishedWaits(p: Policy, v: Bytes, w: bool)
    requires LastEnd(v) == 0
    ensures Consumed(p, v, w) ==
            if |v| > 1024 && !p.self(v)
            then (Filter(v[BackToRune(v, |v| - 256)..], w), v[..BackToRune(v, |v| - 256)]) else (Filter(v, w), [])
  {
  }

  lemma CutAtRune(v: Bytes, c: nat)
    requires c + 256 <= |v| && (c == 0 || RuneStart(v[c])) && forall k :: c < k <= |v| - 256 ==> !RuneStart(v[k])
    ensures v[..c] + v[c..] == v && |v[c..]| >= 256 && (v[..c] == [] || !(0x80 <= v[c..][0] <= 0xBF))
    ensures forall k :: |v[..c]| < k <= |v| - 256 ==> 0x80 <= v[k] <= 0xBF
  {
    assert v[c..][0] == v[c] && |v[..c]| == c;
    forall k | c < k <= |v| - 256 ensures 0x80 <= v[k] <= 0xBF {
      assert !RuneStart(v[k]);
    }
  }

  // ---------------------------------------------------------------- fragmentation

  /** No citation marker anywhere. */
  ghost predicate Clean(p: Policy, t: Bytes) {
    forall i: nat, j: nat :: i <= j <= |t| ==> Plain(p, t, i, j)
  }

  predicate Plain(p: Policy, t: Bytes, i: nat, j: nat)
    requires i <= j <= |t|
  {
    p.strip(t[i..j]) == t[i..j]
  }

  /** No stretch without a stop, from the start or from a sentence end, is overlong. */
  ghost predicate Calm(p: Policy, t: Bytes) {
    forall i: nat, j: nat :: i <= j <= |t| && (i == 0 || EndsAt(t, i)) && NoStops(t[i..j]) ==> !Overlong(p, t[i..j])
  }

  /** The stream never cuts an unfinished sentence. */
  ghost predicate Unhurried(p: Policy, f: Filter, fragments: seq<Bytes>) {
    forall n :: 0 <= n < |fragments| ==> Waits(p, Resumed(p, f, fragments[..n]).0.pending + fragments[n])
  }

  predicate Waits(p: Policy, pending: Bytes) {
    LastEnd(pending) > 0 || !Overlong(p, pending)
  }

  /** What the filter has put out is the sanitised text up to a sentence end, and it holds the
      rest, in which no sentence ends. `first` is the state the text begins with. */
  ghost predicate InStep(p: Policy, first: bool, all: (Filter, Bytes), t: Bytes) {
    var held := |all.0.pending|;
    && held <= |t| && t[|t| - held..] == all.0.pending && NoStops(all.0.pending)
    && Closed(t[..|t| - held]) && Fold(p, t[..|t| - held], first) == (all.1, all.0.written)
  }

  lemma PushKeepsStep(p: Policy, first: bool, all: (Filter, Bytes), t: Bytes, fragment: Bytes)
    requires InStep(p, first, all, t) && Clean(p, t + fragment) && Waits(p, all.0.pending + fragment)
    ensures var step := Pushed(p, all.0, fragment); InStep(p, first, (step.0, all.1 + step.1), t + fragment)
  {
    var done, pending := t[..|t| - |all.0.pending|], all.0.pending + fragment;
    var whole, end := t + fragment, LastEnd(pending);
    assert whole == done + pending;
    if end > 0 {
      ChunkKeepsStep(p, first, all, done, pending, end);
    } else {
      assert all.1 + [] == all.1;
      MakeStep(p, first, (Filter(pending, all.0.written), all.1), done);
    }
  }

  lemma ChunkKeepsStep(p: Policy, first: bool, all: (Filter, Bytes), done: Bytes, pending: Bytes, end: nat)
    requires Closed(done) && Fold(p, done, first) == (all.1, all.0.written)
    requires 0 < end == LastEnd(pending) && Clean(p, done + pending)
    ensures var chunk := Sanitized(p, pending[..end], all.0.written);
            InStep(p, first, (Filter(pending[end..], chunk.1), all.1 + chunk.0), done + pending)
  {
    var chunk, rest, c := pending[..end], pending[end..], |done|;
    assert (done + pending)[c..c + end] == chunk;
    assert Plain(p, done + pending, c, c + end);
    NoStopsAfterLast(pending);
    FoldChunk(p, first, all, done, chunk, rest);
    CutAt(done, pending, end);
  }

  lemma CutAt(a: Bytes, b: Bytes, n: nat)
    requires n <= |b|
    ensures a + b == (a + b[..n]) + b[n..]
  {
  }

  lemma FoldChunk(p: Policy, first: bool, all: (Filter, Bytes), done: Bytes, chunk: Bytes, rest: Bytes)
    requires Closed(done) && Fold(p, done, first) == (all.1, all.0.written)
    requires EndsAt(chunk, |chunk|) && p.strip(chunk) == chunk && NoStops(rest)
    ensures var out := Sanitized(p, chunk, all.0.written);
            InStep(p, first, (Filter(rest, out.1), all.1 + out.0), (done + chunk) + rest)
  {
    FoldSplit(p, done, chunk, first);
    ClosedJoin(done, chunk);
    var out := Fold(p, chunk, all.0.written);
    MakeStep(p, first, (Filter(rest, out.1), all.1 + out.0), done + chunk);
  }

  lemma MakeStep(p: Policy, first: bool, all: (Filter, Bytes), done: Bytes)
    requires Closed(done) && NoStops(all.0.pending) && Fold(p, done, first) == (all.1, all.0.written)
    ensures InStep(p, first, all, done + all.0.pending)
  {
    var t := done + all.0.pending;
    assert t[..|done|] == done && t[|done|..] == all.0.pending;
  }

  lemma NoStopsAfterLast(t: Bytes)
    ensures NoStops(t[LastEnd(t)..])
  {
    forall e: nat ensures !EndsAt(t[LastEnd(t)..], e) {
      EndsInTail(t, LastEnd(t), e);
    }
  }

  lemma ClosedJoin(a: Bytes, b: Bytes)
    requires EndsAt(b, |b|)
    ensures Closed(a + b)
  {
    assert (a + b)[|a|..] == b;
    EndsInTail(a + b, |a|, |b|);
  }

  lemma {:induction false} ResumeKeepsStep(p: Policy, f: Filter, fragments: seq<Bytes>)
    requires NoStops(f.pending) && Clean(p, f.pending + Concat(fragments)) && Unhurried(p, f, fragments)
    ensures InStep(p, f.written, Resumed(p, f, fragments), f.pending + Concat(fragments))
  {
    if fragments == [] {
      FreshStep(p, f);
    } else {
      var n := |fragments| - 1;
      var front := fragments[..n];
      JoinAssoc(f.pending, Concat(front), fragments[n]);
      CleanPrefix(p, f.pending + Concat(front), f.pending + Concat(fragments));
      UnhurriedFront(p, f, fragments);
      ResumeKeepsStep(p, f, front);
      PushStep(p, f.written, Resumed(p, f, front), f.pending + Concat(front), fragments[n],
        Resumed(p, f, fragments), f.pending + Concat(fragments));
    }
  }

  lemma PushStep(p: Policy, first: bool, all: (Filter, Bytes), t: Bytes, fragment: Bytes,
                 after: (Filter, Bytes), whole: Bytes)
    requires InStep(p, first, all, t) && whole == t + fragment && Clean(p, whole) && Waits(p, all.0.pending + fragment)
    requires var step := Pushed(p, all.0, fragment); after == (step.0, all.1 + step.1)
    ensures InStep(p, first, after, whole)
  {
    PushKeepsStep(p, first, all, t, fragment);
  }

  lemma ResumedSnoc(p: Policy, f: Filter, a: seq<Bytes>, x: Bytes)
    ensures var before := Resumed(p, f, a); var step := Pushed(p, before.0, x);
            Resumed(p, f, a + [x]) == (step.0, before.1 + step.1)
  {
    assert (a + [x])[..|a|] == a;
  }

  lemma FreshStep(p: Policy, f: Filter)
    requires NoStops(f.pending)
    ensures InStep(p, f.written, (f, []), f.pending + [])
  {
    MakeStep(p, f.written, (f, []), []);
    assert [] + f.pending == f.pending + [];
  }

  lemma UnhurriedFront(p: Policy, f: Filter, fragments: seq<Bytes>)
    requires fragments != [] && Unhurried(p, f, fragments)
    ensures var n := |fragments| - 1;
            Unhurried(p, f, fragments[..n]) && Waits(p, Resumed(p, f, fragments[..n]).0.pending + fragments[n])
  {
    var front := fragments[..|fragments| - 1];
    forall k | 0 <= k < |front| ensures Waits(p, Resumed(p, f, front[..k]).0.pending + front[k]) {
      assert front[..k] == fragments[..k] && front[k] == fragments[k];
    }
  }

  lemma StreamKeepsStep(p: Policy, fragments: seq<Bytes>)
    requires Clean(p, Concat(fragments)) && Unhurried(p, FRESH, fragments)
    ensures InStep(p, false, Streamed(p, fragments), Concat(fragments))
  {
    assert FRESH.pending + Concat(fragments) == Concat(fragments);
    ResumeKeepsStep(p, FRESH, fragments);
  }

  /** Fragmentation does not matter: however the text is split, down to single bytes, if no
      unfinished sentence was cut then the delivered text and the final state are those of the
      whole-text sanitiser. */
  lemma FragmentationDoesNotMatter(p: Policy, fragments: seq<Bytes>)
    requires Clean(p, Concat(fragments)) && Unhurried(p, FRESH, fragments)
    ensures Flushed(p, fragments) == Sanitized(p, Concat(fragments), false)
  {
    StreamKeepsStep(p, fragments);
    var t, all := Concat(fragments), Streamed(p, fragments);
    var c := |t| - |all.0.pending|;
    assert Plain(p, t, 0, |t|) && t[0..|t|] == t;
    assert Plain(p, t, c, |t|) && t[c..|t|] == all.0.pending;
    FlushCompletes(p, false, all, t);
  }

  lemma FlushCompletes(p: Policy, first: bool, all: (Filter, Bytes), t: Bytes)
    requires InStep(p, first, all, t) && p.strip(all.0.pending) == all.0.pending
    ensures Then((all.1, all.0.written), Sanitized(p, all.0.pending, all.0.written)) == Fold(p, t, first)
  {
    var c := |t| - |all.0.pending|;
    FoldSplit(p, t[..c], all.0.pending, first);
    assert t == t[..c] + all.0.pending;
  }

  /** A condition on the text alone that makes every fragmentation safe. */
  lemma {:induction false} CalmIsUnhurried(p: Policy, fragments: seq<Bytes>, t: Bytes)
    requires Concat(fragments) <= t && Clean(p, t) && Calm(p, t)
    ensures Unhurried(p, FRESH, fragments)
  {
    if fragments != [] {
      var n := |fragments| - 1;
      var front, before := fragments[..n], Concat(fragments[..n]);
      PrefixOfPrefix(before, fragments[n], t);
      CalmIsUnhurried(p, front, t);
      CleanPrefix(p, before, t);
      StreamKeepsStep(p, front);
      CalmWaits(p, false, Streamed(p, front), before, fragments[n], t);
      UnhurriedSnoc(p, FRESH, fragments);
    }
  }

  lemma PrefixOfPrefix(a: Bytes, b: Bytes, t: Bytes)
    requires a + b <= t
    ensures a <= t
  {
    assert a == (a + b)[..|a|] == t[..|a + b|][..|a|] == t[..|a|];
  }

  lemma CleanPrefix(p: Policy, a: Bytes, t: Bytes)
    requires a <= t && Clean(p, t)
    ensures Clean(p, a)
  {
    forall i: nat, j: nat | i <= j <= |a| ensures Plain(p, a, i, j) {
      assert Plain(p, t, i, j) && a[i..j] == t[i..j];
    }
  }

  lemma UnhurriedSnoc(p: Policy, f: Filter, fragments: seq<Bytes>)
    requires fragments != []
    requires var n := |fragments| - 1;
             Unhurried(p, f, fragments[..n]) && Waits(p, Resumed(p, f, fragments[..n]).0.pending + fragments[n])
    ensures Unhurried(p, f, fragments)
  {
    var front := fragments[..|fragments| - 1];
    forall k | 0 <= k < |fragments| ensures Waits(p, Resumed(p, f, fragments[..k]).0.pending + fragments[k]) {
      if k < |front| {
        assert front[..k] == fragments[..k] && front[k] == fragments[k];
      }
    }
  }

  lemma CalmWaits(p: Policy, first: bool, all: (Filter, Bytes), before: Bytes, fragment: Bytes, t: Bytes)
    requires InStep(p, first, all, before) && before + fragment <= t && Calm(p, t)
    ensures Waits(p, all.0.pending + fragment)
  {
    var c, upTo, pending := |before| - |all.0.pending|, before + fragment, all.0.pending + fragment;
    assert upTo[c..] == pending && t[..|upTo|] == upTo;
    assert t[c..|upTo|] == pending;
    assert c == 0 || EndsAt(before[..c], c);
    assert c == 0 || EndsAt(t, c);
    assert LastEnd(pending) == 0 ==> NoStops(pending);
  }

  /** A text in which no stretch is an identity statement passes unchanged, however it is split
      and however long its sentences are. */
  lemma {:induction false} NeutralPasses(p: Policy, fragments: seq<Bytes>)
    requires Clean(p, Concat(fragments)) && Neutral(p, Concat(fragments))
    ensures var all := Streamed(p, fragments); !all.0.written && all.1 + all.0.pending == Concat(fragments)
    ensures Flushed(p, fragments) == (Concat(fragments), false)
  {
    var t := Concat(fragments);
    if fragments != [] {
      var front, last := fragments[..|fragments| - 1], fragments[|fragments| - 1];
      var before := Concat(front);
      CleanPrefix(p, before, t);
      NeutralPrefix(p, before, t);
      NeutralPasses(p, front);
      NeutralPush(p, Streamed(p, front), before, last);
    }
    NeutralFlush(p, Streamed(p, fragments), t);
  }

  lemma NeutralFlush(p: Policy, all: (Filter, Bytes), t: Bytes)
    requires Clean(p, t) && Neutral(p, t) && !all.0.written && all.1 + all.0.pending == t
    ensures Then((all.1, all.0.written), Sanitized(p, all.0.pending, all.0.written)) == (t, false)
  {
    var c := |all.1|;
    assert all.0.pending == t[c..|t|] && Plain(p, t, c, |t|);
    NeutralFold(p, t, c, |t|);
  }

  lemma NeutralPrefix(p: Policy, a: Bytes, t: Bytes)
    requires a <= t && Neutral(p, t)
    ensures Neutral(p, a)
  {
    forall i: nat, j: nat | i <= j <= |a| ensures !Identifies(p, a, i, j) {
      assert !Identifies(p, t, i, j) && a[i..j] == t[i..j];
    }
  }

  lemma NeutralConsume(p: Policy, pending: Bytes, whole: Bytes, c: nat)
    requires c <= |whole| && pending == whole[c..] && Clean(p, whole) && Neutral(p, whole)
    ensures var step := Consumed(p, pending, false); !step.0.written && step.1 + step.0.pending == pending
  {
    var end := LastEnd(pending);
    var chunk := pending[..end];
    assert chunk == whole[c..c + end];
    NeutralFold(p, whole, c, c + end);
    assert Plain(p, whole, c, c + end);
    assert Sanitized(p, chunk, false) == (chunk, false);
    ConsumedAll(p, pending, false);
  }

  /** Whatever the filter does with a chunk that it leaves alone, no byte is lost. */
  lemma ConsumedAll(p: Policy, pending: Bytes, written: bool)
    requires Sanitized(p, pending[..LastEnd(pending)], written) == (pending[..LastEnd(pending)], written)
    ensures var step := Consumed(p, pending, written); step.1 + step.0.pending == pending && step.0.written == written
  {
    var end := LastEnd(pending);
    if end > 0 {
      assert pending[..end] + pending[end..] == pending;
    } else {
      UnfinishedWaits(p, pending, written);
      if Overlong(p, pending) {
        var c := BackToRune(pending, |pending| - 256);
        assert pending[..c] + pending[c..] == pending;
      }
    }
  }

  lemma JoinAssoc(a: Bytes, b: Bytes, c: Bytes)
    ensures (a + b) + c == a + (b + c)
  {
  }

  lemma NeutralPush(p: Policy, all: (Filter, Bytes), t: Bytes, fragment: Bytes)
    requires !all.0.written && all.1 + all.0.pending == t
    requires Clean(p, t + fragment) && Neutral(p, t + fragment)
    ensures var step := Pushed(p, all.0, fragment); !step.0.written && all.1 + step.1 + step.0.pending == t + fragment
  {
    var pending, whole, c := all.0.pending + fragment, t + fragment, |all.1|;
    assert whole == all.1 + pending;
    assert whole[c..] == pending;
    NeutralConsume(p, pending, whole, c);
    var step := Consumed(p, pending, false);
    JoinAssoc(all.1, step.1, step.0.pending);
  }

  ghost predicate Neutral(p: Policy, t: Bytes) {
    forall i: nat, j: nat :: i <= j <= |t| ==> !Identifies(p, t, i, j)
  }

  predicate Identifies(p: Policy, t: Bytes, i: nat, j: nat)
    requires i <= j <= |t|
  {
    p.Identity(t[i..j])
  }

  lemma {:induction false} NeutralFold(p: Policy, t: Bytes, i: nat, j: nat)
    requires i <= j <= |t| && Neutral(p, t)
    ensures Fold(p, t[i..j], false) == (t[i..j], false)
    decreases j - i
  {
    var s := t[i..j];
    if s != [] {
      var e := FirstEnd(s, 0);
      assert s[..e] == t[i..i + e] && s[e..] == t[i + e..j];
      NeutralFold(p, t, i + e, j);
      assert !Identifies(p, t, i, i + e);
      assert s == s[..e] + s[e..];
    }
  }
}
