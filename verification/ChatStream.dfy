/** Merging append fragments and cumulative snapshots into one delta stream and reconciling it
    with the final text: internal/chathub/client.go:173-184, 556-657, 867-884, 1086-1122 and
    1169-1184. Texts are byte strings. */
module ChatStream {
  import opened Basics

  datatype Error = Notice | Callback | Empty | Cancelled | Offensive

  /** What upstream sends: a cursor fragment or the text so far. */
  datatype Frame = Cursor(w: Bytes) | Snapshot(text: Bytes)

  // ---------------------------------------------------------------- as functions

  function CommonPrefix(a: Bytes, b: Bytes): (n: nat)
    ensures n <= |a| && n <= |b| && a[..n] == b[..n]
    ensures n < |a| && n < |b| ==> a[n] != b[n]
  {
    if a == [] || b == [] || a[0] != b[0] then 0 else 1 + CommonPrefix(a[1..], b[1..])
  }

  /** The text that a snapshot adds to what is already streamed; [] when it adds nothing. */
  function Unseen(streamed: Bytes, snapshot: Bytes): Bytes {
    if streamed <= snapshot then snapshot[|streamed|..]
    else if |snapshot| <= |streamed| then []
    else
      var overlap := CommonPrefix(streamed, snapshot);
      if overlap > 0 then snapshot[overlap..] else []
  }

  /** The text after one frame without a notice. */
  function Grown(streamed: Bytes, frame: Frame): Bytes {
    streamed + Added(streamed, frame)
  }

  /** What one frame adds. */
  function Added(streamed: Bytes, frame: Frame): Bytes {
    if frame.Cursor? && streamed != [] then frame.w else Unseen(streamed, TextOf(frame))
  }

  function TextOf(frame: Frame): Bytes {
    match frame case Cursor(w) => w case Snapshot(text) => text
  }

  function Streamed(frames: seq<Frame>): Bytes {
    if frames == [] then [] else Grown(Streamed(frames[..|frames| - 1]), frames[|frames| - 1])
  }

  /** The returned text and the tail that is still delivered. */
  function Finalized(streamed: Bytes, final: Bytes): (Bytes, Bytes) {
    if final == [] || |final| <= |streamed| then (if streamed == [] then final else streamed, [])
    else if streamed <= final then (final, final[|streamed|..])
    else (final, [])
  }

  // ---------------------------------------------------------------- delivery

  /** The consumer of the deltas: whether its request is cancelled, and which deltas it fails on. */
  datatype Client = Client(gone: bool, refuses: Bytes -> bool)

  /** What of a delta is streamed: nothing for a cancelled request, and all of it even if the
      consumer fails on it. */
  function Sent(client: Client, d: Bytes): Bytes {
    if client.gone then [] else d
  }

  function SendError(client: Client, d: Bytes): Option<Error> {
    if d == [] then None
    else if client.gone then Some(Cancelled)
    else if client.refuses(d) then Some(Callback)
    else None
  }

  /** What ends an answer, in this order: a notice before any text, a delta that is not
      delivered, an empty text, an offensive one. */
  function Outcome(streamed: Bytes, final: Bytes, notice: Bytes -> bool, client: Client,
                   offense: bool, blocked: Bytes -> bool): Result<Bytes, Error>
  {
    var end := Finalized(streamed, final);
    if streamed == [] && notice(final) then Failure(Notice)
    else if SendError(client, end.1).Some? then Failure(SendError(client, end.1).value)
    else if end.0 == [] then Failure(Empty)
    else if offense || blocked(end.0) then Failure(Offensive)
    else Success(end.0)
  }

  // ---------------------------------------------------------------- the code

  method CommonPrefixLen(a: Bytes, b: Bytes) returns (n: nat)
    ensures n == CommonPrefix(a, b)
  {
    var m := |a|;
    if |b| < m {
      m := |b|;
    }
    for i := 0 to m
      invariant a[..i] == b[..i]
    {
      if a[i] != b[i] {
        PrefixUnique(a, b, i);
        return i;
      }
    }
    PrefixUnique(a, b, m);
    return m;
  }

  lemma PrefixUnique(a: Bytes, b: Bytes, n: nat)
    requires n <= |a| && n <= |b| && a[..n] == b[..n] && (n < |a| && n < |b| ==> a[n] != b[n])
    ensures CommonPrefix(a, b) == n
  {
    var c := CommonPrefix(a, b);
    assert forall k :: 0 <= k < n ==> a[k] == a[..n][k] == b[..n][k] == b[k];
    assert forall k :: 0 <= k < c ==> a[k] == a[..c][k] == b[..c][k] == b[k];
  }

  /** One answer being received. `notice` recognises rate-limit, image-limit and content-policy
      notices, `blocked` content-policy texts. */
  class Receiver {
    var streamed: Bytes
    var deltas: seq<Bytes>
    var skipped: nat

    /** The delivered deltas are the streamed text. */
    ghost predicate Valid() reads this {
      Concat(deltas) == streamed
    }

    constructor ()
      ensures Valid() && streamed == []
    {
      streamed, deltas, skipped := [], [], 0;
    }

    method EmitDelta(d: Bytes, client: Client) returns (err: Option<Error>)
      requires Valid()
      modifies this`streamed, this`deltas
      ensures Valid() && streamed == old(streamed) + Sent(client, d) && err == SendError(client, d)
      ensures client.gone ==> streamed == old(streamed) && (d != [] ==> err == Some(Cancelled))
      ensures !client.gone ==> streamed == old(streamed) + d && err != Some(Cancelled)
      ensures !client.gone ==> (err == Some(Callback) <==> d != [] && client.refuses(d))
    {
      if |d| == 0 {
        return None;
      }
      if client.gone {
        return Some(Cancelled);
      }
      streamed := streamed + d;
      deltas := deltas + [d];
      assert deltas[..|deltas| - 1] == old(deltas);
      return if client.refuses(d) then Some(Callback) else None;
    }

    method EmitSnapshot(snapshot: Bytes, notice: Bytes -> bool, client: Client) returns (err: Option<Error>)
      requires Valid()
      modifies this
      ensures Valid()
      ensures var noticed := snapshot != [] && old(streamed) == [] && notice(snapshot);
              var unseen := Unseen(old(streamed), snapshot);
              && err == (if noticed then Some(Notice) else SendError(client, unseen))
              && streamed == old(streamed) + (if noticed then [] else Sent(client, unseen))
    {
      if |snapshot| == 0 {
        return None;
      }
      if |streamed| == 0 && notice(snapshot) {
        return Some(Notice);
      }
      var cur := streamed;
      if |cur| == 0 {
        assert snapshot[0..] == snapshot;
        err := EmitDelta(snapshot, client);
        return;
      }
      if cur <= snapshot {
        err := EmitDelta(snapshot[|cur|..], client);
        return;
      }
      if |snapshot| <= |cur| {
        return None;
      }
      var overlap := CommonPrefixLen(cur, snapshot);
      if overlap > 0 {
        err := EmitDelta(snapshot[overlap..], client);
        return;
      }
      skipped := skipped + 1;
      return None;
    }

    /** The handling of one frame in the read loop; an empty cursor fragment is ignored. */
    method Receive(frame: Frame, notice: Bytes -> bool, client: Client) returns (err: Option<Error>)
      requires Valid()
      modifies this
      ensures Valid()
      ensures var noticed := TextOf(frame) != [] && old(streamed) == [] && notice(TextOf(frame));
              var added := Added(old(streamed), frame);
              && err == (if noticed then Some(Notice) else SendError(client, added))
              && streamed == old(streamed) + (if noticed then [] else Sent(client, added))
      ensures err.None? ==> streamed == Grown(old(streamed), frame)
    {
      match frame
      case Cursor(w) =>
        if |w| > 0 {
          if |streamed| > 0 {
            err := EmitDelta(w, client);
          } else {
            err := EmitSnapshot(w, notice, client);
          }
        } else {
          err := None;
        }
      case Snapshot(text) =>
        if |text| > 0 {
          err := EmitSnapshot(text, notice, client);
        } else {
          err := None;
        }
    }

    /** The completion of the answer, `finalizeText` included. */
    method Complete(final: Bytes, notice: Bytes -> bool, client: Client, offense: bool, blocked: Bytes -> bool)
      returns (r: Result<Bytes, Error>)
      requires Valid()
      modifies this`streamed, this`deltas
      ensures Valid() && r == Outcome(old(streamed), final, notice, client, offense, blocked)
      ensures r != Failure(Notice) ==> streamed == old(streamed) + Sent(client, Finalized(old(streamed), final).1)
      // what was delivered differs from what is returned exactly on a diverging longer final text
      ensures r.Success? ==> (Concat(deltas) != r.value <==> |final| > |old(streamed)| && !(old(streamed) <= final))
    {
      if |streamed| == 0 && notice(final) {
        return Failure(Notice);
      }
      var text := final;
      if |final| == 0 || |final| <= |streamed| {
        text := if |streamed| == 0 then final else streamed;
      } else if streamed <= final {
        var err := EmitDelta(final[|streamed|..], client);
        if err.Some? {
          return Failure(err.value);
        }
      }
      if |text| == 0 {
        return Failure(Empty);
      }
      if offense || blocked(text) {
        return Failure(Offensive);
      }
      DeliveredIsReturnedIff(old(streamed), final);
      return Success(text);
    }
  }

  // ---------------------------------------------------------------- one growing text

  /** The upstream text after each frame: a fragment is appended, a snapshot is an earlier state
      of the text or an extension of it. */
  ghost predicate Consistent(frames: seq<Frame>, texts: seq<Bytes>) {
    && |texts| == |frames| + 1 && texts[0] == []
    && forall k :: 0 <= k < |frames| ==> Follows(texts[k], frames[k], texts[k + 1])
  }

  ghost predicate Follows(before: Bytes, frame: Frame, after: Bytes) {
    match frame
    case Cursor(w) => after == before + w
    case Snapshot(text) => (text <= before && after == before) || (before <= text && after == text)
  }

  /** On a consistent upstream the stream is the upstream text, after every frame. */
  lemma {:induction false} StreamIsText(frames: seq<Frame>, texts: seq<Bytes>)
    requires Consistent(frames, texts)
    ensures Streamed(frames) == texts[|frames|]
    decreases |frames|
  {
    if frames != [] {
      var n := |frames| - 1;
      var front, before, frame := frames[..n], texts[n], frames[n];
      assert Consistent(front, texts[..n + 1]) by {
        forall k | 0 <= k < n ensures Follows(texts[..n + 1][k], front[k], texts[..n + 1][k + 1]) {
          assert Follows(texts[k], frames[k], texts[k + 1]);
        }
      }
      StreamIsText(front, texts[..n + 1]);
      assert Follows(before, frame, texts[n + 1]);
      FollowedIsGrown(before, frame, texts[n + 1]);
    }
  }

  lemma FollowedIsGrown(before: Bytes, frame: Frame, after: Bytes)
    requires Follows(before, frame, after)
    ensures Grown(before, frame) == after
  {
    match frame
    case Cursor(w) => assert before == [] ==> Unseen(before, w) == w;
    case Snapshot(text) =>
      if before <= text {
        assert text == before + text[|before|..];
      }
      assert before + [] == before;
  }

  /** And the completed answer is what was delivered, when the final text is a state of the same
      growing text. */
  lemma CompleteIsText(frames: seq<Frame>, texts: seq<Bytes>, final: Bytes)
    requires Consistent(frames, texts)
    requires final <= texts[|frames|] || texts[|frames|] <= final
    ensures var streamed := Streamed(frames);
            && Finalized(streamed, final).0 == streamed + Finalized(streamed, final).1
            && Finalized(streamed, final).0 == if |final| > |texts[|frames|]| then final else texts[|frames|]
  {
    StreamIsText(frames, texts);
    var streamed := Streamed(frames);
    DeliveredIsReturnedIff(streamed, final);
    assert streamed + [] == streamed;
  }

  /** What a completed answer is: never empty, a notice, offensive or blocked. And an answer is
      refused as offensive exactly when its text, the longer of what was streamed and the final
      text, is not empty, could be delivered, and is flagged or blocked. */
  lemma OutcomeMeans(streamed: Bytes, final: Bytes, notice: Bytes -> bool, client: Client,
                     offense: bool, blocked: Bytes -> bool)
    ensures var r := Outcome(streamed, final, notice, client, offense, blocked);
            var text := if |final| > |streamed| then final else streamed;
            var tail := if streamed <= text then text[|streamed|..] else [];
            var delivered := tail == [] || (!client.gone && !client.refuses(tail));
            && (r.Success? ==>
                  r.value == text != [] && !offense && !blocked(text) && !(streamed == [] && notice(final)))
            && (r == Failure(Offensive) <==>
                  text != [] && delivered && !(streamed == [] && notice(final)) && (offense || blocked(text)))
  {
  }

  /** For any stream and any final text, the delivered and the returned text differ exactly when
      the final text is longer and does not extend what was streamed. */
  lemma DeliveredIsReturnedIff(streamed: Bytes, final: Bytes)
    ensures Finalized(streamed, final).0 != streamed + Finalized(streamed, final).1
            <==> |final| > |streamed| && !(streamed <= final)
  {
    assert streamed + [] == streamed;
    if |final| > |streamed| && streamed <= final {
      assert streamed + final[|streamed|..] == final;
    }
  }

  /** It happens: after "A" the final text "BB" is returned but cannot be delivered, and the
      snapshot "ABC" after "AD" leaves "ADBC". */
  lemma RewritesShow()
    ensures Finalized([0x41], [0x42, 0x42]) == ([0x42, 0x42], [])
    ensures [0x41, 0x44] + Unseen([0x41, 0x44], [0x41, 0x42, 0x43]) == [0x41, 0x44, 0x42, 0x43]
    ensures Unseen([0x41], [0x42, 0x43]) == []
  {
    PrefixUnique([0x41, 0x44], [0x41, 0x42, 0x43], 1);
  }

  /** A snapshot ends up as a prefix of the stream exactly when one of the two extends the other:
      the partial-overlap branch appends a tail without retracting what it replaces. */
  lemma SnapshotReachedIff(streamed: Bytes, snapshot: Bytes)
    ensures snapshot <= streamed + Unseen(streamed, snapshot) <==> snapshot <= streamed || streamed <= snapshot
  {
    var after := streamed + Unseen(streamed, snapshot);
    if streamed <= snapshot {
      assert after == snapshot;
    } else {
      var n := CommonPrefix(streamed, snapshot);
      if n < |snapshot| {
        assert streamed[..n] == snapshot[..n];
        assert n < |streamed|;
        assert after[n] != snapshot[n];
      } else {
        assert snapshot == streamed[..n];
        assert snapshot <= streamed;
        assert after[..|snapshot|] == snapshot;
      }
    }
  }
}
