/** Chat messages as the gateway receives them (`oaiMsg` in internal/web/server.go), and
    the three operations on one message that every other part shares: the class the
    atomiser puts it in, its token estimate, and the equality used by session keys. */
module Messages {
  import opened Basics

  /** One entry of `tool_calls`. A missing or non-string field is "", as the Go type
      assertions make it; `raw` is the serialised entry, read by the token counter only. */
  datatype ToolCall = ToolCall(id: string, name: string, arguments: string, raw: string)

  /** `content` is the serialised content, opaque but for the functions in `Env`.
      `toolCalls` is None for a nil slice: `SameMessage` tells nil from empty. */
  datatype Msg = Msg(
    role: string,
    content: string,
    name: string,
    toolCallId: string,
    toolCalls: Option<seq<ToolCall>>)
  {
    function Calls(): seq<ToolCall> {
      if toolCalls.Some? then toolCalls.value else []
    }
  }

  /** The library functions the code relies on but does not define:
      `norm` lower-cases and trims a role, `count` estimates the tokens of a text,
      `text` renders a content. */
  datatype Env = Env(
    norm: string -> string,
    count: string -> nat,
    text: string -> string)

  /** Lower-casing and trimming leaves the five protocol roles alone. */
  ghost predicate Sound(env: Env) {
    forall r :: KnownRole(r) ==> env.norm(r) == r
  }

  predicate KnownRole(role: string) {
    role == "system" || role == "developer" || role == "user" || role == "assistant" || role == "tool"
  }

  // ---------------------------------------------------------------- message classes

  datatype Class = SystemMsg | CallMsg | ToolMsg | UserMsg | AssistMsg

  /** The branch of the atomiser that a message starts. Unknown roles count as users. */
  function Classify(env: Env, m: Msg): Class {
    var role := env.norm(m.role);
    if role == "system" || role == "developer" then SystemMsg
    else if role == "assistant" && |m.Calls()| > 0 then CallMsg
    else if role == "tool" then ToolMsg
    else if role == "assistant" then AssistMsg
    else UserMsg
  }

  /** The class by the normalised role; any role but the four that are named counts as a user. */
  lemma ClassifyIs(env: Env, m: Msg)
    ensures var role, kind := env.norm(m.role), Classify(env, m);
            && (kind == SystemMsg <==> role in {"system", "developer"})
            && (kind == ToolMsg <==> role == "tool")
            && (kind == CallMsg <==> role == "assistant" && m.Calls() != [])
            && (kind == AssistMsg <==> role == "assistant" && m.Calls() == [])
            && (kind == UserMsg <==> role !in {"system", "developer", "tool", "assistant"})
  {
  }

  // ---------------------------------------------------------------- tokens

  const MESSAGE_PROTOCOL_TOKENS: nat := 4

  function CallTokens(env: Env, calls: seq<ToolCall>): nat {
    if calls == [] then 0 else env.count(calls[0].raw) + CallTokens(env, calls[1..])
  }

  function MessageTokens(env: Env, m: Msg): nat {
    MESSAGE_PROTOCOL_TOKENS + env.count(m.role) + env.count(m.name) + env.count(m.toolCallId)
    + env.count(m.content) + CallTokens(env, m.Calls())
  }

  /** All that atoms depend on: the class of a message and its price. */
  datatype Lens = Lens(cls: Msg -> Class, cost: Msg -> nat)

  function View(env: Env): Lens {
    Lens(m => Classify(env, m), m => MessageTokens(env, m))
  }

  function SumTokens(lens: Lens, msgs: seq<Msg>): nat {
    if msgs == [] then 0 else lens.cost(msgs[0]) + SumTokens(lens, msgs[1..])
  }

  lemma {:induction false} CallTokensSplit(env: Env, a: seq<ToolCall>, b: seq<ToolCall>)
    ensures CallTokens(env, a + b) == CallTokens(env, a) + CallTokens(env, b)
  {
    if a == [] {
      assert a + b == b;
    } else {
      assert (a + b)[1..] == a[1..] + b;
      CallTokensSplit(env, a[1..], b);
    }
  }

  lemma {:induction false} SumTokensSplit(lens: Lens, a: seq<Msg>, b: seq<Msg>)
    ensures SumTokens(lens, a + b) == SumTokens(lens, a) + SumTokens(lens, b)
  {
    if a == [] {
      assert a + b == b;
    } else {
      assert (a + b)[1..] == a[1..] + b;
      SumTokensSplit(lens, a[1..], b);
    }
  }

  /** `estimateMessageTokens`: one loop over the calls, then a floor of one token. */
  method EstimateMessageTokens(env: Env, m: Msg) returns (tokens: int)
    ensures tokens == MessageTokens(env, m)
    ensures tokens == 4 + env.count(m.role) + env.count(m.name) + env.count(m.toolCallId) + env.count(m.content)
                      + CallTokens(env, m.Calls())
  {
    tokens := MESSAGE_PROTOCOL_TOKENS;
    tokens := tokens + env.count(m.role);
    tokens := tokens + env.count(m.name);
    tokens := tokens + env.count(m.toolCallId);
    tokens := tokens + env.count(m.content);
    ghost var fixed := tokens;
    var calls := m.Calls();
    for i := 0 to |calls|
      invariant tokens == fixed + CallTokens(env, calls[..i])
    {
      tokens := tokens + env.count(calls[i].raw);
      CallTokensSplit(env, calls[..i], [calls[i]]);
      assert calls[..i] + [calls[i]] == calls[..i + 1];
    }
    assert calls[..|calls|] == calls;
    if tokens < 1 {
      tokens := 1;
    }
  }

  // ---------------------------------------------------------------- equality

  /** Two calls agree when name and arguments agree; clients regenerate ids. */
  predicate SameCall(x: ToolCall, y: ToolCall) {
    x.name == y.name && x.arguments == y.arguments
  }

  /** Equality in the sense of the session key. */
  ghost predicate SameMessage(env: Env, a: Msg, b: Msg) {
    && a.role == b.role
    && env.text(a.content) == env.text(b.content)
    && a.toolCalls.None? == b.toolCalls.None?
    && |a.Calls()| == |b.Calls()|
    && forall k :: 0 <= k < |a.Calls()| ==> SameCall(a.Calls()[k], b.Calls()[k])
  }

  /** `messagesEqual`: the branches and the early exits of the source. */
  method MessagesEqual(env: Env, a: Msg, b: Msg) returns (same: bool)
    ensures same <==> SameMessage(env, a, b)
  {
    if a.role != b.role {
      return false;
    }
    if env.text(a.content) != env.text(b.content) {
      return false;
    }
    if a.toolCalls.None? != b.toolCalls.None? {
      return false;
    }
    for i := 0 to |a.Calls()|
      invariant i <= |b.Calls()|
      invariant forall k :: 0 <= k < i ==> SameCall(a.Calls()[k], b.Calls()[k])
    {
      if i >= |b.Calls()| {
        return false;
      }
      if SameCall(a.Calls()[i], b.Calls()[i]) {
        continue;
      }
      return false;
    }
    return |a.Calls()| == |b.Calls()|;
  }

  /** All that the session key sees of a message: role, text, and whether and what it calls. */
  function Key(env: Env, m: Msg): (string, string, Option<seq<(string, string)>>) {
    (m.role, env.text(m.content),
     if m.toolCalls.None? then None
     else Some(seq(|m.Calls()|, k requires 0 <= k < |m.Calls()| => (m.Calls()[k].name, m.Calls()[k].arguments))))
  }

  /** Messages are the same exactly if their keys are: ids, tool names and encodings do not count,
      everything else does. */
  lemma SameMessageIff(env: Env, a: Msg, b: Msg)
    ensures SameMessage(env, a, b) <==> Key(env, a) == Key(env, b)
  {
    var x, y := Key(env, a).2, Key(env, b).2;
    if x.Some? && SameMessage(env, a, b) {
      assert x.value == y.value;
    }
    if x.Some? && Key(env, a) == Key(env, b) {
      forall k | 0 <= k < |a.Calls()| ensures SameCall(a.Calls()[k], b.Calls()[k]) {
        assert x.value[k] == y.value[k];
      }
    }
  }

  /** Session-key equality cannot move a message to another atomiser class, although it
      ignores ids, names and the way content is encoded. */
  lemma SameMessageSameClass(env: Env, a: Msg, b: Msg)
    requires SameMessage(env, a, b)
    ensures Classify(env, a) == Classify(env, b)
  {
  }
}
