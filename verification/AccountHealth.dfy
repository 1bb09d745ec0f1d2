/** Per-account health, internal/web/account_health.go:241-299 and 404-810. The error category
    is an input; one call sees one time. */
module AccountHealth {
  import opened Basics
  import opened Circuit

  const DAY: int := 24 * HOUR
  const YEAR: int := 365 * DAY

  datatype Category =
    | Quota429 | Overload503 | AuthExpired401 | Forbidden403 | Retryable422
    | UserBanned | UserThrottled | InsufficientTokens | DesignerDisabled
    | Socks5 | Dns | Tcp | Tls | WsHandshake | WsReadTimeout
    | UpstreamStructured | ClientCanceled | GlobalUnavailable | Unknown

  /** A classified error. `exempt` is the pair of 403 causes that say nothing about the account,
      `metering` the metering throttle; `reason` is the text kept for an auth failure. */
  datatype Fault = Fault(cat: Category, retryAfter: int, metering: bool, exempt: bool, reason: string)

  /** What the breaker counts. */
  function Counts(cat: Category): Outcome {
    match cat
    case Socks5 => TransportFailed
    case Dns => TransportFailed
    case Tcp => TransportFailed
    case Tls => TransportFailed
    case WsHandshake => TransportFailed
    case WsReadTimeout => TransportFailed
    case _ => Uncounted
  }

  // ---------------------------------------------------------------- cooldowns

  /** A Go duration is a 64-bit integer: the product of seconds and nanoseconds wraps. */
  function Wrap64(x: int): int {
    (x + 0x8000_0000_0000_0000) % 0x1_0000_0000_0000_0000 - 0x8000_0000_0000_0000
  }

  function Pow2(n: nat): nat {
    if n == 0 then 1 else 2 * Pow2(n - 1)
  }

  function QuotaCooldown(retryAfter: int, attempt: int): int {
    if retryAfter > 0 then
      var d := Wrap64(retryAfter * SECOND);
      if d > 30 * MINUTE then 30 * MINUTE else d
    else
      var a := if attempt < 1 then 1 else if attempt > 7 then 7 else attempt;
      var d := 30 * SECOND * Pow2(a - 1);
      if d > 30 * MINUTE || d <= 0 then 30 * MINUTE else d
  }

  function CooldownFor(cat: Category, retryAfter: int, attempt: int): int {
    match cat
    case Quota429 => QuotaCooldown(retryAfter, attempt)
    case Overload503 => 15 * SECOND
    case AuthExpired401 => 2 * MINUTE
    case Forbidden403 => 24 * HOUR
    case UserBanned => 365 * 24 * HOUR
    case UserThrottled => 1 * HOUR
    case InsufficientTokens => 24 * HOUR
    case DesignerDisabled => 0
    case Retryable422 => 5 * SECOND
    case Socks5 => 30 * SECOND
    case Dns => 30 * SECOND
    case Tcp => 15 * SECOND
    case Tls => 30 * SECOND
    case WsHandshake => 15 * SECOND
    case WsReadTimeout => 30 * SECOND
    case UpstreamStructured => 10 * SECOND
    case ClientCanceled => 0
    case GlobalUnavailable => 15 * SECOND
    case Unknown => 15 * SECOND
  }

  lemma {:induction false} Pow2Grows(a: nat, b: nat)
    requires a <= b
    ensures 0 < Pow2(a) <= Pow2(b)
    decreases b
  {
    if a < b {
      Pow2Grows(a, b - 1);
    } else if a > 0 {
      Pow2Grows(a - 1, b - 1);
    }
  }

  /** Without a hint from the server the backoff doubles from 30 s and saturates at 30 min. */
  lemma BackoffIsMonotone(a: int, b: int)
    requires a <= b
    ensures 30 * SECOND <= QuotaCooldown(0, a) <= QuotaCooldown(0, b) <= 30 * MINUTE
    ensures 1 <= a <= 6 ==> QuotaCooldown(0, a) == 30 * SECOND * Pow2(a - 1)
    ensures 7 <= a ==> QuotaCooldown(0, a) == 30 * MINUTE
  {
    var x := if a < 1 then 1 else if a > 7 then 7 else a;
    var y := if b < 1 then 1 else if b > 7 then 7 else b;
    Pow2Grows(0, x - 1);
    Pow2Grows(x - 1, y - 1);
    assert Pow2(6) == 64 && Pow2(5) == 32 by {
      assert Pow2(3) == 8 && Pow2(4) == 16;
    }
    if x <= 6 {
      Pow2Grows(x - 1, 5);
    }
  }

  /** The largest hint that still fits a Go duration. */
  const MAX_RETRY_AFTER: int := 9_223_372_036

  /** A server hint is honoured up to 30 min exactly when its product fits or wraps to at least
      30 min. Every hint up to 292 years does; a longer one may give a cooldown in the past or one
      that is too short. */
  lemma HintCooldown(retryAfter: int, attempt: int)
    requires retryAfter > 0
    ensures retryAfter <= MAX_RETRY_AFTER ==>
              QuotaCooldown(retryAfter, attempt) == if retryAfter > 1800 then 30 * MINUTE else retryAfter * SECOND
    ensures QuotaCooldown(retryAfter, attempt) == (if retryAfter > 1800 then 30 * MINUTE else retryAfter * SECOND)
            <==> retryAfter <= MAX_RETRY_AFTER || Wrap64(retryAfter * SECOND) >= 30 * MINUTE
    ensures 0 < QuotaCooldown(retryAfter, attempt) <= 30 * MINUTE <==> Wrap64(retryAfter * SECOND) > 0
    // a cooldown in the past, and one of 0.29 s where 30 min are meant
    ensures QuotaCooldown(MAX_RETRY_AFTER + 1, attempt) < 0
    ensures QuotaCooldown(18_446_744_074, attempt) == 290_448_384
  {
    if retryAfter <= MAX_RETRY_AFTER {
      assert 0 < retryAfter * SECOND < 0x8000_0000_0000_0000;
      assert Wrap64(retryAfter * SECOND) == retryAfter * SECOND;
    }
  }

  // ---------------------------------------------------------------- one account, as a value

  /** All that the maps say about one account. */
  datatype Health = Health(
    cooldown: Option<int>, authFail: bool, limited: bool, reason: string, calls: nat,
    imageLimited: bool, imageLimitUntil: Option<int>, quotaAttempts: Option<nat>,
    genCooldown: Option<int>, sysCooldown: Option<int>)

  const HEALTHY := Health(None, false, false, "", 0, false, None, None, None, None)

  function Expire(t: Option<int>, now: int): Option<int> {
    if t.Some? && now > t.value then None else t
  }

  function CleanedUp(h: Health, now: int): Health {
    if h.cooldown.None? || now < h.cooldown.value then h
    else h.(cooldown := None, limited := false, authFail := false, reason := "", imageLimited := false,
            calls := if h.limited then 0 else h.calls, quotaAttempts := None,
            genCooldown := Expire(h.genCooldown, now), sysCooldown := Expire(h.sysCooldown, now))
  }

  function Failed(h: Health, f: Fault, window: int, now: int): Health {
    var w := if window <= 0 then 60 * SECOND else window;
    var until := Some(now + CooldownFor(f.cat, 0, 1));
    match f.cat
    case ClientCanceled => h
    case GlobalUnavailable => h.(cooldown := until)
    case AuthExpired401 => h.(cooldown := until, authFail := true, limited := false, reason := f.reason)
    case Forbidden403 =>
      if f.exempt then h else h.(cooldown := until, authFail := true, limited := false, reason := f.reason)
    case Quota429 =>
      var q := h.(authFail := false, reason := "", limited := true);
      if f.metering && f.retryAfter == 0 then q.(quotaAttempts := Some(0), cooldown := Some(now + 15 * MINUTE))
      else
        var attempt := (if h.quotaAttempts.Some? then h.quotaAttempts.value else 0) + 1;
        q.(quotaAttempts := Some(attempt), cooldown := Some(now + QuotaCooldown(f.retryAfter, attempt)))
    case UpstreamStructured => h.(cooldown := until)
    case UserBanned => h.(authFail := true, reason := "banned", cooldown := until)
    case UserThrottled => h.(authFail := true, reason := "throttled", cooldown := until)
    case InsufficientTokens => h.(authFail := false, reason := "", limited := true, cooldown := until)
    case Unknown =>
      h.(authFail := false, reason := "", cooldown := Some(now + if w > 30 * SECOND then 30 * SECOND else w))
    case DesignerDisabled =>
      h.(authFail := false, reason := "", cooldown := Some(now + if w > 30 * SECOND then 30 * SECOND else w))
    case _ => h.(authFail := false, reason := "", cooldown := until)
  }

  lemma FailedPlain(h: Health, f: Fault, window: int, now: int)
    requires Counts(f.cat) == TransportFailed || f.cat == Overload503 || f.cat == Retryable422
          || f.cat == InsufficientTokens || f.cat == DesignerDisabled || f.cat == Unknown
    ensures var w := if window <= 0 then 60 * SECOND else window;
            var until := now + if f.cat == Unknown || f.cat == DesignerDisabled
                               then (if w > 30 * SECOND then 30 * SECOND else w) else CooldownFor(f.cat, 0, 1);
            Failed(h, f, window, now)
            == h.(authFail := false, reason := "", cooldown := Some(until),
                  limited := f.cat == InsufficientTokens || h.limited)
  {
  }

  function Keep(t: Option<int>, now: int): Option<int> {
    if t.Some? && now < t.value then t else None
  }

  function Recovered(h: Health, now: int): Health {
    var keeps := h.imageLimited && h.imageLimitUntil.Some? && now < h.imageLimitUntil.value;
    h.(cooldown := if keeps then h.imageLimitUntil else None, authFail := false, limited := false, reason := "",
       quotaAttempts := None, imageLimited := keeps, imageLimitUntil := if keeps then h.imageLimitUntil else None,
       genCooldown := Keep(h.genCooldown, now), sysCooldown := Keep(h.sysCooldown, now))
  }

  function ImageLimitedAt(h: Health, now: int): Health {
    h.(imageLimited := true, imageLimitUntil := Some(now + 24 * HOUR), cooldown := Some(now + 24 * HOUR))
  }

  function ImageChecked(h: Health, now: int): Health {
    var x := if h.imageLimited && h.imageLimitUntil.Some? && now > h.imageLimitUntil.value
             then h.(imageLimited := false, imageLimitUntil := None) else h;
    CleanedUp(x, now)
  }

  predicate AvailableNow(h: Health, circuitOpen: bool, now: int) {
    var c := CleanedUp(h, now);
    !circuitOpen && !c.authFail && !(c.cooldown.Some? && now < c.cooldown.value)
  }

  // ---------------------------------------------------------------- the maps of all accounts

  function Lookup<V>(m: map<string, V>, id: string): Option<V> {
    if id in m then Some(m[id]) else None
  }

  function Text(m: map<string, string>, id: string): string {
    if id in m then m[id] else ""
  }

  function Number(m: map<string, nat>, id: string): nat {
    if id in m then m[id] else 0
  }

  /** `accountHealth`: one map or set for each field of `Health`. A method changes the entries of
      one account as the functions above say and no others. */
  class AccountPool {
    const circuit: GlobalCircuit
    var cooldown: map<string, int>
    var authFail: set<string>
    var limited: set<string>
    var authFailReason: map<string, string>
    var calls: map<string, nat>
    var imageLimited: set<string>
    var imageLimitUntil: map<string, int>
    var quotaAttempts: map<string, nat>
    var imageGenCooldownUntil: map<string, int>
    var imageGenSystemCooldown: map<string, int>

    function View(id: string): Health reads this {
      Health(Lookup(cooldown, id), id in authFail, id in limited, Text(authFailReason, id), Number(calls, id),
             id in imageLimited, Lookup(imageLimitUntil, id), Lookup(quotaAttempts, id),
             Lookup(imageGenCooldownUntil, id), Lookup(imageGenSystemCooldown, id))
    }

    constructor (circuit: GlobalCircuit)
      ensures this.circuit == circuit && forall id :: View(id) == HEALTHY
    {
      this.circuit := circuit;
      cooldown, authFail, limited, authFailReason, calls := map[], {}, {}, map[], map[];
      imageLimited, imageLimitUntil, quotaAttempts := {}, map[], map[];
      imageGenCooldownUntil, imageGenSystemCooldown := map[], map[];
    }

    /** Removes what an ended or cleared cooldown stood for. */
    method DropFailures(id: string)
      modifies this`cooldown, this`limited, this`authFail, this`authFailReason, this`quotaAttempts
      ensures View(id) == old(View(id)).(
                cooldown := None, limited := false, authFail := false, reason := "", quotaAttempts := None)
      ensures forall x :: x != id ==> View(x) == old(View(x))
    {
      cooldown := cooldown - {id};
      authFail := authFail - {id};
      limited := limited - {id};
      authFailReason := authFailReason - {id};
      quotaAttempts := quotaAttempts - {id};
    }

    method DropImageGen(id: string, gen: bool, sys: bool)
      modifies this`imageGenCooldownUntil, this`imageGenSystemCooldown
      ensures View(id) == old(View(id)).(
                genCooldown := if gen then None else old(View(id)).genCooldown,
                sysCooldown := if sys then None else old(View(id)).sysCooldown)
      ensures forall x :: x != id ==> View(x) == old(View(x))
    {
      if gen {
        imageGenCooldownUntil := imageGenCooldownUntil - {id};
      }
      if sys {
        imageGenSystemCooldown := imageGenSystemCooldown - {id};
      }
    }

    method DropCalls(id: string)
      modifies this`calls
      ensures View(id) == old(View(id)).(calls := 0)
      ensures forall x :: x != id ==> View(x) == old(View(x))
    {
      calls := calls - {id};
    }

    /** `cleanupExpiredCooldownLocked` */
    method Cleanup(id: string, now: int)
      modifies this
      ensures View(id) == CleanedUp(old(View(id)), now)
      ensures forall x :: x != id ==> View(x) == old(View(x))
    {
      if id !in cooldown || now < cooldown[id] {
        return;
      }
      var wasRateLimited := id in limited;
      DropFailures(id);
      imageLimited := imageLimited - {id};
      if wasRateLimited {
        DropCalls(id);
      }
      DropImageGen(id, id in imageGenCooldownUntil && now > imageGenCooldownUntil[id],
        id in imageGenSystemCooldown && now > imageGenSystemCooldown[id]);
    }

    method Available(id: string, now: int) returns (available: bool)
      modifies this, circuit
      ensures View(id) == CleanedUp(old(View(id)), now)
      ensures forall x :: x != id ==> View(x) == old(View(x))
      ensures available == AvailableNow(old(View(id)), IsOpenAt(old(circuit.View()), now), now)
      ensures circuit.View() == Queried(old(circuit.View()), now)
    {
      Cleanup(id, now);
      var open := circuit.IsOpen(now);
      if open {
        return false;
      }
      if id in authFail {
        return false;
      }
      if id in cooldown && now < cooldown[id] {
        return false;
      }
      return true;
    }

    method CoolDown(id: string, until: int)
      modifies this`cooldown
      ensures View(id) == old(View(id)).(cooldown := Some(until))
      ensures forall x :: x != id ==> View(x) == old(View(x))
    {
      cooldown := cooldown[id := until];
    }

    method SetAuth(id: string, fails: bool, reason: string)
      modifies this`authFail, this`authFailReason
      ensures View(id) == old(View(id)).(authFail := fails, reason := if fails then reason else "")
      ensures forall x :: x != id ==> View(x) == old(View(x))
    {
      if fails {
        authFail := authFail + {id};
        authFailReason := authFailReason[id := reason];
      } else {
        authFail := authFail - {id};
        authFailReason := authFailReason - {id};
      }
    }

    method SetLimited(id: string, yes: bool)
      modifies this`limited
      ensures View(id) == old(View(id)).(limited := yes)
      ensures forall x :: x != id ==> View(x) == old(View(x))
    {
      limited := if yes then limited + {id} else limited - {id};
    }

    method SetAttempts(id: string, n: nat)
      modifies this`quotaAttempts
      ensures View(id) == old(View(id)).(quotaAttempts := Some(n))
      ensures forall x :: x != id ==> View(x) == old(View(x))
    {
      quotaAttempts := quotaAttempts[id := n];
    }

    /** The quota branch of `MarkFailure`. */
    method MarkQuota(id: string, f: Fault, now: int)
      requires f.cat == Quota429
      modifies this`cooldown, this`authFail, this`authFailReason, this`limited, this`quotaAttempts
      ensures View(id) == Failed(old(View(id)), f, 0, now)
      ensures forall x :: x != id ==> View(x) == old(View(x))
    {
      SetAuth(id, false, "");
      SetLimited(id, true);
      if f.metering && f.retryAfter == 0 {
        SetAttempts(id, 0);
        CoolDown(id, now + 15 * MINUTE);
        return;
      }
      var attempt := (if id in quotaAttempts then quotaAttempts[id] else 0) + 1;
      SetAttempts(id, attempt);
      CoolDown(id, now + QuotaCooldown(f.retryAfter, attempt));
    }

    /** The branches of `MarkFailure` that mark an auth failure. */
    method MarkAuth(id: string, f: Fault, now: int)
      requires f.cat == AuthExpired401 || f.cat == Forbidden403 || f.cat == UserBanned || f.cat == UserThrottled
      modifies this`cooldown, this`authFail, this`authFailReason, this`limited
      ensures View(id) == Failed(old(View(id)), f, 0, now)
      ensures forall x :: x != id ==> View(x) == old(View(x))
    {
      if f.cat == Forbidden403 && f.exempt {
        return;
      }
      CoolDown(id, now + CooldownFor(f.cat, 0, 1));
      if f.cat == UserBanned {
        SetAuth(id, true, "banned");
      } else if f.cat == UserThrottled {
        SetAuth(id, true, "throttled");
      } else {
        SetAuth(id, true, f.reason);
        SetLimited(id, false);
      }
    }

    /** The other branches of `MarkFailure`: no auth failure, and a limit for spent tokens. */
    method MarkPlain(id: string, f: Fault, window: int, now: int)
      requires Counts(f.cat) == TransportFailed || f.cat == Overload503 || f.cat == Retryable422
            || f.cat == InsufficientTokens || f.cat == DesignerDisabled || f.cat == Unknown
      modifies this`cooldown, this`authFail, this`authFailReason, this`limited
      ensures View(id) == Failed(old(View(id)), f, window, now)
      ensures forall x :: x != id ==> View(x) == old(View(x))
    {
      var w := if window <= 0 then 60 * SECOND else window;
      var until := now + if f.cat == Unknown || f.cat == DesignerDisabled
                         then (if w > 30 * SECOND then 30 * SECOND else w) else CooldownFor(f.cat, 0, 1);
      FailedPlain(View(id), f, window, now);
      SetAuth(id, false, "");
      if f.cat == InsufficientTokens {
        SetLimited(id, true);
      }
      CoolDown(id, until);
    }

    /** The part of `MarkFailure` behind the lock. */
    method MarkFailureLocked(id: string, f: Fault, window: int, now: int)
      modifies this
      ensures View(id) == Failed(old(View(id)), f, window, now)
      ensures forall x :: x != id ==> View(x) == old(View(x))
    {
      match f.cat
      case ClientCanceled =>
      case AuthExpired401 => MarkAuth(id, f, now);
      case Forbidden403 => MarkAuth(id, f, now);
      case UserBanned => MarkAuth(id, f, now);
      case UserThrottled => MarkAuth(id, f, now);
      case Quota429 => MarkQuota(id, f, now);
      case GlobalUnavailable => CoolDown(id, now + CooldownFor(f.cat, 0, 1));
      case UpstreamStructured => CoolDown(id, now + CooldownFor(f.cat, 0, 1));
      case _ => MarkPlain(id, f, window, now);
    }

    /** `MarkFailure`: the breaker counts first, then the account is marked. */
    method MarkFailure(id: string, f: Fault, window: int, now: int)
      modifies this, circuit
      ensures circuit.View() == Recorded(old(circuit.View()), Counts(f.cat), now)
      ensures View(id) == Failed(old(View(id)), f, window, now)
      ensures forall x :: x != id ==> View(x) == old(View(x))
    {
      circuit.Record(Counts(f.cat), now);
      MarkFailureLocked(id, f, window, now);
    }

    /** Ends an image limit that has passed and keeps the cooldown of one that has not. */
    method SettleImageLimit(id: string, now: int)
      requires id !in cooldown
      modifies this`cooldown, this`imageLimited, this`imageLimitUntil
      ensures var h := old(View(id));
              var keeps := h.imageLimited && h.imageLimitUntil.Some? && now < h.imageLimitUntil.value;
              View(id) == if keeps then h.(cooldown := h.imageLimitUntil)
                          else h.(imageLimited := false, imageLimitUntil := None)
      ensures forall x :: x != id ==> View(x) == old(View(x))
    {
      if id in imageLimited && id in imageLimitUntil && now < imageLimitUntil[id] {
        CoolDown(id, imageLimitUntil[id]);
      } else {
        imageLimited := imageLimited - {id};
        imageLimitUntil := imageLimitUntil - {id};
      }
    }

    method ClearFailures(id: string, now: int)
      modifies this
      ensures View(id) == Recovered(old(View(id)), now)
      ensures forall x :: x != id ==> View(x) == old(View(x))
    {
      DropFailures(id);
      assert View(id).cooldown.None?;
      SettleImageLimit(id, now);
      DropImageGen(id, !(id in imageGenCooldownUntil && now < imageGenCooldownUntil[id]),
        !(id in imageGenSystemCooldown && now < imageGenSystemCooldown[id]));
    }

    /** `MarkSuccess` */
    method MarkSuccess(id: string, now: int)
      modifies this, circuit
      ensures circuit.View() == Recorded(old(circuit.View()), Succeeded, now)
      ensures View(id) == Recovered(old(View(id)), now)
      ensures forall x :: x != id ==> View(x) == old(View(x))
    {
      circuit.Record(Succeeded, now);
      ClearFailures(id, now);
    }

    /** `MarkImageLimited` */
    method MarkImageLimited(id: string, now: int)
      modifies this
      ensures View(id) == if id == "" then old(View(id)) else ImageLimitedAt(old(View(id)), now)
      ensures forall x :: x != id ==> View(x) == old(View(x))
    {
      if id == "" {
        return;
      }
      imageLimited := imageLimited + {id};
      imageLimitUntil := imageLimitUntil[id := now + 24 * HOUR];
      cooldown := cooldown[id := now + 24 * HOUR];
    }

    /** `ImageLimited` */
    method ImageLimited(id: string, now: int) returns (yes: bool)
      modifies this
      ensures View(id) == ImageChecked(old(View(id)), now) && yes == View(id).imageLimited
      ensures forall x :: x != id ==> View(x) == old(View(x))
    {
      if id in imageLimited && id in imageLimitUntil && now > imageLimitUntil[id] {
        imageLimited := imageLimited - {id};
        imageLimitUntil := imageLimitUntil - {id};
      }
      Cleanup(id, now);
      return id in imageLimited;
    }
  }

  // ---------------------------------------------------------------- every history of one account

  datatype Event =
    | MarkedFailure(f: Fault, window: int, at: int)
    | MarkedSuccess(at: int)
    | ImageLimit(at: int)
    | ImageCheck(at: int)
    | Look(at: int)

  function Step(h: Health, e: Event): Health {
    match e
    case MarkedFailure(f, window, at) => Failed(h, f, window, at)
    case MarkedSuccess(at) => Recovered(h, at)
    case ImageLimit(at) => ImageLimitedAt(h, at)
    case ImageCheck(at) => ImageChecked(h, at)
    case Look(at) => CleanedUp(h, at)
  }

  function After(events: seq<Event>): Health {
    if events == [] then HEALTHY else Step(After(events[..|events| - 1]), events[|events| - 1])
  }

  ghost predicate Clocked(events: seq<Event>) {
    forall i :: 0 < i < |events| ==> events[i - 1].at <= events[i].at
  }

  /** Everything that can keep an account out has a cooldown, which ends within a year. */
  predicate Recoverable(h: Health, now: int) {
    && (h.authFail || h.limited || h.imageLimited || h.quotaAttempts.Some? ==> h.cooldown.Some?)
    && (h.cooldown.Some? ==> h.cooldown.value <= now + YEAR)
    && (h.imageLimited ==> h.imageLimitUntil.Some?)
    && (h.imageLimitUntil.Some? ==> h.imageLimitUntil.value <= now + DAY)
  }

  lemma QuotaBelowYear(retryAfter: int, attempt: int)
    ensures QuotaCooldown(retryAfter, attempt) <= 30 * MINUTE
  {
    if retryAfter > 0 {
      HintCooldown(retryAfter, attempt);
    }
  }

  lemma StepRecoverable(h: Health, e: Event, before: int)
    requires Recoverable(h, before) && before <= e.at
    ensures Recoverable(Step(h, e), e.at)
  {
    if e.MarkedFailure? {
      FailedRecoverable(h, e.f, e.window, e.at, before);
    }
  }

  lemma FailedRecoverable(h: Health, f: Fault, window: int, now: int, before: int)
    requires Recoverable(h, before) && before <= now
    ensures Recoverable(Failed(h, f, window, now), now)
  {
    if f.cat.Quota429? {
      QuotaBelowYear(f.retryAfter, if h.quotaAttempts.Some? then h.quotaAttempts.value + 1 else 1);
    } else {
      assert CooldownFor(f.cat, 0, 1) <= YEAR;
    }
  }

  lemma {:induction false} HistoryRecoverable(events: seq<Event>)
    requires Clocked(events)
    ensures Recoverable(After(events), if events == [] then 0 else events[|events| - 1].at)
    decreases |events|
  {
    if events != [] {
      var front, e := events[..|events| - 1], events[|events| - 1];
      HistoryRecoverable(front);
      if front == [] {
        StepRecoverable(HEALTHY, e, e.at);
      } else {
        assert front[|front| - 1].at == events[|events| - 2].at <= e.at;
        StepRecoverable(After(front), e, front[|front| - 1].at);
      }
    }
  }

  /** In every history an account is available exactly when the circuit is closed and no cooldown
      is running: the auth-failed flag alone never keeps an account out. */
  lemma AvailableIff(events: seq<Event>, circuitOpen: bool, now: int)
    requires Clocked(events)
    ensures AvailableNow(After(events), circuitOpen, now) <==>
            !circuitOpen && (After(events).cooldown.None? || After(events).cooldown.value <= now)
  {
    HistoryRecoverable(events);
  }

  /** Every account recovers: a year after its last event at the latest, once the circuit is
      closed. */
  lemma EveryAccountRecovers(events: seq<Event>, now: int)
    requires Clocked(events) && events != [] && events[|events| - 1].at + YEAR <= now
    ensures AvailableNow(After(events), false, now)
  {
    HistoryRecoverable(events);
    AvailableIff(events, false, now);
  }

  /** After a success an account is available at every later time but during an image limit that
      was running when it came, hence a day later at the latest. */
  lemma SuccessRestores(events: seq<Event>, at: int, now: int)
    requires Clocked(events + [MarkedSuccess(at)]) && at <= now
    ensures var h := After(events);
            AvailableNow(After(events + [MarkedSuccess(at)]), false, now)
            <==> !(h.imageLimited && h.imageLimitUntil.Some? && now < h.imageLimitUntil.value)
    ensures at + DAY <= now ==> AvailableNow(After(events + [MarkedSuccess(at)]), false, now)
  {
    var all := events + [MarkedSuccess(at)];
    assert all[..|all| - 1] == events;
    ClockedFront(events, MarkedSuccess(at));
    HistoryRecoverable(events);
  }

  lemma ClockedFront(events: seq<Event>, e: Event)
    requires Clocked(events + [e])
    ensures Clocked(events)
    ensures events != [] ==> events[|events| - 1].at <= e.at
  {
    var all := events + [e];
    forall i | 0 < i < |events| ensures events[i - 1].at <= events[i].at {
      assert all[i - 1].at <= all[i].at;
    }
    if events != [] {
      assert all[|events| - 1].at <= all[|events|].at;
    }
  }

  // ---------------------------------------------------------------- the backoff, over histories

  /** The quota failures since the count last started again: a success, an ended cooldown that
      somebody looks at, and a metering throttle without a hint start it, nothing else does. */
  function Streak(events: seq<Event>): nat {
    if events == [] then 0
    else
      var front := events[..|events| - 1];
      match events[|events| - 1]
      case MarkedFailure(f, _, _) =>
        if f.cat != Quota429 then Streak(front)
        else if f.metering && f.retryAfter == 0 then 0
        else Streak(front) + 1
      case MarkedSuccess(_) => 0
      case ImageLimit(_) => Streak(front)
      case ImageCheck(at) => if Ended(After(front), at) then 0 else Streak(front)
      case Look(at) => if Ended(After(front), at) then 0 else Streak(front)
  }

  predicate Ended(h: Health, at: int) {
    h.cooldown.Some? && at >= h.cooldown.value
  }

  /** 30 s, doubled with every failure in the row, and never more than 30 min. */
  function Backoff(n: nat): int
    requires n > 0
  {
    if n > 6 then 30 * MINUTE else 30 * SECOND * Pow2(n - 1)
  }

  lemma {:induction false} StreakIsStored(events: seq<Event>)
    ensures Streak(events) == if After(events).quotaAttempts.Some? then After(events).quotaAttempts.value else 0
  {
    if events != [] {
      StreakIsStored(events[..|events| - 1]);
    }
  }

  lemma QuotaFailed(h: Health, f: Fault, window: int, at: int, n: nat)
    requires f.cat == Quota429 && f.retryAfter <= 0 && !(f.metering && f.retryAfter == 0)
    requires n == (if h.quotaAttempts.Some? then h.quotaAttempts.value else 0) + 1
    ensures Failed(h, f, window, at).cooldown == Some(at + Backoff(n))
  {
    BackoffIsMonotone(n, n);
  }

  /** The `n`-th quota failure in a row without a hint cools the account down for the `n`-th step
      of the backoff, whatever came before the row. */
  lemma BackoffAdvances(events: seq<Event>, f: Fault, window: int, at: int)
    requires f.cat == Quota429 && f.retryAfter <= 0 && !(f.metering && f.retryAfter == 0)
    ensures var all := events + [MarkedFailure(f, window, at)];
            && Streak(all) == Streak(events) + 1
            && After(all).cooldown == Some(at + Backoff(Streak(events) + 1))
  {
    var all := events + [MarkedFailure(f, window, at)];
    assert all[..|events|] == events;
    StreakIsStored(events);
    QuotaFailed(After(events), f, window, at, Streak(events) + 1);
  }

  /** Failures in a row, at the times `ats`. */
  function QuotaRow(f: Fault, window: int, ats: seq<int>): seq<Event> {
    if ats == [] then [] else QuotaRow(f, window, ats[..|ats| - 1]) + [MarkedFailure(f, window, ats[|ats| - 1])]
  }

  lemma {:induction false} RowAdvances(events: seq<Event>, f: Fault, window: int, ats: seq<int>)
    requires f.cat == Quota429 && f.retryAfter <= 0 && !(f.metering && f.retryAfter == 0) && ats != []
    ensures var n, all := |ats|, events + QuotaRow(f, window, ats);
            && Streak(all) == Streak(events) + n
            && After(all).cooldown == Some(ats[n - 1] + Backoff(Streak(events) + n))
  {
    var n := |ats|;
    var before := events + QuotaRow(f, window, ats[..n - 1]);
    if n == 1 {
      assert before == events;
    } else {
      RowAdvances(events, f, window, ats[..n - 1]);
    }
    BackoffAdvances(before, f, window, ats[n - 1]);
    assert events + QuotaRow(f, window, ats) == before + [MarkedFailure(f, window, ats[n - 1])];
  }

  /** Three failures at 0 s, 10 s and 20 s: until 30 s, 70 s and 140 s. */
  lemma ThreeInARow()
    ensures var f := Fault(Quota429, 0, false, false, "");
            && After(QuotaRow(f, 0, [0])).cooldown == Some(30 * SECOND)
            && After(QuotaRow(f, 0, [0, 10 * SECOND])).cooldown == Some(70 * SECOND)
            && After(QuotaRow(f, 0, [0, 10 * SECOND, 20 * SECOND])).cooldown == Some(140 * SECOND)
  {
    var f := Fault(Quota429, 0, false, false, "");
    RowAdvances([], f, 0, [0]);
    RowAdvances([], f, 0, [0, 10 * SECOND]);
    RowAdvances([], f, 0, [0, 10 * SECOND, 20 * SECOND]);
    assert Pow2(1) == 2 && Pow2(2) == 4;
    assert forall row: seq<Event> :: [] + row == row;
  }

  /** What each event leaves of the marks other than the cooldown: a failure for which the account
      is to blame marks it, spent quota or tokens limit it, and a transport or server fault takes
      the blame back. */
  lemma FailureMarks(h: Health, f: Fault, window: int, now: int)
    ensures var after := Failed(h, f, window, now);
            var blames := f.cat in {AuthExpired401, UserBanned, UserThrottled} || (f.cat == Forbidden403 && !f.exempt);
            var keeps := f.cat in {ClientCanceled, GlobalUnavailable, UpstreamStructured}
                         || (f.cat == Forbidden403 && f.exempt);
            var spent := f.cat in {Quota429, InsufficientTokens};
            var unlimits := f.cat == AuthExpired401 || (f.cat == Forbidden403 && !f.exempt);
            && after.authFail == (blames || (keeps && h.authFail))
            && after.limited == (spent || (!unlimits && h.limited))
            && after.imageLimited == h.imageLimited && after.imageLimitUntil == h.imageLimitUntil
            && after.reason == if f.cat == UserBanned then "banned" else if f.cat == UserThrottled then "throttled"
                               else if blames then f.reason else if keeps then h.reason else ""
  {
  }

  /** A success takes every mark away but a running image limit. */
  lemma SuccessMarks(h: Health, now: int)
    ensures var after := Recovered(h, now);
            && !after.authFail && !after.limited && after.reason == "" && after.quotaAttempts.None?
            && (after.imageLimited <==> h.imageLimited && h.imageLimitUntil.Some? && now < h.imageLimitUntil.value)
            && (after.cooldown.Some? <==> after.imageLimited) && after.calls == h.calls
            && after.genCooldown == (if h.genCooldown.Some? && h.genCooldown.value > now then h.genCooldown else None)
            && after.sysCooldown == (if h.sysCooldown.Some? && h.sysCooldown.value > now then h.sysCooldown else None)
  {
  }

  /** A look at the account takes every mark away if the cooldown has ended, and none before. */
  lemma EndedMarks(h: Health, now: int)
    ensures var after := CleanedUp(h, now);
            if h.cooldown.Some? && h.cooldown.value <= now then
              && after.cooldown.None? && !after.authFail && !after.limited && !after.imageLimited
              && after.reason == "" && after.quotaAttempts.None? && after.calls == (if h.limited then 0 else h.calls)
              && (after.genCooldown.Some? <==> h.genCooldown.Some? && h.genCooldown.value >= now)
              && (after.sysCooldown.Some? <==> h.sysCooldown.Some? && h.sysCooldown.value >= now)
              && (after.genCooldown.Some? ==> after.genCooldown == h.genCooldown)
              && (after.sysCooldown.Some? ==> after.sysCooldown == h.sysCooldown)
            else
              after == h
  {
  }

  /** An account counts as image-limited until the limit or the cooldown has passed. */
  lemma ImageLimitedIff(h: Health, now: int)
    ensures ImageChecked(h, now).imageLimited <==>
            && h.imageLimited
            && (h.imageLimitUntil.Some? ==> now <= h.imageLimitUntil.value)
            && (h.cooldown.Some? ==> now < h.cooldown.value)
  {
  }

  /** An image limit keeps the account out for a day, if nothing else happens. */
  lemma ImageLimitLasts(events: seq<Event>, at: int, now: int)
    requires Clocked(events + [ImageLimit(at)]) && at <= now
    ensures AvailableNow(After(events + [ImageLimit(at)]), false, now) <==> at + 24 * 60 * 60 * SECOND <= now
  {
    var all := events + [ImageLimit(at)];
    assert all[..|all| - 1] == events;
    AvailableIff(all, false, now);
  }

  /** The breaker counts exactly the six transport faults. */
  lemma CountedFaults(cat: Category)
    ensures Counts(cat) != Succeeded
    ensures Counts(cat) == TransportFailed <==> cat in {Socks5, Dns, Tcp, Tls, WsHandshake, WsReadTimeout}
  {
  }

  // ---------------------------------------------------------------- a later failure

  /** How long a failure keeps an account out, by its category; None when it leaves the cooldown
      alone. */
  function SpanOf(f: Fault, window: int, attempts: nat): Option<int> {
    match f.cat
    case ClientCanceled => None
    case Forbidden403 => if f.exempt then None else Some(DAY)
    case Quota429 =>
      if f.metering && f.retryAfter == 0 then Some(15 * MINUTE) else Some(QuotaCooldown(f.retryAfter, attempts + 1))
    case UserBanned => Some(YEAR)
    case InsufficientTokens => Some(DAY)
    case UserThrottled => Some(HOUR)
    case AuthExpired401 => Some(2 * MINUTE)
    case Unknown => Some(CappedWindow(window))
    case DesignerDisabled => Some(CappedWindow(window))
    case Socks5 => Some(30 * SECOND)
    case Dns => Some(30 * SECOND)
    case Tls => Some(30 * SECOND)
    case WsReadTimeout => Some(30 * SECOND)
    case UpstreamStructured => Some(10 * SECOND)
    case Retryable422 => Some(5 * SECOND)
    case _ => Some(15 * SECOND)
  }

  /** The window of the caller, 60 s by default, and never more than 30 s. */
  function CappedWindow(window: int): int {
    if 0 < window < 30 * SECOND then window else 30 * SECOND
  }

  /** A failure sets the end of the cooldown anew, whatever stood there. So it shortens a running
      cooldown exactly when it touches the cooldown and its own span ends earlier. */
  lemma FailureShortensIff(h: Health, f: Fault, window: int, now: int)
    requires h.cooldown.Some?
    ensures var span := SpanOf(f, window, if h.quotaAttempts.Some? then h.quotaAttempts.value else 0);
            var after := Failed(h, f, window, now).cooldown;
            && after.Some?
            && (after.value < h.cooldown.value <==> span.Some? && now + span.value < h.cooldown.value)
            && (span.None? ==> after == h.cooldown)
  {
    FailedSpan(h, f, window, now);
  }

  lemma FailedSpan(h: Health, f: Fault, window: int, now: int)
    ensures var span := SpanOf(f, window, if h.quotaAttempts.Some? then h.quotaAttempts.value else 0);
            Failed(h, f, window, now).cooldown == if span.None? then h.cooldown else Some(now + span.value)
  {
    match f.cat
    case Quota429 =>
    case _ =>
      assert CooldownFor(f.cat, 0, 1) <= YEAR;
  }

  /** Over histories: a failure during a cooldown lets the account back in earlier than the
      history before it would, exactly when it touches the cooldown and its span ends earlier. */
  lemma LaterFailureShortensIff(events: seq<Event>, f: Fault, window: int, at: int)
    requires Clocked(events + [MarkedFailure(f, window, at)])
    requires After(events).cooldown.Some? && at < After(events).cooldown.value
    ensures var before, after := After(events), After(events + [MarkedFailure(f, window, at)]);
            var span := SpanOf(f, window, if before.quotaAttempts.Some? then before.quotaAttempts.value else 0);
            (exists now :: at <= now && AvailableNow(after, false, now) && !AvailableNow(before, false, now))
            <==> span.Some? && at + span.value < before.cooldown.value
  {
    var all := events + [MarkedFailure(f, window, at)];
    var before, after := After(events), After(all);
    assert all[..|all| - 1] == events;
    ClockedFront(events, MarkedFailure(f, window, at));
    FailureShortensIff(before, f, window, at);
    forall now ensures AvailableNow(before, false, now) <==> before.cooldown.value <= now {
      AvailableIff(events, false, now);
    }
    forall now ensures AvailableNow(after, false, now) <==> after.cooldown.value <= now {
      AvailableIff(all, false, now);
    }
    if after.cooldown.value < before.cooldown.value {
      var now := if at < after.cooldown.value then after.cooldown.value else at;
      assert AvailableNow(after, false, now) && !AvailableNow(before, false, now);
    }
  }

  /** It happens: a banned account that meets a 422 is back in 5 s. */
  lemma LaterFailureShortens(now: int)
    ensures var banned := Failed(HEALTHY, Fault(UserBanned, 0, false, false, ""), 0, now);
            var again := Failed(banned, Fault(Retryable422, 0, false, false, ""), 0, now);
            !AvailableNow(banned, false, now + 5 * SECOND) && AvailableNow(again, false, now + 5 * SECOND)
  {
  }
}
