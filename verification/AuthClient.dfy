/** main/auth_client.c: the device-code polling loop of RFC 8628 and what the client keeps
    of a token response. */
module AuthClient {
  import opened Common
  import Protocol

  datatype AuthErr =
    | AuthOk | Timeout | NotFinished | InvalidResponse | Fail | NoMemory | StorageFailed | NotFound

  /// Waiting (main/include/task_time.h)

  const TICK_RATE := 1000
  const WORD := 0x1_0000_0000
  const CHUNK := 60

  /** `pdMS_TO_TICKS` in 32-bit arithmetic, at least one tick. */
  function TicksMs(milliseconds: nat): nat {
    var ticks := (milliseconds * TICK_RATE) % WORD / 1000;
    if ticks == 0 then 1 else ticks
  }

  /** `task_wait_seconds`: cut into chunks of a minute, no conversion wraps, so the ticks
      slept add up to exactly the seconds asked for. */
  method WaitSeconds(seconds: nat) returns (ticks: nat)
    ensures ticks == seconds * TICK_RATE
  {
    ticks := 0;
    var left := seconds;
    while left > 0
      invariant 0 <= left <= seconds && ticks == (seconds - left) * TICK_RATE
    {
      var part := if left > CHUNK then CHUNK else left;
      ticks := ticks + TicksMs(part * 1000);
      left := left - part;
    }
  }

  /** In one piece a long Retry-After would wrap and be cut short: a single conversion is
      exact for as long as the product fits 32 bits, and never beyond. */
  lemma OnePieceWraps(seconds: nat)
    requires seconds > 0
    ensures TicksMs(seconds * 1000) == seconds * TICK_RATE <==> seconds * 1000 * TICK_RATE < WORD
  {
  }

  /// The polling loop

  datatype PollResult = Success | Transient | Pending | SlowDown | Terminal

  const MAX_SECONDS := 86400

  /** One answer of the token endpoint. `ok` is false when the request itself failed;
      `accepted` is what `accept_tokens` makes of a 200. */
  datatype Reply = Reply(ok: bool, status: int, error: Option<string>, retryAfter: nat, accepted: AuthErr)

  function Classify(r: Reply): PollResult {
    if !r.ok then Transient
    else if r.status == 200 then Success
    else if r.status == 429 || r.status >= 500 then Transient
    else if r.error == Some("authorization_pending") then Pending
    else if r.error == Some("slow_down") then SlowDown
    else Terminal
  }

  function TransientInterval(interval: nat, retryAfter: nat): nat {
    Max(retryAfter, if interval < 60 then interval * 2 else interval)
  }

  /** The interval after a reply. */
  function NextInterval(interval: nat, r: Reply): nat {
    match Classify(r)
    case Transient => TransientInterval(interval, r.retryAfter)
    case SlowDown => interval + 5
    case _ => interval
  }

  predicate Again(r: Reply) {
    Classify(r).Transient? || Classify(r).Pending? || Classify(r).SlowDown?
  }

  function ErrOf(r: Reply): AuthErr {
    match Classify(r)
    case Success => r.accepted
    case Transient => Fail
    case Terminal => InvalidResponse
    case _ => NotFinished
  }

  /** The provider could not be asked, or asks for patience. */
  predicate TryLater(r: Reply) {
    !r.ok || r.status == 429 || r.status >= 500
  }

  /** A reply that ends the login: tokens, or a refusal that is not about timing. */
  predicate Final(r: Reply) {
    && !TryLater(r)
    && (r.status == 200 || (r.error != Some("authorization_pending") && r.error != Some("slow_down")))
  }

  /** What follows from a reply, in terms of its fields: a 200 ends the login with what the
      tokens are worth, a failure to answer is waited out for the larger of Retry-After and
      the doubled interval, `slow_down` adds five seconds, pending keeps the interval, and
      anything else ends the login as invalid. */
  ghost predicate FollowsFrom(r: Reply, interval: nat, err: AuthErr, next: nat, again: bool) {
    if TryLater(r) then
      err == Fail && again && next == Max(r.retryAfter, if interval < 60 then 2 * interval else interval)
    else if r.status == 200 then err == r.accepted && !again && next == interval
    else if r.error == Some("authorization_pending") then err == NotFinished && again && next == interval
    else if r.error == Some("slow_down") then err == NotFinished && again && next == interval + 5
    else err == InvalidResponse && !again && next == interval
  }

  ghost predicate Continues(r: Reply, interval: nat, next: nat) {
    FollowsFrom(r, interval, if TryLater(r) then Fail else NotFinished, next, true)
  }

  lemma RepliesFollow(r: Reply, interval: nat)
    ensures FollowsFrom(r, interval, ErrOf(r), NextInterval(interval, r), Again(r))
    ensures Again(r) <==> !Final(r)
  {
  }

  /** `handle_token_poll`. */
  method HandleTokenPoll(r: Reply, interval: nat) returns (err: AuthErr, next: nat, again: bool)
    ensures err == ErrOf(r) && next == NextInterval(interval, r) && again == Again(r)
    ensures FollowsFrom(r, interval, err, next, again)
    ensures next >= interval
    ensures r.retryAfter <= MAX_SECONDS && interval < MAX_SECONDS ==> next <= MAX_SECONDS + 4
  {
    next, again := interval, false;
    match Classify(r)
    case Success => err := r.accepted;
    case Transient =>
      next := TransientInterval(interval, r.retryAfter);
      again, err := true, Fail;
    case SlowDown =>
      next := interval + 5;
      again, err := true, NotFinished;
    case Pending => again, err := true, NotFinished;
    case Terminal => err := InvalidResponse;
  }

  /** One turn of the loop as the surroundings make it: how much longer than asked the
      wait for time and Wi-Fi took, how long the request took, and its reply. */
  datatype Turn = Turn(late: nat, busy: nat, reply: Reply)

  /** A token request: when it was sent and after what interval. */
  datatype Request = Request(at: int, interval: nat)

  /** When the wait before request `k` begins. */
  function WaitFrom(log: seq<Request>, env: nat -> Turn, start: int, k: nat): int
    requires k <= |log|
  {
    if k == 0 then start else log[k - 1].at + env(k - 1).busy
  }

  /** Request `k` keeps to the timetable: one interval after the request before it was
      answered and strictly before the deadline, at the interval the last reply ordered. */
  ghost predicate OnTime(log: seq<Request>, env: nat -> Turn, start: int, deadline: int, interval: nat, k: nat)
    requires k < |log|
  {
    && log[k].at == WaitFrom(log, env, start, k) + log[k].interval * SECOND + env(k).late
    && log[k].at < deadline
    && if k == 0 then log[k].interval == interval
       else && !Final(env(k - 1).reply)
            && Continues(env(k - 1).reply, log[k - 1].interval, log[k].interval)
  }

  ghost predicate Obeys(log: seq<Request>, env: nat -> Turn, start: int, deadline: int, interval: nat) {
    forall k: nat | k < |log| :: OnTime(log, env, start, deadline, interval, k)
  }

  /** Intervals never shrink, and the last is `last`. */
  ghost predicate Within(log: seq<Request>, interval: nat, last: nat) {
    forall k: nat | k < |log| :: interval <= log[k].interval <= last && log[k].interval < MAX_SECONDS
  }

  /** How the loop stands after its requests. */
  ghost predicate Stands(log: seq<Request>, env: nat -> Turn, interval: nat, err: AuthErr, last: nat) {
    if log == [] then err == Timeout && last == interval
    else
      var reply := env(|log| - 1).reply;
      FollowsFrom(reply, log[|log| - 1].interval, err, last, !Final(reply))
  }

  lemma ObeysExtended(log: seq<Request>, env: nat -> Turn, start: int, deadline: int, interval: nat, r: Request)
    requires Obeys(log, env, start, deadline, interval)
    requires OnTime(log + [r], env, start, deadline, interval, |log|)
    ensures Obeys(log + [r], env, start, deadline, interval)
  {
    hide Final, Continues;
    forall k: nat | k < |log|
      ensures OnTime(log + [r], env, start, deadline, interval, k)
    {
      assert OnTime(log, env, start, deadline, interval, k);
    }
  }

  /** `poll_for_token`. The loop ends with the first final reply, or when the deadline
      leaves no room for another interval. */
  method PollForToken(start: int, deadline: int, interval: nat, expires: nat, env: nat -> Turn)
    returns (err: AuthErr, expired: bool, log: seq<Request>, last: nat)
    requires 1 <= interval <= MAX_SECONDS && 1 <= expires <= MAX_SECONDS
    requires deadline - start <= expires * SECOND
    requires forall n :: env(n).reply.retryAfter <= MAX_SECONDS
    ensures Obeys(log, env, start, deadline, interval)
    ensures |log| < expires
    ensures interval <= last <= MAX_SECONDS + 4 && Within(log, interval, last)
    ensures Stands(log, env, interval, err, last)
    ensures log == [] || !Final(env(|log| - 1).reply) ==>
              WaitFrom(log, env, start, |log|) + last * SECOND + env(|log|).late >= deadline
    ensures log != [] && env(|log| - 1).reply.ok && env(|log| - 1).reply.status == 200 ==>
              err == env(|log| - 1).reply.accepted
    ensures expired <==> err == Timeout || err == NotFinished
  {
    hide Again, NextInterval, ErrOf, Classify;
    err, log, last := Timeout, [], interval;
    var now := start;
    var again := true;
    while now + last * SECOND < deadline
      invariant again && now >= start + |log| * SECOND && |log| < expires
      invariant now == WaitFrom(log, env, start, |log|)
      invariant log != [] ==> !Final(env(|log| - 1).reply)
      invariant 1 <= interval <= last <= MAX_SECONDS + 4 && Within(log, interval, last)
      invariant Obeys(log, env, start, deadline, interval)
      invariant Stands(log, env, interval, err, last)
      decreases deadline - now
    {
      var turn := env(|log|);
      var ticks := WaitSeconds(last);
      now := now + ticks * 1000 + turn.late;
      if now >= deadline {
        break;
      }
      ObeysExtended(log, env, start, deadline, interval, Request(now, last));
      log := log + [Request(now, last)];
      RepliesFollow(turn.reply, last);
      err, last, again := HandleTokenPoll(turn.reply, last);
      now := now + turn.busy;
      if !again {
        break;
      }
    }
    expired := err == Timeout || err == NotFinished;
  }

  /** The answer to the request for a device code; `interval` may be left out. */
  datatype DeviceCode = DeviceCode(expires: nat, interval: Option<nat>)

  predicate DeviceCodeValid(code: DeviceCode) {
    && 1 <= code.expires <= MAX_SECONDS
    && (code.interval.Some? ==> 1 <= code.interval.value <= MAX_SECONDS)
  }

  /** `device_login`: `code` is None when the request failed or its answer was no device
      code, `memory` is false when the form could not be built. Polls only for a usable
      code, every five seconds unless it says otherwise, and for as long as it lives. */
  method DeviceLogin(code: Option<DeviceCode>, memory: bool, now: int, start: int, env: nat -> Turn)
    returns (err: AuthErr, log: seq<Request>, last: nat)
    requires start >= now && forall n :: env(n).reply.retryAfter <= MAX_SECONDS
    ensures code.None? || !DeviceCodeValid(code.value) ==> err == InvalidResponse
    ensures code.Some? && DeviceCodeValid(code.value) && !memory ==> err == NoMemory
    ensures code.None? || !DeviceCodeValid(code.value) || !memory ==> log == []
    ensures code.Some? && DeviceCodeValid(code.value) && memory ==>
              var deadline := now + code.value.expires * SECOND;
              var interval := if code.value.interval.Some? then code.value.interval.value else 5;
              && Obeys(log, env, start, deadline, interval) && Stands(log, env, interval, err, last)
              && |log| < code.value.expires
              && (log == [] || !Final(env(|log| - 1).reply) ==>
                    WaitFrom(log, env, start, |log|) + last * SECOND + env(|log|).late >= deadline)
  {
    log, last := [], 0;
    if code.None? || !DeviceCodeValid(code.value) {
      return InvalidResponse, log, last;
    }
    if !memory {
      return NoMemory, log, last;
    }
    var interval := if code.value.interval.Some? then code.value.interval.value else 5;
    var expired: bool;
    err, expired, log, last :=
      PollForToken(start, now + code.value.expires * SECOND, interval, code.value.expires, env);
  }

  /** What section 3.5 of RFC 8628 asks: requests are spaced by the current interval,
      `slow_down` adds five seconds to it for good, no reply shortens it, and polling
      stops with the first final reply. */
  lemma PollingIsPolite(log: seq<Request>, env: nat -> Turn, start: int, deadline: int, interval: nat, k: nat)
    requires Obeys(log, env, start, deadline, interval) && 0 < k < |log|
    ensures var before, reply := log[k - 1], env(k - 1).reply;
            && log[k].at - before.at >= log[k].interval * SECOND
            && log[k].interval >= before.interval
            && (reply.ok && reply.status == 400 && reply.error == Some("slow_down") ==>
                  log[k].interval == before.interval + 5)
            && (reply.ok && reply.status == 400 && reply.error == Some("authorization_pending") ==>
                  log[k].interval == before.interval)
            && !(reply.ok && reply.status == 200)
  {
    assert OnTime(log, env, start, deadline, interval, k);
  }

  /// Token responses

  const NO_TOKEN: Option<CString> := None

  /** The fields of a token response, each None when missing or of the wrong kind. */
  datatype Tokens = Tokens(
    bearer: bool, access: Option<CString>, refresh: Option<CString>, expires: Option<nat>)

  predicate RefreshTokenValid(refresh: Option<CString>, refreshing: bool) {
    if refresh.None? then refreshing else |refresh.value| <= Protocol.TOKEN_LIMIT
  }

  predicate TokensValid(t: Tokens, refreshing: bool) {
    && t.bearer
    && t.access.Some? && Protocol.BearerTokenValid(t.access.value)
    && RefreshTokenValid(t.refresh, refreshing)
    && t.expires.Some? && 1 <= t.expires.value <= MAX_SECONDS
  }

  /** A token response is usable exactly if it is for a bearer, its access token is 1 to
      8192 legal characters, its refresh token at most 8192 bytes and missing only in a
      refresh, and it lives between a second and a day. */
  lemma TokensValidIff(t: Tokens, refreshing: bool)
    ensures TokensValid(t, refreshing) <==>
              && t.bearer
              && t.access.Some? && 1 <= |t.access.value| <= 8192
              && (forall c | c in t.access.value :: Protocol.PlainCode(c) || c == 43 || c == 47 || c == 61)
              && (t.refresh.None? ==> refreshing) && (t.refresh.Some? ==> |t.refresh.value| <= 8192)
              && t.expires.Some? && 1 <= t.expires.value <= 86400
  {
    hide Protocol.BearerTokenValid;
    if t.access.Some? {
      Protocol.BearerTokenValidIff(t.access.value);
    }
  }

  function Margin(expires: nat): nat {
    if expires > 120 then 60 else expires / 2
  }

  /** The client's memory and the stored refresh token. */
  datatype Session = Session(access: Option<CString>, deadline: int, stored: Option<CString>)

  function Accepted(s: Session, t: Tokens, refreshing: bool, memory: bool, write: Outcome, now: int): (Session, AuthErr) {
    if !TokensValid(t, refreshing) then (s, InvalidResponse)
    else if !memory then (s, NoMemory)
    else
      var kept := if t.refresh.Some? && Reached(write) then s.(stored := t.refresh) else s;
      if t.refresh.Some? && write != Done then (kept, StorageFailed)
      else
        (kept.(access := t.access,
               deadline := now + (t.expires.value - Margin(t.expires.value)) * SECOND),
         AuthOk)
  }

  /** `handle_refresh_response`. */
  function Refreshed(s: Session, status: int, error: Option<string>, t: Tokens, memory: bool,
                     write: Outcome, now: int): (Session, AuthErr) {
    if status == 200 then Accepted(s, t, true, memory, write, now)
    else if status == 400 && error == Some("invalid_grant") then
      (if Reached(write) then s.(stored := NO_TOKEN) else s, if write == Done then NotFound else StorageFailed)
    else (s, Fail)
  }

  /** Usable tokens are taken into use exactly if there is memory and the refresh token, if
      any came, could be stored; the access token is then retired a minute before it
      expires, or after half its life if that is shorter than two minutes. */
  lemma AcceptedIs(s: Session, t: Tokens, refreshing: bool, memory: bool, write: Outcome, now: int)
    ensures var (next, err) := Accepted(s, t, refreshing, memory, write, now);
            && (err == AuthOk <==> TokensValid(t, refreshing) && memory && (t.refresh.None? || write == Done))
            && (err == AuthOk ==>
                  next == Session(t.access,
                                  now + (if t.expires.value > 120 then t.expires.value - 60
                                         else t.expires.value - t.expires.value / 2) * SECOND,
                                  if t.refresh.Some? then t.refresh else s.stored))
            && (err != AuthOk ==>
                  next.access == s.access && next.deadline == s.deadline
                  && (next.stored == s.stored || (next.stored == t.refresh && write == FailedNew)))
  {
    hide Protocol.BearerTokenValid;
  }

  /// Attempts

  /** `auth_client_ready`. */
  predicate Ready(s: Session, now: int) {
    s.access.Some? && now < s.deadline
  }

  /** How a device login ends: without tokens, or with a 200 that `accept_tokens` judges. */
  datatype Login = NoGrant(err: AuthErr) | Granted(tokens: Tokens, memory: bool, write: Outcome, at: int)

  /** The surroundings of one `auth_client_ensure`: clock, storage, whether the refresh
      request is answered, the answer and when it is handled, and the login if it comes to
      one. */
  datatype Attempt = Attempt(
    now: int, readable: bool, answered: bool, status: int, error: Option<string>, tokens: Tokens,
    memory: bool, write: Outcome, at: int, login: Login)

  /** `asked` tells whether the user had to authorize again. */
  datatype Ended = Ended(session: Session, err: AuthErr, asked: bool)

  function LoggedIn(s: Session, login: Login): Ended {
    match login
    case NoGrant(err) => Ended(s, if err == AuthOk then Fail else err, true)
    case Granted(tokens, memory, write, at) =>
      var (next, err) := Accepted(s, tokens, false, memory, write, at);
      Ended(next, err, true)
  }

  /** `auth_client_ensure`. */
  function Ensured(s: Session, a: Attempt): Ended {
    if Ready(s, a.now) then Ended(s, AuthOk, false)
    else if !a.readable then Ended(s, StorageFailed, false)
    else if s.stored.None? then LoggedIn(s, a.login)
    else if !a.answered then Ended(s, Fail, false)
    else
      var (next, err) := Refreshed(s, a.status, a.error, a.tokens, a.memory, a.write, a.at);
      if err == NotFound then LoggedIn(next, a.login) else Ended(next, err, false)
  }

  /** `Restarted` is a restart without a reset of the sign-in. */
  datatype Step = Ensure(attempt: Attempt) | Invalidate | Restarted

  function Apply(s: Session, step: Step): Session {
    match step
    case Ensure(a) => Ensured(s, a).session
    case Invalidate => s.(access := None, deadline := 0)
    case Restarted => Session(None, 0, s.stored)
  }

  function At(s: Session, steps: seq<Step>, k: nat): Session
    requires k <= |steps|
  {
    if k == 0 then s else Apply(At(s, steps, k - 1), steps[k - 1])
  }

  /** The provider rejects the stored grant in this step, and that reaches flash. */
  predicate Rejected(s: Session, step: Step) {
    && step.Ensure? && s.stored.Some?
    && var a := step.attempt;
       && !Ready(s, a.now) && a.readable && a.answered
       && a.status == 400 && a.error == Some("invalid_grant") && Reached(a.write)
  }

  predicate UserAsked(s: Session, step: Step) {
    step.Ensure? && Ensured(s, step.attempt).asked
  }

  lemma StepKeepsSignIn(s: Session, step: Step)
    requires s.stored.Some? && !Rejected(s, step)
    ensures Apply(s, step).stored.Some? && !UserAsked(s, step)
  {
    hide TokensValid;
  }

  /** Once signed in, the device stays signed in and never asks the user again, through
      every error, restart and lossy write, for as long as the provider does not reject
      the grant. */
  lemma {:induction false} SignInLostOnlyByRejection(s: Session, steps: seq<Step>, k: nat)
    requires s.stored.Some? && k <= |steps|
    requires forall j: nat | j < k :: !Rejected(At(s, steps, j), steps[j])
    ensures At(s, steps, k).stored.Some?
    ensures forall j: nat | j < k :: !UserAsked(At(s, steps, j), steps[j])
  {
    hide Apply, Rejected, UserAsked;
    if k > 0 {
      SignInLostOnlyByRejection(s, steps, k - 1);
      StepKeepsSignIn(At(s, steps, k - 1), steps[k - 1]);
    }
  }

  /** The user is asked again exactly when no usable access token is held, storage can be
      read, and the stored grant is absent or was just rejected and erased. */
  lemma AskedOnlyWhenSignedOut(s: Session, step: Step)
    ensures UserAsked(s, step) <==>
              && step.Ensure? && !Ready(s, step.attempt.now) && step.attempt.readable
              && (s.stored.None? || (Rejected(s, step) && step.attempt.write == Done))
  {
    hide TokensValid;
  }

  /** A token response accepted in a step: its fields, when, and the session it was
      accepted into. */
  datatype Delivery = Delivery(tokens: Tokens, at: int, refreshing: bool)

  predicate Delivers(s: Session, step: Step, d: Delivery) {
    && step.Ensure? && !Ready(s, step.attempt.now)
    && var a, ended := step.attempt, Ensured(s, step.attempt);
       && ended.err == AuthOk
       && if ended.asked then a.login.Granted? && d == Delivery(a.login.tokens, a.login.at, false)
          else d == Delivery(a.tokens, a.at, true)
  }

  /** What acceptance makes sure of. */
  ghost predicate Backed(access: Option<CString>, deadline: int, stored: Option<CString>, d: Delivery) {
    && TokensValid(d.tokens, d.refreshing)
    && access.Some? && access == d.tokens.access
    && d.at < deadline <= d.at + d.tokens.expires.value * SECOND
    && 2 * (deadline - d.at) >= d.tokens.expires.value * SECOND
    && (d.tokens.refresh.Some? ==> stored == d.tokens.refresh)
    && stored.Some?
  }

  lemma AcceptedBacked(s: Session, t: Tokens, refreshing: bool, memory: bool, write: Outcome, now: int)
    requires refreshing ==> s.stored.Some?
    ensures var (next, err) := Accepted(s, t, refreshing, memory, write, now);
            && err != NotFound
            && (err != AuthOk ==> next.access == s.access && next.deadline == s.deadline)
            && (err == AuthOk ==> Backed(next.access, next.deadline, next.stored, Delivery(t, now, refreshing)))
  {
  }

  /** A step delivers a token, or leaves at most the one held before. */
  lemma StepDelivers(s: Session, step: Step) returns (d: Delivery)
    ensures var next := Apply(s, step);
            if Delivers(s, step, d) then Backed(next.access, next.deadline, next.stored, d)
            else next.access.None? || (next.access == s.access && next.deadline == s.deadline)
  {
    d := Delivery(Tokens(false, None, None, None), 0, false);
    if step.Ensure? {
      hide TokensValid, Backed, Accepted;
      var a := step.attempt;
      if s.stored.Some? {
        AcceptedBacked(s, a.tokens, true, a.memory, a.write, a.at);
      }
      if a.login.Granted? {
        AcceptedBacked(s, a.login.tokens, false, a.login.memory, a.login.write, a.login.at);
        AcceptedBacked(s.(stored := NO_TOKEN), a.login.tokens, false, a.login.memory, a.login.write, a.login.at);
      }
      if Ensured(s, a).asked {
        if a.login.Granted? {
          d := Delivery(a.login.tokens, a.login.at, false);
        }
      } else {
        d := Delivery(a.tokens, a.at, true);
      }
    }
  }

  /** In every run from a restart, the access token in use was delivered by some accepted
      response of that run, is retired before that response said it expires but lives at
      least half as long, and was taken into use with its sign-in already on flash. */
  lemma {:induction false} AccessFollowsStorage(s: Session, steps: seq<Step>, k: nat) returns (j: nat, d: Delivery)
    requires s.access.None? && k <= |steps| && At(s, steps, k).access.Some?
    ensures j < k && Delivers(At(s, steps, j), steps[j], d)
    ensures Backed(At(s, steps, k).access, At(s, steps, k).deadline, At(s, steps, j + 1).stored, d)
    ensures forall now :: Ready(At(s, steps, k), now) ==> now < d.at + d.tokens.expires.value * SECOND
  {
    hide Apply, Delivers, TokensValid;
    j := k - 1;
    d := StepDelivers(At(s, steps, j), steps[j]);
    if !Delivers(At(s, steps, j), steps[j], d) {
      j, d := AccessFollowsStorage(s, steps, k - 1);
    }
  }

  /** Invalidation and a restart forget the access token and keep the sign-in, so the next
      attempt renews it. */
  lemma ForgottenTokenIsRenewed(s: Session, step: Step, a: Attempt)
    requires step.Invalidate? || step.Restarted?
    requires s.stored.Some? && a.readable && a.answered && a.status == 200 && a.memory
    requires TokensValid(a.tokens, true) && (a.tokens.refresh.None? || a.write == Done)
    ensures var after := Apply(s, step);
            && after.stored == s.stored && (forall now :: !Ready(after, now))
            && Ensured(after, a).err == AuthOk && Ensured(after, a).session.access == a.tokens.access
  {
    AcceptedIs(Apply(s, step), a.tokens, true, a.memory, a.write, a.at);
  }

  /** An attempt without a usable token asks the provider to renew the stored sign-in, and
      succeeds with whatever usable tokens come back; only without a sign-in, or when it is
      rejected, the user is asked, and the attempt ends as that login does. */
  lemma EnsuredIs(s: Session, a: Attempt)
    ensures var ended := Ensured(s, a);
            var renewed := Accepted(s, a.tokens, true, a.memory, a.write, a.at);
            var login := if a.login.Granted?
                         then Accepted(s.(stored := NO_TOKEN), a.login.tokens, false, a.login.memory, a.login.write, a.login.at)
                         else (s.(stored := NO_TOKEN), a.login.err);
            if s.access.Some? && a.now < s.deadline then ended == Ended(s, AuthOk, false)
            else if !a.readable || (s.stored.Some? && !a.answered) then
              ended.session == s && ended.err != AuthOk && !ended.asked
            else if s.stored.Some? && a.status == 200 then ended == Ended(renewed.0, renewed.1, false)
            else if s.stored.None? || (a.status == 400 && a.error == Some("invalid_grant") && a.write == Done) then
              && ended.asked && ended.session == login.0
              && (a.login.Granted? ==> ended.err == login.1) && (a.login.NoGrant? ==> ended.err != AuthOk)
            else
              && !ended.asked && ended.err != AuthOk
              && ended.session == if a.status == 400 && a.error == Some("invalid_grant") && a.write == FailedNew
                                  then s.(stored := NO_TOKEN) else s
  {
    hide TokensValid;
    if s.stored.Some? {
      AcceptedBacked(s, a.tokens, true, a.memory, a.write, a.at);
    }
  }

  /** An attempt that reports success leaves a usable token. */
  lemma EnsuredMeansReady(s: Session, a: Attempt)
    ensures var ended := Ensured(s, a);
            ended.err == AuthOk ==>
              Ready(ended.session, if Ready(s, a.now) then a.now else if ended.asked then a.login.at else a.at)
  {
    hide TokensValid, Accepted;
    if s.stored.Some? {
      AcceptedBacked(s, a.tokens, true, a.memory, a.write, a.at);
    }
    if a.login.Granted? {
      AcceptedBacked(s, a.login.tokens, false, a.login.memory, a.login.write, a.login.at);
      AcceptedBacked(s.(stored := NO_TOKEN), a.login.tokens, false, a.login.memory, a.login.write, a.login.at);
    }
  }

  class Client {
    var accessToken: Option<CString>
    var accessDeadline: int
    var refreshToken: Option<CString>   // the "refresh_token" key of flash

    ghost function View(): Session
      reads this
    {
      Session(accessToken, accessDeadline, refreshToken)
    }

    constructor (stored: Option<CString>)
      ensures View() == Session(None, 0, stored)
    {
      accessToken, accessDeadline, refreshToken := None, 0, stored;
    }

    method WriteToken(token: Option<CString>, write: Outcome) returns (ok: bool)
      modifies this`refreshToken
      ensures refreshToken == (if Reached(write) then token else old(refreshToken))
      ensures ok <==> write == Done
    {
      if Reached(write) {
        refreshToken := token;
      }
      return write == Done;
    }

    method AcceptTokens(t: Tokens, refreshing: bool, memory: bool, write: Outcome, now: int)
      returns (err: AuthErr)
      modifies this
      ensures (View(), err) == Accepted(old(View()), t, refreshing, memory, write, now)
    {
      if !TokensValid(t, refreshing) {
        return InvalidResponse;
      }
      if !memory {
        return NoMemory;
      }
      if t.refresh.Some? {
        var ok := WriteToken(t.refresh, write);
        if !ok {
          return StorageFailed;
        }
      }
      var expires := t.expires.value;
      accessToken := t.access;
      var margin := if expires > 120 then 60 else expires / 2;
      accessDeadline := now + (expires - margin) * SECOND;
      return AuthOk;
    }

    method Invalidate()
      modifies this
      ensures View() == Apply(old(View()), Step.Invalidate)
    {
      accessToken, accessDeadline := None, 0;
    }

    /** `auth_client_ensure`; a device login is known by how it ends. */
    method EnsureAccess(a: Attempt) returns (err: AuthErr, asked: bool)
      modifies this
      ensures Ended(View(), err, asked) == Ensured(old(View()), a)
    {
      hide TokensValid;
      if accessToken.Some? && a.now < accessDeadline {
        return AuthOk, false;
      }
      if !a.readable {
        return StorageFailed, false;
      }
      err := NotFound;
      if refreshToken.Some? {
        if !a.answered {
          return Fail, false;
        }
        err := HandleRefreshResponse(a.status, a.error, a.tokens, a.memory, a.write, a.at);
      }
      if err != NotFound {
        return err, false;
      }
      match a.login
      case NoGrant(reason) => return if reason == AuthOk then Fail else reason, true;
      case Granted(tokens, memory, write, at) =>
        err := AcceptTokens(tokens, false, memory, write, at);
        return err, true;
    }

    method HandleRefreshResponse(status: int, error: Option<string>, t: Tokens, memory: bool,
                                 write: Outcome, now: int) returns (err: AuthErr)
      modifies this
      ensures (View(), err) == Refreshed(old(View()), status, error, t, memory, write, now)
    {
      if status == 200 {
        err := AcceptTokens(t, true, memory, write, now);
        return;
      }
      if status == 400 && error == Some("invalid_grant") {
        var ok := WriteToken(None, write);
        return if ok then NotFound else StorageFailed;
      }
      return Fail;
    }
  }
}
