/** main/wifi.c: the reconnect worker interleaved with the driver's event callbacks, the
    recovery network, and the ring of recent events that the dashboard reads. */
module Wifi {
  import opened Common

  /// The driver

  /** What ESP-IDF's station does, as far as the worker relies on it. `ending` is set
      once a disconnect was accepted. Every ended attempt or session raises exactly one
      disconnect event; an idle station raises none. */
  datatype Driver = Stopped | Starting | Idle | Connecting(ending: bool) | Up(ending: bool)

  predicate Engaged(d: Driver) {
    d.Connecting? || d.Up?
  }

  /** The event group. */
  datatype Bits = Bits(connected: bool, disconnected: bool, started: bool)

  const RESULT_SLICES := 30
  const CANCEL_SLICES := 5

  /** Where the worker is. The waits are cut into slices of a second, and between any
      two steps the driver may raise events. */
  datatype Pc =
    | InitStart
    | InitWait
    | LoopTop
    | NoSsid
    | ClearDisconnected
    | CallConnect
    | WaitResult(left: nat)
    | CancelDisconnect
    | CancelWait(left: nat)
    | CancelStop
    | CancelClear
    | CancelStart
    | CancelWaitStarted
    | WaitLost
    | Retry

  datatype Station = Station(driver: Driver, bits: Bits, pc: Pc, backoff: nat)

  datatype Action =
    | EventStarted
    | EventGotIp
    | EventDisconnected
    | Work(ok: bool)

  function NextBackoff(backoff: nat): nat {
    if backoff > 15 then 30 else backoff * 2
  }

  /** The bits one wait returns: connected without disconnected. */
  predicate Established(bits: Bits) {
    bits.connected && !bits.disconnected
  }

  predicate Enabled(s: Station, a: Action) {
    match a
    case EventStarted => s.driver.Starting?
    case EventGotIp => Engaged(s.driver)
    case EventDisconnected => Engaged(s.driver)
    case Work(_) => true
  }

  /** `on_disconnected`. */
  function Disconnected(bits: Bits): Bits {
    bits.(connected := false, disconnected := true)
  }

  /** One step of the worker. `ok` is the answer of the driver call made, if any; a wait
      whose bits are clear lets one slice pass. */
  function Worked(hasSsid: bool, s: Station, ok: bool): Station {
    match s.pc
    case InitStart => s.(driver := Starting, pc := InitWait)
    case InitWait =>
      if s.bits.started then s.(bits := s.bits.(started := false), pc := LoopTop) else s
    case LoopTop => s.(pc := if hasSsid then ClearDisconnected else NoSsid)
    case NoSsid => s.(pc := LoopTop)
    case ClearDisconnected => s.(bits := s.bits.(disconnected := false), pc := CallConnect)
    case CallConnect =>
      if ok then s.(driver := Connecting(false), pc := WaitResult(RESULT_SLICES))
      else s.(pc := CancelDisconnect)
    case WaitResult(left) =>
      if s.bits.connected || s.bits.disconnected then
        if Established(s.bits) then s.(pc := WaitLost, backoff := 1) else s.(pc := Retry)
      else if left <= 1 then s.(pc := CancelDisconnect)
      else s.(pc := WaitResult(left - 1))
    case CancelDisconnect =>
      if !ok then s.(pc := CancelStop)
      else
        var driver :=
          match s.driver
          case Connecting(_) => Connecting(true)
          case Up(_) => Up(true)
          case _ => s.driver;
        s.(driver := driver, pc := CancelWait(CANCEL_SLICES))
    case CancelWait(left) =>
      if s.bits.disconnected then s.(pc := Retry)
      else if left <= 1 then s.(pc := CancelStop)
      else s.(pc := CancelWait(left - 1))
    case CancelStop =>
      s.(driver := Stopped, bits := if Engaged(s.driver) then Disconnected(s.bits) else s.bits,
         pc := CancelClear)
    case CancelClear => s.(bits := s.bits.(connected := false, started := false), pc := CancelStart)
    case CancelStart => s.(driver := Starting, pc := CancelWaitStarted)
    case CancelWaitStarted =>
      if s.bits.started then s.(bits := s.bits.(started := false), pc := Retry) else s
    case WaitLost => if s.bits.disconnected then s.(pc := Retry) else s
    case Retry => s.(pc := LoopTop, backoff := NextBackoff(s.backoff))
  }

  function Apply(hasSsid: bool, s: Station, a: Action): Station
    requires Enabled(s, a)
  {
    match a
    case EventStarted => s.(driver := Idle, bits := s.bits.(connected := false, started := true))
    case EventGotIp => s.(driver := Up(s.driver.ending), bits := s.bits.(connected := true))
    case EventDisconnected => s.(driver := Idle, bits := Disconnected(s.bits))
    case Work(ok) => Worked(hasSsid, s, ok)
  }

  const START := Station(Stopped, Bits(false, false, false), InitStart, 1)

  function At(hasSsid: bool, actions: seq<Action>, k: nat): Station
    requires k <= |actions|
  {
    if k == 0 then START
    else
      var before := At(hasSsid, actions, k - 1);
      if Enabled(before, actions[k - 1]) then Apply(hasSsid, before, actions[k - 1]) else before
  }

  /// The delays

  function Pow2(n: nat): (p: nat)
    ensures p > 0
  {
    if n == 0 then 1 else 2 * Pow2(n - 1)
  }

  /** The seconds the `n`-th retry since the last connection waits, counting from 0. */
  function Delay(n: nat): nat {
    Min(Pow2(n), 30)
  }

  /** How often the worker has waited before a retry since a connection was last
      established. */
  function Retries(hasSsid: bool, actions: seq<Action>, k: nat): nat
    requires k <= |actions|
  {
    if k == 0 then 0
    else
      var before, a := At(hasSsid, actions, k - 1), actions[k - 1];
      if a.Work? && before.pc.WaitResult? && Established(before.bits) then 0
      else Retries(hasSsid, actions, k - 1) + if a.Work? && before.pc.Retry? then 1 else 0
  }

  lemma DelayNext(n: nat)
    ensures Delay(n + 1) == NextBackoff(Delay(n))
  {
  }

  lemma BackoffStep(hasSsid: bool, s: Station, a: Action)
    requires Enabled(s, a)
    ensures Apply(hasSsid, s, a).backoff ==
            if a.Work? && s.pc.WaitResult? && Established(s.bits) then 1
            else if a.Work? && s.pc.Retry? then NextBackoff(s.backoff)
            else s.backoff
  {
  }

  /** The `n`-th retry since the last established connection waits min(2^n, 30) seconds:
      1, 2, 4, 8, 16 and then 30. */
  lemma {:induction false} BackoffDoubles(hasSsid: bool, actions: seq<Action>, k: nat)
    requires k <= |actions|
    ensures At(hasSsid, actions, k).backoff == Delay(Retries(hasSsid, actions, k))
  {
    hide Apply, Delay;
    if k == 0 {
      assert Delay(0) == 1 by { FirstDelay(); }
    } else {
      BackoffDoubles(hasSsid, actions, k - 1);
      var before := At(hasSsid, actions, k - 1);
      FirstDelay();
      DelayNext(Retries(hasSsid, actions, k - 1));
      if Enabled(before, actions[k - 1]) {
        BackoffStep(hasSsid, before, actions[k - 1]);
      }
    }
  }

  lemma FirstDelay()
    ensures Delay(0) == 1
  {
  }

  /// The invariant of the worker

  ghost predicate StationInv(s: Station) {
    && (s.bits.connected <==> s.driver.Up?)
    && (s.bits.disconnected ==> !Engaged(s.driver))
    && (s.bits.started ==> s.driver.Idle? && (s.pc.InitWait? || s.pc.CancelWaitStarted?))
    && match s.pc
       case InitStart => s.driver.Stopped?
       case InitWait => s.driver.Starting? || (s.driver.Idle? && s.bits.started)
       case CancelWaitStarted => s.driver.Starting? || (s.driver.Idle? && s.bits.started)
       case LoopTop => s.driver.Idle?
       case NoSsid => s.driver.Idle?
       case ClearDisconnected => s.driver.Idle?
       case CallConnect => s.driver.Idle? && !s.bits.disconnected
       case Retry => s.driver.Idle?
       case WaitResult(_) =>
         (s.driver.Idle? && s.bits.disconnected) || (Engaged(s.driver) && !s.driver.ending)
       case CancelDisconnect => s.driver.Idle? || (Engaged(s.driver) && !s.driver.ending)
       case CancelWait(_) => s.driver.Idle? || (Engaged(s.driver) && s.driver.ending)
       case CancelStop => s.driver.Idle? || Engaged(s.driver)
       case CancelClear => s.driver.Stopped?
       case CancelStart => s.driver.Stopped?
       case WaitLost => (s.driver.Idle? && s.bits.disconnected) || s.driver == Up(false)
  }

  lemma StationStep(hasSsid: bool, s: Station, a: Action)
    requires StationInv(s) && Enabled(s, a)
    ensures StationInv(Apply(hasSsid, s, a))
  {
  }

  lemma StationStart()
    ensures StationInv(START)
  {
  }

  lemma {:induction false} StationInvAt(hasSsid: bool, actions: seq<Action>, k: nat)
    requires k <= |actions|
    ensures StationInv(At(hasSsid, actions, k))
  {
    hide Apply, StationInv;
    if k == 0 {
      StationStart();
    } else {
      StationInvAt(hasSsid, actions, k - 1);
      var before := At(hasSsid, actions, k - 1);
      if Enabled(before, actions[k - 1]) {
        StationStep(hasSsid, before, actions[k - 1]);
      }
    }
  }

  /** Under every interleaving each connection attempt finds the driver idle, so attempts
      never overlap; the connected bit is set exactly while the station is up. */
  lemma ConnectFindsDriverIdle(hasSsid: bool, actions: seq<Action>, k: nat)
    requires k <= |actions|
    ensures var s := At(hasSsid, actions, k);
            && (s.pc.CallConnect? ==> s.driver.Idle? && !s.bits.connected && !s.bits.disconnected)
            && (s.bits.connected <==> s.driver.Up?)
            && (s.pc == CancelStart ==> s.driver.Stopped?)
  {
    StationInvAt(hasSsid, actions, k);
  }

  /** No wake-up is lost: a worker in an unbounded wait has its bit set already, or the
      driver still owes it the event that sets it. */
  lemma UnboundedWaitsAreWoken(hasSsid: bool, actions: seq<Action>, k: nat)
    requires k <= |actions|
    ensures var s := At(hasSsid, actions, k);
            && (s.pc.WaitLost? ==> s.bits.disconnected || s.driver == Up(false))
            && (s.pc.InitWait? || s.pc.CancelWaitStarted? ==> s.bits.started || s.driver.Starting?)
  {
    StationInvAt(hasSsid, actions, k);
  }

  /** Without an SSID no attempt is ever made. */
  lemma {:induction false} WithoutSsidNeverConnects(actions: seq<Action>, k: nat)
    requires k <= |actions|
    ensures var s := At(false, actions, k);
            (s.pc.InitStart? || s.pc.InitWait? || s.pc.LoopTop? || s.pc.NoSsid?) && !Engaged(s.driver)
  {
    if k > 0 {
      WithoutSsidNeverConnects(actions, k - 1);
    }
  }

  /// Progress

  /** The worker's steps from `i` on, up to step `n`. */
  function Works(actions: seq<Action>, i: nat, n: nat): nat
    requires i <= n <= |actions|
  {
    if n == i then 0 else Works(actions, i, n - 1) + if actions[n - 1].Work? then 1 else 0
  }

  /** One step of a run: only the worker moves itself. */
  lemma StepAt(hasSsid: bool, actions: seq<Action>, k: nat)
    requires k < |actions|
    ensures var s, next := At(hasSsid, actions, k), At(hasSsid, actions, k + 1);
            if actions[k].Work? then next == Worked(hasSsid, s, actions[k].ok) else next.pc == s.pc
  {
  }

  lemma {:induction false} WorksFrom(actions: seq<Action>, i: nat, n: nat)
    requires i < n <= |actions|
    ensures Works(actions, i, n) == (if actions[i].Work? then 1 else 0) + Works(actions, i + 1, n)
    decreases n
  {
    if i + 1 < n {
      WorksFrom(actions, i, n - 1);
    }
  }

  /** With an SSID the worker is at the next attempt three of its steps after a retry
      began, and two after the top of the loop; a step is a driver call or a whole delay. */
  lemma {:induction false} RetryLeadsToConnect(actions: seq<Action>, k: nat, n: nat)
    requires k <= n <= |actions|
    requires var pc := At(true, actions, k).pc; pc.Retry? || pc.LoopTop?
    requires Works(actions, k, n) == if At(true, actions, k).pc.Retry? then 3 else 2
    ensures exists j: nat :: k <= j <= n && At(true, actions, j).pc.CallConnect?
  {
    hide At, Worked;
    var j := ToConnect(actions, k, n);
  }

  /** Worker steps that are left until the next attempt. */
  function LoopSteps(pc: Pc): nat {
    if pc.Retry? then 3 else if pc.LoopTop? then 2 else if pc.ClearDisconnected? then 1 else 0
  }

  lemma {:induction false} ToConnect(actions: seq<Action>, k: nat, n: nat) returns (j: nat)
    requires k <= n <= |actions| && Works(actions, k, n) >= LoopSteps(At(true, actions, k).pc)
    requires var pc := At(true, actions, k).pc;
             pc.Retry? || pc.LoopTop? || pc.ClearDisconnected? || pc.CallConnect?
    ensures k <= j <= n && At(true, actions, j).pc.CallConnect?
    decreases n - k
  {
    hide At;
    if At(true, actions, k).pc.CallConnect? {
      j := k;
    } else {
      StepAt(true, actions, k);
      WorksFrom(actions, k, n);
      j := ToConnect(actions, k + 1, n);
    }
  }

  /** How an attempt that the driver accepted comes to its end at step `m`, counted from
      step `i`: with the session established when the wait sees connected without
      disconnected, with a retry when it sees a disconnect, and with the cancellation when
      it has seen neither for all its slices. */
  ghost predicate EndsAttempt(hasSsid: bool, actions: seq<Action>, i: nat, m: nat, slices: nat)
    requires i <= m < |actions|
  {
    var s, next := At(hasSsid, actions, m), At(hasSsid, actions, m + 1).pc;
    && s.pc.WaitResult? && actions[m].Work? && Works(actions, i, m + 1) <= slices
    && if s.bits.disconnected then next == Retry
       else if s.bits.connected then next == WaitLost
       else next == CancelDisconnect && Works(actions, i, m + 1) == slices
  }

  lemma {:induction false} WaitEnds(hasSsid: bool, actions: seq<Action>, i: nat, n: nat, left: nat) returns (m: nat)
    requires i <= n <= |actions| && At(hasSsid, actions, i).pc == WaitResult(left)
    requires 1 <= left <= Works(actions, i, n)
    ensures i <= m < n && EndsAttempt(hasSsid, actions, i, m, left)
    decreases n - i
  {
    hide At;
    StepAt(hasSsid, actions, i);
    WorksFrom(actions, i, n);
    var s, next := At(hasSsid, actions, i), At(hasSsid, actions, i + 1).pc;
    assert Works(actions, i, i + 1) == if actions[i].Work? then 1 else 0;
    if next.WaitResult? {
      m := WaitEnds(hasSsid, actions, i + 1, n, next.left);
      WorksFrom(actions, i, m + 1);
    } else {
      m := i;
    }
  }

  /** An attempt that the driver refuses is cancelled; every attempt that it accepts ends
      within thirty slices. */
  lemma AttemptEnds(hasSsid: bool, actions: seq<Action>, k: nat, n: nat) returns (m: nat)
    requires k < n <= |actions| && At(hasSsid, actions, k).pc.CallConnect?
    requires actions[k].Work? && Works(actions, k + 1, n) >= 30
    ensures !actions[k].ok ==> At(hasSsid, actions, k + 1).pc == CancelDisconnect
    ensures actions[k].ok ==> k < m < n && EndsAttempt(hasSsid, actions, k + 1, m, 30)
  {
    hide At;
    StepAt(hasSsid, actions, k);
    m := 0;
    if actions[k].ok {
      m := WaitEnds(hasSsid, actions, k + 1, n, 30);
    }
  }

  /** How the wait for the acknowledgement of a cancellation ends: with a retry when the
      disconnect was seen, else with a restart of the station after all its slices. */
  ghost predicate EndsCancel(hasSsid: bool, actions: seq<Action>, i: nat, m: nat, slices: nat)
    requires i <= m < |actions|
  {
    var s, next := At(hasSsid, actions, m), At(hasSsid, actions, m + 1).pc;
    && s.pc.CancelWait? && actions[m].Work? && Works(actions, i, m + 1) <= slices
    && if s.bits.disconnected then next == Retry
       else next == CancelStop && Works(actions, i, m + 1) == slices
  }

  lemma {:induction false} CancelWaitEnds(hasSsid: bool, actions: seq<Action>, i: nat, n: nat, left: nat)
    returns (m: nat)
    requires i <= n <= |actions| && At(hasSsid, actions, i).pc == CancelWait(left)
    requires 1 <= left <= Works(actions, i, n)
    ensures i <= m < n && EndsCancel(hasSsid, actions, i, m, left)
    decreases n - i
  {
    hide At;
    StepAt(hasSsid, actions, i);
    WorksFrom(actions, i, n);
    var s, next := At(hasSsid, actions, i), At(hasSsid, actions, i + 1).pc;
    assert Works(actions, i, i + 1) == if actions[i].Work? then 1 else 0;
    if next.CancelWait? {
      m := CancelWaitEnds(hasSsid, actions, i + 1, n, next.left);
      WorksFrom(actions, i, m + 1);
    } else {
      m := i;
    }
  }

  /** A cancellation that the driver refuses restarts the station at once; an accepted one
      waits at most five slices for its disconnect. */
  lemma CancelEnds(hasSsid: bool, actions: seq<Action>, k: nat, n: nat) returns (m: nat)
    requires k < n <= |actions| && At(hasSsid, actions, k).pc.CancelDisconnect?
    requires actions[k].Work? && Works(actions, k + 1, n) >= 5
    ensures !actions[k].ok ==> At(hasSsid, actions, k + 1).pc == CancelStop
    ensures actions[k].ok ==> k < m < n && EndsCancel(hasSsid, actions, k + 1, m, 5)
  {
    hide At;
    StepAt(hasSsid, actions, k);
    m := 0;
    if actions[k].ok {
      m := CancelWaitEnds(hasSsid, actions, k + 1, n, 5);
    }
  }

  /** The worker waits for an event that has not come yet. */
  predicate Waiting(s: Station) {
    || ((s.pc.InitWait? || s.pc.CancelWaitStarted?) && !s.bits.started)
    || (s.pc.WaitLost? && !s.bits.disconnected)
  }

  /** The event a waiting worker needs is one the driver owes, or the end of a session that
      is still up; it lets the worker go on. */
  lemma OwedEventWakes(hasSsid: bool, actions: seq<Action>, k: nat)
    requires k <= |actions| && Waiting(At(hasSsid, actions, k))
    ensures var s := At(hasSsid, actions, k);
            var a := if s.pc.WaitLost? then EventDisconnected else EventStarted;
            && Enabled(s, a) && !Waiting(Apply(hasSsid, s, a))
            && (s.pc.WaitLost? ==> s.driver == Up(false))
  {
    StationInvAt(hasSsid, actions, k);
  }

  /** The worker's steps in which it does not wait for an event. */
  function Effective(hasSsid: bool, actions: seq<Action>, i: nat, n: nat): nat
    requires i <= n <= |actions|
  {
    if n == i then 0
    else
      Effective(hasSsid, actions, i, n - 1) +
      if actions[n - 1].Work? && !Waiting(At(hasSsid, actions, n - 1)) then 1 else 0
  }

  /** At most so many effective steps until the next attempt. */
  function Distance(pc: Pc): nat {
    match pc
    case CallConnect => 0
    case ClearDisconnected => 1
    case LoopTop => 2
    case NoSsid => 3
    case InitWait => 3
    case InitStart => 4
    case Retry => 3
    case WaitLost => 4
    case CancelWaitStarted => 4
    case CancelStart => 5
    case CancelClear => 6
    case CancelStop => 7
    case CancelWait(left) => 8 + left
    case CancelDisconnect => 14
    case WaitResult(left) => 15 + left
  }

  ghost predicate SlicesOk(pc: Pc) {
    && (pc.WaitResult? ==> pc.left <= 30)
    && (pc.CancelWait? ==> pc.left <= 5)
  }

  lemma WorkComesCloser(s: Station, ok: bool)
    requires !s.pc.CallConnect? && !Waiting(s) && SlicesOk(s.pc)
    ensures Distance(Worked(true, s, ok).pc) < Distance(s.pc) && SlicesOk(Worked(true, s, ok).pc)
  {
  }

  lemma WaitingStays(hasSsid: bool, s: Station, ok: bool)
    requires Waiting(s)
    ensures Worked(hasSsid, s, ok) == s
  {
  }

  lemma {:induction false} SlicesOkAt(actions: seq<Action>, k: nat)
    requires k <= |actions|
    ensures SlicesOk(At(true, actions, k).pc)
  {
    if k > 0 {
      SlicesOkAt(actions, k - 1);
      StepAt(true, actions, k - 1);
    }
  }

  lemma {:induction false} NoAttemptComesCloser(actions: seq<Action>, k: nat, n: nat)
    requires k <= n <= |actions|
    requires forall j: nat | k <= j < n :: !At(true, actions, j).pc.CallConnect?
    ensures Distance(At(true, actions, n).pc) + Effective(true, actions, k, n) <= Distance(At(true, actions, k).pc)
  {
    hide At, Worked, Waiting, SlicesOk, Distance;
    if k < n {
      NoAttemptComesCloser(actions, k, n - 1);
      StepAt(true, actions, n - 1);
      SlicesOkAt(actions, n - 1);
      var s := At(true, actions, n - 1);
      if actions[n - 1].Work? {
        if Waiting(s) {
          WaitingStays(true, s, actions[n - 1].ok);
        } else {
          WorkComesCloser(s, actions[n - 1].ok);
        }
      }
    }
  }

  lemma FarthestAway(pc: Pc)
    requires SlicesOk(pc)
    ensures Distance(pc) <= 45 && (Distance(pc) == 0 <==> pc.CallConnect?)
  {
  }

  /** With an SSID, in every run, each stretch of 45 effective worker steps contains an
      attempt, whatever the driver answers and whenever its events come: nothing but an
      event the driver owes, or a session that lasts, keeps the worker from connecting
      again. */
  lemma ConnectsAgain(actions: seq<Action>, k: nat, n: nat)
    requires k <= n <= |actions| && Effective(true, actions, k, n) >= 45
    ensures exists j: nat :: k <= j <= n && At(true, actions, j).pc.CallConnect?
  {
    hide At, Distance, SlicesOk, Waiting;
    SlicesOkAt(actions, k);
    SlicesOkAt(actions, n);
    FarthestAway(At(true, actions, k).pc);
    FarthestAway(At(true, actions, n).pc);
    if forall j: nat | k <= j < n :: !At(true, actions, j).pc.CallConnect? {
      NoAttemptComesCloser(actions, k, n);
      assert At(true, actions, n).pc.CallConnect?;
    }
  }

  /// The recovery network

  const RECOVERY_AFTER := 180 * SECOND

  datatype Recovery = Recovery(active: bool, lastOnline: int)

  /** One `recovery_tick`: whether the station is online, the clock, and whether the
      driver accepts a change of mode (never without a configured password). */
  datatype RecoveryTick = RecoveryTick(online: bool, now: int, accepted: bool)

  predicate Needed(r: Recovery, hasSsid: bool, t: RecoveryTick) {
    !t.online && (!hasSsid || t.now - r.lastOnline >= RECOVERY_AFTER)
  }

  function Ticked(r: Recovery, hasSsid: bool, t: RecoveryTick): Recovery {
    var seen := if t.online then r.(lastOnline := t.now) else r;
    var needed := Needed(seen, hasSsid, t);
    if needed != seen.active && t.accepted then seen.(active := needed) else seen
  }

  function RecoveryAt(hasSsid: bool, started: int, ticks: seq<RecoveryTick>): Recovery {
    if ticks == [] then Recovery(false, started)
    else Ticked(RecoveryAt(hasSsid, started, ticks[..|ticks| - 1]), hasSsid, ticks[|ticks| - 1])
  }

  ghost predicate Monotone(started: int, ticks: seq<RecoveryTick>) {
    && (forall i | 0 <= i < |ticks| :: started <= ticks[i].now)
    && (forall i, j | 0 <= i < j < |ticks| :: ticks[i].now <= ticks[j].now)
  }

  lemma {:induction false} LastOnlineIs(hasSsid: bool, started: int, ticks: seq<RecoveryTick>)
    requires Monotone(started, ticks)
    ensures var last := RecoveryAt(hasSsid, started, ticks).lastOnline;
            && started <= last
            && (forall i | 0 <= i < |ticks| && ticks[i].online :: ticks[i].now <= last)
            && (last == started || exists i :: 0 <= i < |ticks| && ticks[i].online && ticks[i].now == last)
    decreases |ticks|
  {
    if ticks != [] {
      var init := ticks[..|ticks| - 1];
      LastOnlineIs(hasSsid, started, init);
      if !ticks[|ticks| - 1].online {
        var last := RecoveryAt(hasSsid, started, init).lastOnline;
        if last != started {
          var i :| 0 <= i < |init| && init[i].online && init[i].now == last;
          assert ticks[i].online && ticks[i].now == last;
        }
      } else {
        assert ticks[|ticks| - 1].now == RecoveryAt(hasSsid, started, ticks).lastOnline;
      }
    }
  }

  /** The recovery network appears at a tick only if the frame has no SSID or has been
      running three minutes without one online tick in that time; an accepted online
      tick takes it away. */
  lemma RecoveryOnlyWhenOffline(hasSsid: bool, started: int, ticks: seq<RecoveryTick>)
    requires ticks != [] && Monotone(started, ticks)
    ensures var t := ticks[|ticks| - 1];
            var before := RecoveryAt(hasSsid, started, ticks[..|ticks| - 1]);
            var after := RecoveryAt(hasSsid, started, ticks);
            && (!before.active && after.active ==>
                  !t.online &&
                  (!hasSsid ||
                   (t.now - started >= RECOVERY_AFTER &&
                    forall i | 0 <= i < |ticks| && t.now - ticks[i].now < RECOVERY_AFTER :: !ticks[i].online)))
            && (t.online && t.accepted ==> !after.active)
  {
    LastOnlineIs(hasSsid, started, ticks[..|ticks| - 1]);
    LastOnlineIs(hasSsid, started, ticks);
  }

  /** Exactly: after a tick whose change of mode the driver accepts, the network is up if and
      only if that tick was offline and the frame has no SSID or has seen no online tick for
      three minutes; a refused change leaves things as they were. */
  lemma RecoveryExactly(hasSsid: bool, started: int, ticks: seq<RecoveryTick>)
    requires ticks != [] && Monotone(started, ticks)
    ensures var t := ticks[|ticks| - 1];
            var after := RecoveryAt(hasSsid, started, ticks);
            if t.accepted
            then after.active <==>
                 && !t.online
                 && (!hasSsid ||
                     (t.now - started >= 180 * SECOND &&
                      forall i | 0 <= i < |ticks| && t.now - ticks[i].now < 180 * SECOND :: !ticks[i].online))
            else after.active == RecoveryAt(hasSsid, started, ticks[..|ticks| - 1]).active
  {
    LastOnlineIs(hasSsid, started, ticks[..|ticks| - 1]);
    LastOnlineIs(hasSsid, started, ticks);
    var t := ticks[|ticks| - 1];
    var last := RecoveryAt(hasSsid, started, ticks).lastOnline;
    if !t.online && last != started && t.now - last < 180 * SECOND {
      var i :| 0 <= i < |ticks| && ticks[i].online && ticks[i].now == last;
      assert t.now - ticks[i].now < 180 * SECOND;
    }
  }

  class RecoveryState {
    var recovery: bool
    var lastOnline: int

    ghost function View(): Recovery
      reads this
    {
      Recovery(recovery, lastOnline)
    }

    constructor (started: int)
      ensures View() == RecoveryAt(true, started, []) == RecoveryAt(false, started, [])
    {
      recovery, lastOnline := false, started;
    }

    method Tick(hasSsid: bool, online: bool, now: int, accepted: bool)
      modifies this
      ensures View() == Ticked(old(View()), hasSsid, RecoveryTick(online, now, accepted))
    {
      if online {
        lastOnline := now;
      }
      var needed := !online && (!hasSsid || now - lastOnline >= RECOVERY_AFTER);
      if needed == recovery {
        return;
      }
      if accepted {
        recovery := needed;
      }
    }
  }

  /// The event ring

  datatype DiagKind =
    | DiagDisconnected | DiagRetryStarted | DiagRetryWaiting | DiagTimeout
    | DiagConnected | DiagRecoveryOn | DiagRecoveryOff

  datatype DiagEvent = DiagEvent(kind: DiagKind, at: int, reason: byte, rssi: int, retries: nat)

  const HISTORY := 8
  const COUNTER := 0x1_0000_0000

  function Slot(k: nat): (slot: nat)
    ensures slot < HISTORY
  {
    k % HISTORY
  }

  /** The 32-bit counter. */
  function Wrapped(n: nat): (count: nat)
    ensures count < COUNTER && count <= n
  {
    n % COUNTER
  }

  /** Eight slots and a 32-bit count that wraps. */
  datatype Ring = Ring(slots: seq<DiagEvent>, count: nat)

  function Pushed(r: Ring, e: DiagEvent): Ring
    requires |r.slots| == HISTORY
  {
    Ring(r.slots[Slot(r.count) := e], Wrapped(r.count + 1))
  }

  function RingAfter(initial: seq<DiagEvent>, events: seq<DiagEvent>): (r: Ring)
    requires |initial| == HISTORY
    ensures |r.slots| == HISTORY
  {
    if events == [] then Ring(initial, 0)
    else Pushed(RingAfter(initial, events[..|events| - 1]), events[|events| - 1])
  }

  /** What `add_wifi_history` lists. */
  function Listed(r: Ring): seq<DiagEvent>
    requires |r.slots| == HISTORY
  {
    var n := Min(r.count, HISTORY);
    seq(n, i requires 0 <= i < n => r.slots[Slot(r.count - n + i)])
  }

  /// Modular facts

  lemma {:induction false} AddingEights(a: nat, m: nat)
    ensures (a + HISTORY * m) % HISTORY == a % HISTORY
    decreases m
  {
    if m > 0 {
      AddingEights(a, m - 1);
    }
  }

  /** The counter wraps at a multiple of eight, so it names the same slots. */
  lemma SameSlot(n: nat, back: nat)
    requires back <= Wrapped(n)
    ensures Slot(Wrapped(n) - back) == Slot(n - back)
  {
    var wraps := n / COUNTER;
    assert n == wraps * COUNTER + n % COUNTER;
    AddingEights(n % COUNTER - back, wraps * (COUNTER / HISTORY));
  }

  lemma DifferentSlots(j: nat, k: nat)
    requires j < k < j + HISTORY
    ensures Slot(j) != Slot(k)
  {
  }

  lemma WrappedStep(n: nat)
    ensures Wrapped(Wrapped(n) + 1) == Wrapped(n + 1) && Wrapped(0) == 0
  {
  }

  lemma {:induction false} CountIs(initial: seq<DiagEvent>, events: seq<DiagEvent>)
    requires |initial| == HISTORY
    ensures RingAfter(initial, events).count == Wrapped(|events|)
    decreases |events|
  {
    hide Wrapped, Slot;
    WrappedStep(0);
    if events != [] {
      CountIs(initial, events[..|events| - 1]);
      WrappedStep(|events| - 1);
    }
  }

  lemma {:induction false} SlotHoldsLatest(initial: seq<DiagEvent>, events: seq<DiagEvent>, j: nat)
    requires |initial| == HISTORY && j < |events| <= j + HISTORY
    ensures RingAfter(initial, events).slots[Slot(j)] == events[j]
    decreases |events|
  {
    hide Wrapped, Slot;
    var last := |events| - 1;
    CountIs(initial, events[..last]);
    SameSlot(last, 0);
    if j < last {
      SlotHoldsLatest(initial, events[..last], j);
      DifferentSlots(j, last);
    }
  }

  lemma HistoryEntry(initial: seq<DiagEvent>, events: seq<DiagEvent>, i: nat)
    requires |initial| == HISTORY && i < Min(Wrapped(|events|), HISTORY)
    ensures |Listed(RingAfter(initial, events))| == Min(Wrapped(|events|), HISTORY)
    ensures Listed(RingAfter(initial, events))[i] ==
            events[|events| - Min(Wrapped(|events|), HISTORY) + i]
  {
    hide RingAfter, Wrapped, Slot;
    var shown := Min(Wrapped(|events|), HISTORY);
    CountIs(initial, events);
    SlotHoldsLatest(initial, events, |events| - shown + i);
    SameSlot(|events|, shown - i);
  }

  /** After any number of events, the dashboard lists the latest ones in order: as many as
      the 32-bit count shows, at most eight. */
  lemma HistoryIsLatest(initial: seq<DiagEvent>, events: seq<DiagEvent>)
    requires |initial| == HISTORY
    ensures var shown := Min(Wrapped(|events|), HISTORY);
            Listed(RingAfter(initial, events)) == events[|events| - shown..]
  {
    hide RingAfter, Slot, Wrapped;
    var list := Listed(RingAfter(initial, events));
    var latest := events[|events| - Min(Wrapped(|events|), HISTORY)..];
    CountIs(initial, events);
    assert |list| == |latest|;
    hide Listed;
    forall i | 0 <= i < |list|
      ensures list[i] == latest[i]
    {
      HistoryEntry(initial, events, i);
    }
  }

  lemma WrappedSmall(n: nat)
    requires n < COUNTER
    ensures Wrapped(n) == n
  {
  }

  /** So the list is the last eight, or all there are, unless the count has just wrapped. */
  lemma HistoryCompleteUnlessWrapped(initial: seq<DiagEvent>, events: seq<DiagEvent>)
    requires |initial| == HISTORY
    ensures Listed(RingAfter(initial, events)) == events[|events| - Min(|events|, 8)..] <==>
            (|events| < 0x1_0000_0000 || |events| % 0x1_0000_0000 >= 8)
  {
    assert Wrapped(|events|) == |events| % 0x1_0000_0000;
    hide Listed, RingAfter, Wrapped;
    HistoryIsLatest(initial, events);
    var n := |events|;
    if n < COUNTER {
      WrappedSmall(n);
    }
    assert |events[n - Min(Wrapped(n), HISTORY)..]| == Min(Wrapped(n), HISTORY);
    assert |events[n - Min(n, HISTORY)..]| == Min(n, HISTORY);
  }

  class Diagnostics {
    const events: array<DiagEvent>
    var count: nat

    ghost predicate Valid()
      reads this, events
    {
      events.Length == HISTORY && count < COUNTER
    }

    ghost function View(): Ring
      reads this, events
    {
      Ring(events[..], count)
    }

    constructor (blank: DiagEvent)
      ensures Valid() && fresh(events)
      ensures View() == RingAfter(seq(HISTORY, _ => blank), [])
    {
      events := new DiagEvent[HISTORY](_ => blank);
      count := 0;
      new;
      assert events[..] == seq(HISTORY, _ => blank);
    }

    method RecordEvent(e: DiagEvent)
      requires Valid()
      modifies this, events
      ensures Valid() && View() == Pushed(old(View()), e)
    {
      events[count % HISTORY] := e;
      assert events[..] == old(events[..])[Slot(count) := e];
      count := (count + 1) % COUNTER;
    }

    method History() returns (list: seq<DiagEvent>)
      requires Valid()
      ensures list == Listed(View())
    {
      list := [];
      var n := if count < HISTORY then count else HISTORY;
      ghost var wanted := Listed(View());
      for i := 0 to n
        invariant |wanted| == n && list == wanted[..i]
      {
        var index := (count - n + i) % HISTORY;
        assert wanted[i] == events[..][Slot(count - n + i)];
        list := list + [events[index]];
      }
    }
  }
}
