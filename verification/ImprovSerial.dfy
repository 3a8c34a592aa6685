/** main/improv_serial.c and the main loop around it: how the answers on the serial port
    follow what the settings store has made durable. */
module ImprovSerial {
  import opened Common
  import opened Settings
  import opened SettingsStore
  import opened SettingsRuns
  import opened ImprovService
  import Improv

  /** One boot as the serial port sees it: the store, the provisioning session, the
      `restarting` latch, the answer of the last `settings_tick`, and all packets sent. */
  datatype Device = Device(
    world: World, session: Improv.Session, restarting: bool, due: bool, sent: seq<Improv.Packet>)

  datatype Event =
    | Elsewhere(step: Step)
    | MainTick(online: bool, now: int, write: Outcome)
    | FrameReceived(frame: Improv.Event, write: Outcome, now: int)
    | PollTick(url: CString)

  /** Steps of other threads; ticks and serial requests come from the main loop, and a
      boot or a power cut ends the boot. */
  predicate ElsewhereAllowed(step: Step) {
    !(step.StepBoot? || step.Crash? || step.StepTick? || step.StepSaveWifi?)
  }

  predicate Allowed(d: Device, e: Event) {
    d.world.On? &&
    match e
    case Elsewhere(step) => ElsewhereAllowed(step) && Enabled(d.world, step)
    case MainTick(_, now, _) => now >= d.world.lastTick
    case FrameReceived(_, _, now) => now >= 0
    case PollTick(_) => true
  }

  /** `save_wifi`: called when a frame carries well-formed credentials. */
  function Saved(w: World, frame: Improv.Event, write: Outcome, now: int): RequestReply
    requires w.On?
  {
    var asked := Improv.Asked(Some(frame));
    if asked == [] then RequestReply(w.durable, w.ram, EspFail)
    else SaveWifi(w.durable, w.ram, asked[0].ssid, asked[0].password, write, now)
  }

  function Then(version: CString, cfg: Config, d: Device, e: Event): Device
    requires Allowed(d, e)
  {
    match e
    case Elsewhere(step) => d.(world := Apply(cfg, d.world, step))
    case MainTick(online, now, write) =>
      d.(world := Apply(cfg, d.world, StepTick(online, now, write)),
         due := Tick(d.world.durable, d.world.ram, online, now, write).due)
    case FrameReceived(frame, write, now) =>
      var save := Saved(d.world, frame, write, now);
      var reaction := Improv.OnEvent(d.session, Some(frame), version, SaveCode(save.err));
      Device(d.world.(durable := save.durable, ram := save.ram), reaction.session,
             d.restarting || save.err == EspOk, d.due, d.sent + reaction.packets)
    case PollTick(url) =>
      if d.restarting then d
      else
        var trial := d.world.ram.trial;
        var reaction := Improv.Poll(d.session, url, trial, d.due && trial);
        d.(session := reaction.session, sent := d.sent + reaction.packets)
  }

  function After(version: CString, cfg: Config, d: Device, events: seq<Event>, k: nat): Device
    requires k <= |events|
  {
    if k == 0 then d
    else
      var before := After(version, cfg, d, events, k - 1);
      if Allowed(before, events[k - 1]) then Then(version, cfg, before, events[k - 1]) else before
  }

  ghost predicate BootRun(version: CString, cfg: Config, d: Device, events: seq<Event>) {
    forall k: nat | k < |events| :: Allowed(After(version, cfg, d, events, k), events[k])
  }

  lemma Advance(version: CString, cfg: Config, d: Device, events: seq<Event>, k: nat)
    requires BootRun(version, cfg, d, events) && 0 < k <= |events|
    ensures var before, e := After(version, cfg, d, events, k - 1), events[k - 1];
            Allowed(before, e) && After(version, cfg, d, events, k) == Then(version, cfg, before, e)
  {
    hide Then;
    assert Allowed(After(version, cfg, d, events, k - 1), events[k - 1]);
  }

  /** A device as `improv_serial_init` leaves it, right after a boot. */
  function Started(w: World): Device
    requires w.On?
  {
    Device(w, Improv.InitialSession(w.ram.trial), false, false, [])
  }

  ghost predicate BootOf(cfg: Config, w: World, v: World, boot: Step) {
    Reachable(cfg, v) && boot.StepBoot? && Enabled(v, boot) && w == Apply(cfg, v, boot)
  }

  ghost predicate Fresh(cfg: Config, d: Device) {
    d.world.On? && d == Started(d.world) && exists v, boot :: BootOf(cfg, d.world, v, boot)
  }

  lemma FreshFacts(cfg: Config, d: Device)
    requires Fresh(cfg, d)
    ensures d.world.On? && Inv(cfg, d.world) && d == Started(d.world)
    ensures d.world.ram.rebootAt == 0 && d.world.ram.nextCommit == 0
    ensures d.world.ram.bootAt == d.world.lastTick
    ensures d.world.ram.trial ==> d.world.durable.blob == Stored(d.world.ram.record)
  {
    var v, boot :| BootOf(cfg, d.world, v, boot);
    ReachableInv(cfg, v);
    StepKeepsInv(cfg, v, boot);
  }

  /// Counting answers

  predicate IsResult(p: Improv.Packet) {
    p.kind == 4 && p.data != [] && p.data[0] == 1
  }

  predicate IsTimeout(p: Improv.Packet) {
    p == Improv.ErrorPacket(3)
  }

  function Results(sent: seq<Improv.Packet>): nat {
    if sent == [] then 0
    else Results(sent[..|sent| - 1]) + if IsResult(sent[|sent| - 1]) then 1 else 0
  }

  function Timeouts(sent: seq<Improv.Packet>): nat {
    if sent == [] then 0
    else Timeouts(sent[..|sent| - 1]) + if IsTimeout(sent[|sent| - 1]) then 1 else 0
  }

  lemma {:induction false} CountsAppend(a: seq<Improv.Packet>, b: seq<Improv.Packet>)
    ensures Results(a + b) == Results(a) + Results(b)
    ensures Timeouts(a + b) == Timeouts(a) + Timeouts(b)
    decreases |b|
  {
    if b == [] {
      assert a + b == a;
    } else {
      assert (a + b)[..|a + b| - 1] == a + b[..|b| - 1];
      CountsAppend(a, b[..|b| - 1]);
    }
  }

  lemma CountsNothing()
    ensures Results([]) == 0 && Timeouts([]) == 0
  {
  }

  lemma CountsOne(p: Improv.Packet)
    ensures Results([p]) == if IsResult(p) then 1 else 0
    ensures Timeouts([p]) == if IsTimeout(p) then 1 else 0
  {
    assert [p][..0] == [];
  }

  lemma CountsTwo(p: Improv.Packet, q: Improv.Packet)
    ensures Results([p, q]) == (if IsResult(p) then 1 else 0) + (if IsResult(q) then 1 else 0)
    ensures Timeouts([p, q]) == (if IsTimeout(p) then 1 else 0) + (if IsTimeout(q) then 1 else 0)
  {
    CountsOne(p);
    CountsOne(q);
    CountsAppend([p], [q]);
    assert [p] + [q] == [p, q];
  }

  lemma ResultKind(command: byte, strings: seq<seq<byte>>)
    ensures var p := Improv.ResultPacket(command, strings);
            !IsTimeout(p) && (IsResult(p) ==> command == 1)
  {
  }

  /** Commands never answer with a result for command 1 or with a timeout. */
  lemma DispatchCounts(s: Improv.Session, frame: Improv.Event, version: CString, code: byte)
    requires code == 0 || code == 1 || code == 255
    ensures var packets := Improv.OnEvent(s, Some(frame), version, code).packets;
            Results(packets) == 0 && Timeouts(packets) == 0
  {
    hide Improv.WifiRequest, Improv.ResultPacket, Improv.Info, Results, Timeouts;
    ResultKind(3, Improv.Info(version));
    CountsOne(Improv.ErrorPacket(0));
    CountsOne(Improv.ErrorPacket(1));
    CountsOne(Improv.ErrorPacket(2));
    CountsOne(Improv.ErrorPacket(code));
    CountsOne(Improv.StatePacket(s.state));
    CountsOne(Improv.StatePacket(Improv.PROVISIONING));
    CountsOne(Improv.ResultPacket(3, Improv.Info(version)));
    if frame.Frame? {
      CountsAppend([Improv.ErrorPacket(0)], Improv.Answer(s, frame.payload, version, code).packets);
    }
  }

  /** What a poll sends: the timeout exactly when it gives a trial up, the result for
      command 1 only when it completes one. */
  lemma PollCounts(s: Improv.Session, url: CString, trial: bool, expired: bool)
    requires Improv.SessionOk(s)
    ensures var r := Improv.Poll(s, url, trial, expired);
            && Timeouts(r.packets) == (if expired && s.state == Improv.PROVISIONING then 1 else 0)
            && Results(r.packets) <= 1
            && (Results(r.packets) == 1 ==>
                  s.state == Improv.PROVISIONING && !trial && r.session.state == Improv.PROVISIONED)
  {
    hide Improv.ResultPacket, Results, Timeouts;
    CountsNothing();
    CountsTwo(Improv.ErrorPacket(3), Improv.StatePacket(Improv.AUTHORIZED));
    CountsOne(Improv.StatePacket(Improv.AUTHORIZED));
    CountsOne(Improv.StatePacket(Improv.PROVISIONED));
    var owed := Improv.ResultPacket(s.pending, [url]);
    ResultKind(s.pending, [url]);
    CountsOne(owed);
    CountsAppend(if s.state != Improv.PROVISIONED then [Improv.StatePacket(Improv.PROVISIONED)] else [],
                 if s.pending != 0 then [owed] else []);
  }

  /// One boot

  ghost predicate BootInv(cfg: Config, d: Device, trialBoot: bool) {
    && d.world.On? && Inv(cfg, d.world) && Improv.SessionOk(d.session)
    && var ram := d.world.ram;
       && (d.due ==> ram.rebootAt != 0)
       && (d.restarting ==> ram.rebootAt != 0 && !ram.trial)
       && (ram.trial ==>
             && trialBoot && Results(d.sent) == 0
             && (|| (d.session.state == Improv.PROVISIONING && Timeouts(d.sent) == 0)
                 || (d.session.state == Improv.AUTHORIZED && Timeouts(d.sent) == 1 && ram.rebootAt != 0)))
       && (!ram.trial ==>
             && Timeouts(d.sent) == 0 && Results(d.sent) <= (if trialBoot then 1 else 0)
             && (d.session.state == Improv.PROVISIONING && !d.restarting ==>
                   trialBoot && Results(d.sent) == 0))
  }

  lemma ElsewhereKeepsBootInv(version: CString, cfg: Config, d: Device, e: Event, trialBoot: bool)
    requires BootInv(cfg, d, trialBoot) && Allowed(d, e) && e.Elsewhere?
    ensures BootInv(cfg, Then(version, cfg, d, e), trialBoot)
  {
    hide Inv;
    StepKeepsInv(cfg, d.world, e.step);
    var w := Apply(cfg, d.world, e.step);
    assert w.On? && w.ram.trial == d.world.ram.trial
           && (d.world.ram.rebootAt != 0 ==> w.ram.rebootAt != 0) by {
      RestartNeverForgotten(cfg, d.world, e.step);
    }
  }

  lemma RestartNeverForgotten(cfg: Config, w: World, step: Step)
    requires w.On? && Enabled(w, step) && !step.StepBoot? && !step.Crash?
    ensures var w' := Apply(cfg, w, step);
            && w'.On?
            && (!step.StepTick? ==> w'.ram.trial == w.ram.trial)
            && (w.ram.rebootAt != 0 ==> w'.ram.rebootAt == w.ram.rebootAt)
            && (w'.ram.trial ==> w.ram.trial)
            && (w.ram.trial && w.ram.rebootAt != 0 ==> w'.ram.trial)
  {
    hide SettingsValid;
    match step
    case StepSave(_, _, _) =>
    case _ =>
  }

  lemma MainTickKeepsBootInv(version: CString, cfg: Config, d: Device, e: Event, trialBoot: bool)
    requires BootInv(cfg, d, trialBoot) && Allowed(d, e) && e.MainTick?
    ensures BootInv(cfg, Then(version, cfg, d, e), trialBoot)
  {
    var step := StepTick(e.online, e.now, e.write);
    StepKeepsInv(cfg, d.world, step);
    RestartNeverForgotten(cfg, d.world, step);
  }

  /** A serial request changes the store only when it succeeds, and then a restart is
      scheduled and there is no trial. */
  lemma SavedFacts(cfg: Config, w: World, frame: Improv.Event, write: Outcome, now: int)
    requires w.On? && Inv(cfg, w) && now >= 0
    ensures var save := Saved(w, frame, write, now);
            && Inv(cfg, w.(durable := save.durable, ram := save.ram))
            && save.ram.trial == w.ram.trial
            && (save.err == EspOk ==>
                  && !w.ram.trial && save.ram.rebootAt != 0
                  && Improv.Asked(Some(frame)) != [])
            && (save.err != EspOk ==> save.ram == w.ram)
  {
    hide SettingsValid, Improv.Asked;
    var asked := Improv.Asked(Some(frame));
    if asked != [] {
      StepKeepsInv(cfg, w, StepSaveWifi(asked[0].ssid, asked[0].password, write, now));
    }
  }

  /** A frame moves the session to PROVISIONING only by a request that was saved. */
  lemma FrameSession(s: Improv.Session, frame: Improv.Event, version: CString, err: Err)
    requires err == EspOk ==> Improv.Asked(Some(frame)) != []
    ensures var next := Improv.OnEvent(s, Some(frame), version, SaveCode(err)).session;
            if err == EspOk then next == Improv.Session(Improv.PROVISIONING, 1)
            else next.state == s.state
  {
    hide Improv.WifiRequest, Improv.ResultPacket, Improv.Info;
  }

  lemma FrameKeepsBootInv(version: CString, cfg: Config, d: Device, e: Event, trialBoot: bool)
    requires BootInv(cfg, d, trialBoot) && Allowed(d, e) && e.FrameReceived?
    ensures BootInv(cfg, Then(version, cfg, d, e), trialBoot)
  {
    hide Inv, Saved, Improv.OnEvent, Improv.Asked, Results, Timeouts;
    var save := Saved(d.world, e.frame, e.write, e.now);
    var code := SaveCode(save.err);
    SavedFacts(cfg, d.world, e.frame, e.write, e.now);
    FrameSession(d.session, e.frame, version, save.err);
    DispatchCounts(d.session, e.frame, version, code);
    CountsAppend(d.sent, Improv.OnEvent(d.session, Some(e.frame), version, code).packets);
    Improv.SessionStaysOk(d.session, Some(e.frame), version, code, [], false, false);
  }

  lemma PollKeepsBootInv(version: CString, cfg: Config, d: Device, e: Event, trialBoot: bool)
    requires BootInv(cfg, d, trialBoot) && Allowed(d, e) && e.PollTick?
    ensures BootInv(cfg, Then(version, cfg, d, e), trialBoot)
  {
    hide Inv, Improv.ResultPacket;
    var trial := d.world.ram.trial;
    PollCounts(d.session, e.url, trial, d.due && trial);
    CountsAppend(d.sent, Improv.Poll(d.session, e.url, trial, d.due && trial).packets);
    Improv.SessionStaysOk(d.session, None, version, 0, e.url, trial, d.due && trial);
  }

  lemma {:induction false} BootInvAt(version: CString, cfg: Config, d: Device, events: seq<Event>, k: nat)
    requires Fresh(cfg, d) && BootRun(version, cfg, d, events) && k <= |events|
    ensures BootInv(cfg, After(version, cfg, d, events, k), d.world.ram.trial)
  {
    hide Then, BootRun, Allowed, Inv, Fresh;
    FreshFacts(cfg, d);
    var trialBoot := d.world.ram.trial;
    if k == 0 {
      Improv.SessionStaysOk(d.session, None, version, 0, [], trialBoot, false);
    } else {
      Advance(version, cfg, d, events, k);
      BootInvAt(version, cfg, d, events, k - 1);
      var before := After(version, cfg, d, events, k - 1);
      match events[k - 1]
      case Elsewhere(_) => ElsewhereKeepsBootInv(version, cfg, before, events[k - 1], trialBoot);
      case MainTick(_, _, _) => MainTickKeepsBootInv(version, cfg, before, events[k - 1], trialBoot);
      case FrameReceived(_, _, _) => FrameKeepsBootInv(version, cfg, before, events[k - 1], trialBoot);
      case PollTick(_) => PollKeepsBootInv(version, cfg, before, events[k - 1], trialBoot);
    }
  }

  /** In one boot the host gets at most one final answer to command 1, the result or the
      timeout, and none in a boot that began without a trial. A result is owed exactly
      while the state is PROVISIONING. */
  lemma OneFinalAnswer(version: CString, cfg: Config, d: Device, events: seq<Event>, k: nat)
    requires Fresh(cfg, d) && BootRun(version, cfg, d, events) && k <= |events|
    ensures var now := After(version, cfg, d, events, k);
            && Results(now.sent) + Timeouts(now.sent) <= (if d.world.ram.trial then 1 else 0)
            && (now.session.pending == 1 <==> now.session.state == Improv.PROVISIONING)
  {
    BootInvAt(version, cfg, d, events, k);
  }

  /** Did tick `j`, with the station online, end the trial and put a record on flash that
      holds the trial's settings as the active ones and no trial? */
  ghost predicate CommitsAt(version: CString, cfg: Config, d: Device, events: seq<Event>, j: nat)
    requires j < |events|
  {
    var before, after := After(version, cfg, d, events, j), After(version, cfg, d, events, j + 1);
    && events[j].MainTick? && events[j].online && before.world.On? && after.world.On?
    && before.world.ram.trial && !after.world.ram.trial
    && PromotedBlob(after.world.durable.blob, before.world.ram)
  }

  predicate PromotedBlob(blob: Blob, ram: Ram) {
    blob.Stored? && blob.record.active == ram.current && blob.record.pending == 0 && blob.record.tried == 0
  }

  lemma TrialEndsByCommit(version: CString, cfg: Config, d: Device, e: Event)
    requires d.world.On? && Allowed(d, e) && d.world.ram.trial && !Then(version, cfg, d, e).world.ram.trial
    ensures e.MainTick? && e.online
    ensures PromotedBlob(Then(version, cfg, d, e).world.durable.blob, d.world.ram)
  {
    hide SettingsValid, Improv.OnEvent, Improv.Poll;
    match e
    case Elsewhere(step) => RestartNeverForgotten(cfg, d.world, step);
    case _ =>
  }

  lemma StaysOn(version: CString, cfg: Config, d: Device, events: seq<Event>, k: nat)
    requires Fresh(cfg, d) && BootRun(version, cfg, d, events) && k <= |events|
    ensures After(version, cfg, d, events, k).world.On?
    ensures k == 0 ==> After(version, cfg, d, events, k) == d
  {
    BootInvAt(version, cfg, d, events, k);
  }

  lemma {:induction false} CommitFound(version: CString, cfg: Config, d: Device, events: seq<Event>, k: nat)
    returns (j: nat)
    requires Fresh(cfg, d) && BootRun(version, cfg, d, events) && k <= |events|
    requires d.world.On? && d.world.ram.trial
    requires var now := After(version, cfg, d, events, k); now.world.On? && !now.world.ram.trial
    ensures j < k && CommitsAt(version, cfg, d, events, j)
  {
    hide Then, BootRun, Allowed, Fresh, After;
    StaysOn(version, cfg, d, events, k);
    Advance(version, cfg, d, events, k);
    StaysOn(version, cfg, d, events, k - 1);
    if After(version, cfg, d, events, k - 1).world.ram.trial {
      TrialEndsByCommit(version, cfg, After(version, cfg, d, events, k - 1), events[k - 1]);
      j := k - 1;
    } else {
      j := CommitFound(version, cfg, d, events, k - 1);
    }
  }

  /** The result for command 1 is sent only after the promoted record is on flash. */
  lemma ResultOnlyAfterPromotion(version: CString, cfg: Config, d: Device, events: seq<Event>, k: nat)
    requires Fresh(cfg, d) && BootRun(version, cfg, d, events) && k <= |events|
    requires Results(After(version, cfg, d, events, k).sent) > 0
    ensures exists j: nat :: j < k && CommitsAt(version, cfg, d, events, j)
  {
    hide BootRun;
    BootInvAt(version, cfg, d, events, k);
    var j := CommitFound(version, cfg, d, events, k);
  }

  /// The answers do come

  /** A poll sends the result for command 1 exactly when it is owed, nothing is on trial and
      there is an address, as long as every address fits. */
  lemma PollResults(s: Improv.Session, url: CString, trial: bool, expired: bool)
    requires Improv.SessionOk(s) && |url| < URL_SIZE && (expired ==> trial)
    ensures var r := Improv.Poll(s, url, trial, expired);
            && Results(r.packets) == (if s.state == Improv.PROVISIONING && url != [] && !trial then 1 else 0)
            && (!trial ==> (r.session.state == Improv.PROVISIONING <==> s.state == Improv.PROVISIONING && url == []))
  {
    hide Improv.Poll, Improv.TakeStrings, Results, Timeouts, Improv.Spells;
    Improv.PollAnswers(s, url, trial, expired);
    var r := Improv.Poll(s, url, trial, expired);
    CountsNothing();
    CountsTwo(Improv.Packet(2, [3]), Improv.Packet(1, [2]));
    CountsOne(Improv.Packet(1, [2]));
    CountsOne(Improv.Packet(1, [4]));
    if url != [] && !trial && s.pending != 0 {
      var news := if s.state != 4 then [Improv.Packet(1, [4])] else [];
      var answer := r.packets[|news|];
      assert r.packets == news + [answer];
      CountsAppend(news, [answer]);
      CountsOne(answer);
      AnswerIsResult(answer, s.pending, url);
    }
  }

  lemma AnswerIsResult(p: Improv.Packet, command: byte, url: CString)
    requires |url| < URL_SIZE && Improv.Spells(p, command, [url])
    ensures IsResult(p) <==> command == 1
  {
    assert [url][..0] == [];
    assert Improv.ListedSize([url]) == |url| + 1;
  }

  /** `station_url` fills a buffer of 48 bytes. */
  const URL_SIZE := 48

  ghost predicate ShortAddresses(events: seq<Event>) {
    forall i | 0 <= i < |events| && events[i].PollTick? :: |events[i].url| < URL_SIZE
  }

  /** Once a trial boot has committed its trial, the result has been sent or is owed. */
  ghost predicate Owing(d: Device) {
    d.world.On? &&
    (!d.world.ram.trial && !d.restarting ==>
       Results(d.sent) + (if d.session.state == Improv.PROVISIONING then 1 else 0) == 1)
  }

  lemma OwingStep(version: CString, cfg: Config, d: Device, e: Event)
    requires BootInv(cfg, d, true) && Owing(d) && Allowed(d, e)
    requires e.PollTick? ==> |e.url| < URL_SIZE
    ensures Owing(Then(version, cfg, d, e))
  {
    hide Inv, Saved, Improv.OnEvent, Improv.Poll, Improv.Asked, Results, Timeouts, SettingsValid;
    match e
    case Elsewhere(step) => RestartNeverForgotten(cfg, d.world, step);
    case MainTick(online, now, write) => RestartNeverForgotten(cfg, d.world, StepTick(online, now, write));
    case FrameReceived(frame, write, now) =>
      var save := Saved(d.world, frame, write, now);
      var code := SaveCode(save.err);
      SavedFacts(cfg, d.world, frame, write, now);
      FrameSession(d.session, frame, version, save.err);
      DispatchCounts(d.session, frame, version, code);
      CountsAppend(d.sent, Improv.OnEvent(d.session, Some(frame), version, code).packets);
    case PollTick(url) =>
      var trial := d.world.ram.trial;
      PollResults(d.session, url, trial, d.due && trial);
      CountsAppend(d.sent, Improv.Poll(d.session, url, trial, d.due && trial).packets);
  }

  lemma {:induction false} OwingAt(version: CString, cfg: Config, d: Device, events: seq<Event>, k: nat)
    requires Fresh(cfg, d) && d.world.On? && d.world.ram.trial
    requires BootRun(version, cfg, d, events) && ShortAddresses(events) && k <= |events|
    ensures Owing(After(version, cfg, d, events, k))
  {
    hide Then, BootRun, Allowed, Fresh, Owing, BootInv;
    if k == 0 {
      assert Owing(d) by { OwingStart(d); }
    } else {
      Advance(version, cfg, d, events, k);
      OwingAt(version, cfg, d, events, k - 1);
      BootInvAt(version, cfg, d, events, k - 1);
      OwingStep(version, cfg, After(version, cfg, d, events, k - 1), events[k - 1]);
    }
  }

  lemma OwingStart(d: Device)
    requires d.world.On? && d.world.ram.trial
    ensures Owing(d)
  {
  }

  /** In a boot that began as a trial: once the trial is committed, the first poll with an
      address has sent the result for command 1, if no new request was saved before. */
  lemma ResultIsDelivered(version: CString, cfg: Config, d: Device, events: seq<Event>, i: nat)
    requires Fresh(cfg, d) && d.world.On? && d.world.ram.trial
    requires BootRun(version, cfg, d, events) && ShortAddresses(events) && i < |events|
    requires events[i].PollTick? && events[i].url != []
    requires var now := After(version, cfg, d, events, i);
             now.world.On? && !now.world.ram.trial && !now.restarting
    ensures Results(After(version, cfg, d, events, i + 1).sent) == 1
    ensures After(version, cfg, d, events, i + 1).session == Improv.Session(Improv.PROVISIONED, 0)
  {
    hide Then, BootRun, Fresh, Owing, BootInv;
    var before := After(version, cfg, d, events, i);
    Advance(version, cfg, d, events, i + 1);
    BootInvAt(version, cfg, d, events, i);
    OwingAt(version, cfg, d, events, i);
    OwingStep(version, cfg, before, events[i]);
    assert Owing(After(version, cfg, d, events, i + 1));
    DeliveringPoll(version, cfg, before, events[i].url);
  }

  lemma DeliveringPoll(version: CString, cfg: Config, d: Device, url: CString)
    requires BootInv(cfg, d, true) && Owing(d) && !d.world.ram.trial && !d.restarting && url != [] && |url| < URL_SIZE
    ensures var d' := Then(version, cfg, d, PollTick(url));
            d'.session == Improv.Session(Improv.PROVISIONED, 0) && Results(d'.sent) == 1
  {
    hide Inv, Improv.Poll, Results, Timeouts, Improv.Spells;
    Improv.PollAnswers(d.session, url, false, false);
    PollResults(d.session, url, false, false);
    CountsAppend(d.sent, Improv.Poll(d.session, url, false, false).packets);
  }

  /** A poll after the tick that gave the trial up has sent error 3. */
  lemma TimeoutIsDelivered(version: CString, cfg: Config, d: Device, events: seq<Event>, i: nat)
    requires Fresh(cfg, d) && BootRun(version, cfg, d, events) && i < |events|
    requires events[i].PollTick?
    requires var now := After(version, cfg, d, events, i); now.world.On? && now.world.ram.trial && now.due
    ensures Timeouts(After(version, cfg, d, events, i + 1).sent) == 1
    ensures After(version, cfg, d, events, i + 1).session.state == Improv.AUTHORIZED
  {
    hide BootRun, Fresh, Inv, Improv.Poll, Results, Timeouts;
    var before := After(version, cfg, d, events, i);
    Advance(version, cfg, d, events, i + 1);
    BootInvAt(version, cfg, d, events, i);
    PollCounts(before.session, events[i].url, true, true);
    Improv.PollAnswers(before.session, events[i].url, true, true);
    CountsAppend(before.sent, Improv.Poll(before.session, events[i].url, true, true).packets);
  }

  /** A well-formed Wi-Fi request is acknowledged and then answered: PROVISIONING exactly if
      it was stored, error 1 exactly if the form is not acceptable, and else error 255. */
  lemma RequestIsAnswered(version: CString, cfg: Config, d: Device, c: Improv.Credentials, write: Outcome, now: int)
    requires d.world.On? && now >= 0 && 1 <= |c.ssid| <= 32 && |c.password| <= 64
    ensures var e := FrameReceived(Improv.Frame(Improv.WifiCommandData(c)), write, now);
            var d' := Then(version, cfg, d, e);
            var ram := d.world.ram;
            var busy := ram.trial || ram.rebootAt != 0 || ram.firmwareUpdate;
            var acceptable := IsForm(ram.current.(ssid := c.ssid, password := c.password), false);
            && d'.sent == d.sent + [Improv.Packet(2, [0]),
                                    if !acceptable then Improv.Packet(2, [1])
                                    else if busy || write != Done then Improv.Packet(2, [255])
                                    else Improv.Packet(1, [3])]
            && d'.restarting == (d.restarting || (acceptable && !busy && write == Done))
  {
    hide SaveWifi, Improv.WifiCommandData, Improv.OnEvent, Improv.Asked, IsForm;
    var save := SaveWifi(d.world.durable, d.world.ram, c.ssid, c.password, write, now);
    SaveWifiIs(d.world.durable, d.world.ram, c.ssid, c.password, write, now);
    Improv.WifiCommandAsks(d.session, c, version, SaveCode(save.err));
  }

  /// The timeout

  /** Tick `j` wrote the promotion to flash although the write reported an error. */
  predicate LosesPromotion(version: CString, cfg: Config, d: Device, events: seq<Event>, j: nat)
    requires j < |events|
  {
    var before := After(version, cfg, d, events, j);
    && events[j].MainTick? && before.world.On?
    && Promotes(before.world.ram, events[j].online, events[j].now) && events[j].write == FailedNew
  }

  predicate PromotionLost(version: CString, cfg: Config, d: Device, events: seq<Event>, k: nat)
    requires k <= |events|
  {
    exists j: nat :: j < k && LosesPromotion(version, cfg, d, events, j)
  }

  /** What flash holds during a trial. */
  function TrialBlob(ram: Ram, lost: bool): Blob {
    Stored(if lost then Promoted(ram) else ram.record)
  }

  lemma TrialBlobStep(version: CString, cfg: Config, d: Device, e: Event, lost: bool)
    requires d.world.On? && Inv(cfg, d.world) && Allowed(d, e)
    requires d.world.ram.trial && d.world.durable.blob == TrialBlob(d.world.ram, lost)
    requires Then(version, cfg, d, e).world.ram.trial
    ensures var lost' :=
              lost || (e.MainTick? && Promotes(d.world.ram, e.online, e.now) && e.write == FailedNew);
            var w' := Then(version, cfg, d, e).world;
            w'.durable.blob == TrialBlob(w'.ram, lost')
  {
    hide SettingsValid, TokenSafe, Improv.OnEvent, Improv.Poll, Improv.Asked;
    match e
    case Elsewhere(step) => BusyStep(cfg, d.world, step);
    case _ =>
  }

  lemma BusyStep(cfg: Config, w: World, step: Step)
    requires w.On? && w.ram.trial && Enabled(w, step) && ElsewhereAllowed(step)
    ensures var w' := Apply(cfg, w, step);
            w'.durable.blob == w.durable.blob && Promoted(w'.ram) == Promoted(w.ram) && w'.ram.record == w.ram.record
  {
    match step
    case StepSave(_, _, _) =>
    case _ =>
  }

  lemma PromotionLostSnoc(version: CString, cfg: Config, d: Device, events: seq<Event>, k: nat)
    requires k < |events|
    ensures PromotionLost(version, cfg, d, events, k + 1) ==
            (PromotionLost(version, cfg, d, events, k) || LosesPromotion(version, cfg, d, events, k))
  {
    if LosesPromotion(version, cfg, d, events, k) {
      assert k < k + 1;
    }
  }

  lemma {:induction false} TrialBlobAt(version: CString, cfg: Config, d: Device, events: seq<Event>, k: nat)
    requires Fresh(cfg, d) && BootRun(version, cfg, d, events) && k <= |events|
    requires var now := After(version, cfg, d, events, k); now.world.On? && now.world.ram.trial
    ensures var now := After(version, cfg, d, events, k);
            now.world.durable.blob == TrialBlob(now.world.ram, PromotionLost(version, cfg, d, events, k))
  {
    hide Then, BootRun, Allowed, Fresh, After, Inv, PromotionLost;
    FreshFacts(cfg, d);
    StaysOn(version, cfg, d, events, k);
    if k == 0 {
      assert !PromotionLost(version, cfg, d, events, 0) by { NothingLostYet(version, cfg, d, events); }
    } else {
      Advance(version, cfg, d, events, k);
      BootInvAt(version, cfg, d, events, k - 1);
      BootInvAt(version, cfg, d, events, k);
      var before := After(version, cfg, d, events, k - 1);
      TrialStaysOver(version, cfg, before, events[k - 1]);
      TrialBlobAt(version, cfg, d, events, k - 1);
      PromotionLostSnoc(version, cfg, d, events, k - 1);
      TrialBlobStep(version, cfg, before, events[k - 1], PromotionLost(version, cfg, d, events, k - 1));
    }
  }

  lemma NothingLostYet(version: CString, cfg: Config, d: Device, events: seq<Event>)
    ensures !PromotionLost(version, cfg, d, events, 0)
  {
  }

  lemma TrialStaysOver(version: CString, cfg: Config, d: Device, e: Event)
    requires d.world.On? && Allowed(d, e)
    ensures var w' := Then(version, cfg, d, e).world;
            w'.On? && (w'.ram.trial ==> d.world.ram.trial)
  {
    hide SettingsValid, Improv.OnEvent, Improv.Poll, Improv.Asked;
    match e
    case Elsewhere(step) => RestartNeverForgotten(cfg, d.world, step);
    case MainTick(online, now, write) => RestartNeverForgotten(cfg, d.world, StepTick(online, now, write));
    case _ =>
  }

  /** The timeout, error 3, is sent only while the trial is still uncommitted in memory
      and its rolling restart due. Flash then holds the promoted record if and only if
      some promotion write of this boot reported an error and yet reached flash; if none
      did, the record there is unpromoted and the next boot returns to the old settings. */
  lemma TimeoutMeansRollback(version: CString, cfg: Config, d: Device, events: seq<Event>, k: nat)
    requires Fresh(cfg, d) && BootRun(version, cfg, d, events) && k <= |events|
    requires Timeouts(After(version, cfg, d, events, k).sent) > 0
    ensures var now := After(version, cfg, d, events, k);
            var lost := PromotionLost(version, cfg, d, events, k);
            && now.world.On? && now.world.ram.trial && now.world.ram.rebootAt != 0
            && (now.world.durable.blob == Stored(Promoted(now.world.ram)) <==> lost)
            && var saved := Loaded(cfg, now.world.durable.blob);
               !TrialDue(saved) && Chosen(saved) == if lost then now.world.ram.current else now.world.ram.record.active
  {
    hide BootRun, Fresh, After, PromotionLost;
    BootInvAt(version, cfg, d, events, k);
    TrialBlobAt(version, cfg, d, events, k);
  }

  /** The world after a first tick whose promotion is lost. */
  function PromotionLostIn(w: World): World
    requires w.On?
  {
    On(w.durable.(blob := Stored(Promoted(w.ram))), w.ram.(nextCommit := w.ram.bootAt + COMMIT_PAUSE),
       w.client, w.ram.bootAt)
  }

  lemma LosingTick(version: CString, cfg: Config, d: Device)
    requires Fresh(cfg, d) && d.world.On? && d.world.ram.trial
    ensures var e := MainTick(true, d.world.ram.bootAt, FailedNew);
            && Allowed(d, e)
            && Then(version, cfg, d, e) == Device(PromotionLostIn(d.world), d.session, false, false, [])
    ensures Inv(cfg, PromotionLostIn(d.world))
  {
    hide SettingsValid, Fresh, Apply, TokenSafe;
    FreshFacts(cfg, d);
    var ram := d.world.ram;
    assert Promotes(ram, true, ram.bootAt);
    TickIs(cfg, d.world, MainTick(true, ram.bootAt, FailedNew));
    StepKeepsInv(cfg, d.world, StepTick(true, ram.bootAt, FailedNew));
  }

  lemma ExpiringTick(version: CString, cfg: Config, d: Device, now: int)
    requires d.world.On? && Inv(cfg, d.world) && now >= d.world.lastTick
    requires d.world.ram.trial && d.world.ram.rebootAt == 0 && Expired(d.world.ram, now)
    ensures var e := MainTick(false, now, Done);
            && Allowed(d, e)
            && Then(version, cfg, d, e) ==
               d.(world := d.world.(ram := d.world.ram.(rebootAt := now), lastTick := now), due := true)
    ensures Inv(cfg, d.world.(ram := d.world.ram.(rebootAt := now), lastTick := now))
  {
    hide SettingsValid, Apply, TokenSafe;
    TickIs(cfg, d.world, MainTick(false, now, Done));
    StepKeepsInv(cfg, d.world, StepTick(false, now, Done));
  }

  lemma {:induction false} PrefixAfter(version: CString, cfg: Config, d: Device, events: seq<Event>, more: seq<Event>, k: nat)
    requires k <= |events|
    ensures After(version, cfg, d, events + more, k) == After(version, cfg, d, events, k)
  {
    hide Then, Allowed;
    if k > 0 {
      PrefixAfter(version, cfg, d, events, more, k - 1);
    }
  }

  lemma RunAllowed(version: CString, cfg: Config, d: Device, events: seq<Event>, k: nat)
    requires BootRun(version, cfg, d, events) && k < |events|
    ensures Allowed(After(version, cfg, d, events, k), events[k])
  {
  }

  lemma AfterSnoc(version: CString, cfg: Config, d: Device, events: seq<Event>, e: Event)
    requires Allowed(After(version, cfg, d, events, |events|), e)
    ensures After(version, cfg, d, events + [e], |events| + 1) ==
            Then(version, cfg, After(version, cfg, d, events, |events|), e)
  {
    hide Then, Allowed;
    PrefixAfter(version, cfg, d, events, [e], |events|);
  }

  lemma BootRunSnoc(version: CString, cfg: Config, d: Device, events: seq<Event>, e: Event)
    requires BootRun(version, cfg, d, events) && Allowed(After(version, cfg, d, events, |events|), e)
    ensures BootRun(version, cfg, d, events + [e])
    ensures After(version, cfg, d, events + [e], |events| + 1) ==
            Then(version, cfg, After(version, cfg, d, events, |events|), e)
  {
    hide Then, Allowed, After;
    var longer := events + [e];
    forall k: nat | k < |longer|
      ensures Allowed(After(version, cfg, d, longer, k), longer[k])
    {
      PrefixAfter(version, cfg, d, events, [e], k);
      if k < |events| {
        RunAllowed(version, cfg, d, events, k);
      }
    }
    AfterSnoc(version, cfg, d, events, e);
  }

  lemma BootRunNothing(version: CString, cfg: Config, d: Device)
    ensures BootRun(version, cfg, d, []) && After(version, cfg, d, [], 0) == d
  {
  }

  lemma ThreeEvents(version: CString, cfg: Config, d: Device, a: Event, b: Event, c: Event)
    requires Allowed(d, a) && Allowed(Then(version, cfg, d, a), b)
    requires Allowed(Then(version, cfg, Then(version, cfg, d, a), b), c)
    ensures BootRun(version, cfg, d, [a, b, c])
    ensures After(version, cfg, d, [a, b, c], 3) ==
            Then(version, cfg, Then(version, cfg, Then(version, cfg, d, a), b), c)
  {
    hide Then, Allowed, After, BootRun;
    BootRunNothing(version, cfg, d);
    BootRunSnoc(version, cfg, d, [], a);
    assert [] + [a] == [a];
    BootRunSnoc(version, cfg, d, [a], b);
    assert [a] + [b] == [a, b];
    BootRunSnoc(version, cfg, d, [a, b], c);
    assert [a, b] + [c] == [a, b, c];
  }

  /** So the host can be told that a trial failed which the next boot keeps. From any
      trial boot: a promotion whose failed write reached flash, then three minutes
      offline, then the poll. */
  lemma TimeoutAfterLostPromotion(version: CString, cfg: Config, d: Device, url: CString)
    requires Fresh(cfg, d) && d.world.On? && d.world.ram.trial
    ensures var events := [MainTick(true, d.world.ram.bootAt, FailedNew),
                           MainTick(false, d.world.ram.bootAt + TRIAL_LIMIT, Done), PollTick(url)];
            && BootRun(version, cfg, d, events)
            && Timeouts(After(version, cfg, d, events, 3).sent) == 1
            && var next := Boot(cfg, After(version, cfg, d, events, 3).world.durable, true, Done, Done, 0).started;
               next.Some? && !next.value.trial && next.value.current == d.world.ram.current
  {
    var ram := d.world.ram;
    TrialFacts(cfg, d);
    LosingTick(version, cfg, d);
    var first := Device(PromotionLostIn(d.world), d.session, false, false, []);
    ExpiringTick(version, cfg, first, ram.bootAt + TRIAL_LIMIT);
    hide Fresh, Boot, Inv, Results, Timeouts, Improv.Poll, Improv.InitialSession, After, BootRun;
    var expire := MainTick(false, ram.bootAt + TRIAL_LIMIT, Done);
    var second := Then(version, cfg, first, expire);
    ThreeEvents(version, cfg, d, MainTick(true, ram.bootAt, FailedNew), expire, PollTick(url));
    LoadsPromoted(cfg, second.world, ram);
    PollCounts(second.session, url, true, true);
    var packets := Improv.Poll(second.session, url, true, true).packets;
    assert [] + packets == packets;
  }

  /** Whatever was compiled in, every complete form is on trial in some boot, so the
      run above exists. */
  lemma TrialBootReached(cfg: Config, s: FrameSettings) returns (d: Device)
    requires SettingsValid(s, true)
    ensures Fresh(cfg, d) && d.world.On? && d.world.ram.trial && d.world.ram.current == s
  {
    hide SettingsValid, Reachable, Boot;
    var idle := AnySettingsInstalled(cfg, s);
    var saved, w := TrialReached(cfg, idle);
    d := Started(w);
    assert BootOf(cfg, w, Off(saved.durable), RESTART);
  }

  lemma TrialFacts(cfg: Config, d: Device)
    requires Fresh(cfg, d) && d.world.On? && d.world.ram.trial
    ensures d == Device(d.world, Improv.Session(Improv.PROVISIONING, 1), false, false, [])
    ensures d.world.ram.rebootAt == 0 && d.world.ram.record.resetAuth == 0
  {
    FreshFacts(cfg, d);
  }

  lemma LoadsPromoted(cfg: Config, w: World, ram: Ram)
    requires Inv(cfg, w) && w.durable.blob == Stored(Promoted(ram)) && ram.record.resetAuth == 0
    ensures forall d: Durable | d.blob == w.durable.blob ::
              var next := Boot(cfg, d, true, Done, Done, 0).started;
              next.Some? && !next.value.trial && next.value.current == ram.current
  {
  }

  lemma TickIs(cfg: Config, w: World, e: Event)
    requires w.On? && e.MainTick? && e.now >= w.lastTick
    ensures var reply := Tick(w.durable, w.ram, e.online, e.now, e.write);
            Apply(cfg, w, StepTick(e.online, e.now, e.write)) ==
            w.(durable := reply.durable, ram := reply.ram, lastTick := e.now)
  {
  }

  /// The serial tick

  const INPUT_LIMIT := 512

  /** What `improv_serial_tick` reads and changes, and what it has sent and asked for. */
  datatype Port = Port(
    durable: Durable, ram: Ram, parser: Improv.Parser, session: Improv.Session, restarting: bool,
    sent: seq<seq<byte>>, asked: seq<Call>)

  function ReadByte(version: CString, p: Port, b: byte, now: int, write: Outcome, timer: int): (r: Port)
    requires Improv.Partial(p.parser.buf)
    ensures Improv.Partial(r.parser.buf)
  {
    var (buf, frame) := Improv.FeedByte(Improv.Kept(p.parser, now), b);
    var asked := Improv.Asked(frame);
    var (link, code) := Called(Backing(p.durable, p.ram, p.restarting), asked, write, timer);
    var reaction := Improv.OnEvent(p.session, frame, version, code);
    Improv.ReactionsOk(p.session, frame, version, code, [], false, false);
    Port(link.durable, link.ram, Improv.Parser(buf, now), reaction.session, link.restarting,
         p.sent + Improv.Wire(reaction.packets), p.asked + Calls(asked, |p.sent| + 1))
  }

  function ReadAll(version: CString, p: Port, s: seq<byte>, now: int, writes: nat -> Outcome, timer: int): (r: Port)
    requires Improv.Partial(p.parser.buf)
    ensures Improv.Partial(r.parser.buf)
  {
    if s == [] then p
    else
      ReadByte(version, ReadAll(version, p, s[..|s| - 1], now, writes, timer), s[|s| - 1], now,
               writes(|s| - 1), timer)
  }

  function Polled(version: CString, p: Port, url: CString, due: bool): Port {
    if p.restarting then p
    else
      var reaction := Improv.Poll(p.session, url, p.ram.trial, due && p.ram.trial);
      Improv.ReactionsOk(p.session, None, version, 0, url, p.ram.trial, due && p.ram.trial);
      p.(session := reaction.session, sent := p.sent + Improv.Wire(reaction.packets))
  }

  function SerialTick(version: CString, p: Port, input: seq<byte>, url: CString, now: int, due: bool,
                      writes: nat -> Outcome, timer: int): Port
    requires Improv.Partial(p.parser.buf)
  {
    Polled(version, ReadAll(version, p, input[..Min(|input|, INPUT_LIMIT)], now, writes, timer), url, due)
  }

  /// The tick as a run

  /** The port is the device as the run sees it, with the packets as bytes on the wire. */
  ghost predicate Mirrors(d: Device, p: Port) {
    && d.world.On? && d.world.durable == p.durable && d.world.ram == p.ram
    && d.session == p.session && d.restarting == p.restarting
    && Improv.PacketsOk(d.sent) && p.sent == Improv.Wire(d.sent)
  }

  /** A byte does what `FrameReceived` does when it completes a frame, and nothing
      otherwise. */
  lemma ReadByteIsFrame(version: CString, cfg: Config, d: Device, p: Port, b: byte, now: int,
                        write: Outcome, timer: int)
    requires Mirrors(d, p) && timer >= 0 && Improv.Partial(p.parser.buf)
    ensures var frame := Improv.FeedByte(Improv.Kept(p.parser, now), b).1;
            var d' := if frame.None? then d else Then(version, cfg, d, FrameReceived(frame.value, write, timer));
            Mirrors(d', ReadByte(version, p, b, now, write, timer))
  {
    hide SaveWifi, Improv.OnEvent, Improv.Asked, Improv.FeedByte, Improv.PacketsOk, Improv.Wire;
    var frame := Improv.FeedByte(Improv.Kept(p.parser, now), b).1;
    var code := Called(Backing(p.durable, p.ram, p.restarting), Improv.Asked(frame), write, timer).1;
    Improv.ReactionsOk(p.session, frame, version, code, [], false, false);
    NothingCompleted(p.session, version);
    Improv.WireAppend(d.sent, Improv.OnEvent(p.session, frame, version, code).packets);
  }

  lemma PollIsPollTick(version: CString, cfg: Config, d: Device, p: Port, url: CString)
    requires Mirrors(d, p)
    ensures Mirrors(Then(version, cfg, d, PollTick(url)), Polled(version, p, url, d.due))
  {
    hide Improv.Poll, Improv.PacketsOk, Improv.Wire;
    var trial := p.ram.trial;
    Improv.ReactionsOk(p.session, None, version, 0, url, trial, d.due && trial);
    Improv.WireAppend(d.sent, Improv.Poll(p.session, url, trial, d.due && trial).packets);
  }

  function Stamped(s: seq<byte>, now: int): seq<Improv.Timed> {
    seq(|s|, i requires 0 <= i < |s| => Improv.Timed(s[i], now))
  }

  lemma ReadByteParses(version: CString, p: Port, b: byte, now: int, write: Outcome, timer: int)
    requires Improv.Partial(p.parser.buf)
    ensures Improv.FeedTimed(p.parser, [Improv.Timed(b, now)]) ==
            (ReadByte(version, p, b, now, write, timer).parser,
             Improv.Events(Improv.FeedByte(Improv.Kept(p.parser, now), b).1))
  {
    hide Improv.OnEvent, SaveWifi, Improv.Wire, Improv.Asked;
    var one := [Improv.Timed(b, now)];
    assert one[1..] == [];
    var event := Improv.FeedByte(Improv.Kept(p.parser, now), b).1;
    assert Improv.Events(event) + [] == Improv.Events(event);
  }

  lemma ReadAllParsesSnoc(version: CString, p: Port, s: seq<byte>, now: int, writes: nat -> Outcome, timer: int)
    requires Improv.Partial(p.parser.buf) && s != []
    ensures var q := ReadAll(version, p, s[..|s| - 1], now, writes, timer);
            var (mid, first) := Improv.FeedTimed(p.parser, Stamped(s[..|s| - 1], now));
            mid == q.parser ==>
              Improv.FeedTimed(p.parser, Stamped(s, now)) ==
              (ReadAll(version, p, s, now, writes, timer).parser,
               first + Improv.Events(Improv.FeedByte(Improv.Kept(q.parser, now), s[|s| - 1]).1))
  {
    hide ReadByte, Improv.FeedTimed, Improv.FeedByte, Improv.Events;
    var init, last := s[..|s| - 1], Improv.Timed(s[|s| - 1], now);
    var q := ReadAll(version, p, init, now, writes, timer);
    ReadByteParses(version, q, s[|s| - 1], now, writes(|s| - 1), timer);
    assert Stamped(s, now) == Stamped(init, now) + [last];
    Improv.FeedTimedAppend(p.parser, Stamped(init, now), [last]);
  }

  /** What a tick reads goes through the parser exactly once, in order. */
  lemma {:induction false} ReadAllParses(version: CString, p: Port, s: seq<byte>, now: int,
                                         writes: nat -> Outcome, timer: int)
    requires Improv.Partial(p.parser.buf)
    ensures ReadAll(version, p, s, now, writes, timer).parser == Improv.FeedTimed(p.parser, Stamped(s, now)).0
    decreases |s|
  {
    hide ReadByte;
    if s == [] {
      assert Stamped(s, now) == [];
    } else {
      ReadAllParses(version, p, s[..|s| - 1], now, writes, timer);
      ReadAllParsesSnoc(version, p, s, now, writes, timer);
    }
  }

  /** These events are the receipt of these frames, in order. */
  ghost predicate Receives(events: seq<Event>, frames: seq<Improv.Event>) {
    |events| == |frames| && forall i | 0 <= i < |events| :: events[i].FrameReceived? && events[i].frame == frames[i]
  }

  lemma {:induction false} ReadAllIsRun(version: CString, cfg: Config, d: Device, p: Port, s: seq<byte>, now: int,
                                        writes: nat -> Outcome, timer: int) returns (events: seq<Event>)
    requires Mirrors(d, p) && timer >= 0 && Improv.Partial(p.parser.buf)
    ensures BootRun(version, cfg, d, events)
    ensures After(version, cfg, d, events, |events|).due == d.due
    ensures Mirrors(After(version, cfg, d, events, |events|), ReadAll(version, p, s, now, writes, timer))
    ensures Receives(events, Improv.FeedTimed(p.parser, Stamped(s, now)).1)
    decreases |s|
  {
    hide Mirrors, ReadByte, BootRun, After, Then, Allowed, Improv.FeedTimed, Improv.FeedByte;
    if s == [] {
      events := [];
      BootRunNothing(version, cfg, d);
      assert Stamped(s, now) == [];
      Improv.FedNothing(p.parser);
    } else {
      var init, b := s[..|s| - 1], s[|s| - 1];
      var write := writes(|s| - 1);
      events := ReadAllIsRun(version, cfg, d, p, init, now, writes, timer);
      var mid := After(version, cfg, d, events, |events|);
      var q := ReadAll(version, p, init, now, writes, timer);
      ReadAllParses(version, p, init, now, writes, timer);
      ReadAllParsesSnoc(version, p, s, now, writes, timer);
      ReadByteIsFrame(version, cfg, mid, q, b, now, write, timer);
      var frame := Improv.FeedByte(Improv.Kept(q.parser, now), b).1;
      if frame.Some? {
        var e := FrameReceived(frame.value, write, timer);
        FrameAllowed(version, cfg, mid, q, e);
        BootRunSnoc(version, cfg, d, events, e);
        events := events + [e];
        assert |events| == |events[..|events| - 1]| + 1;
      }
    }
  }

  lemma FrameAllowed(version: CString, cfg: Config, d: Device, p: Port, e: Event)
    requires Mirrors(d, p) && ((e.FrameReceived? && e.now >= 0) || e.PollTick?)
    ensures Allowed(d, e) && Then(version, cfg, d, e).due == d.due
  {
  }

  /** One serial tick is a run: the receipt of exactly the frames the parser finds in what
      was read, then one poll. Store, session and latch agree, and the bytes sent are the
      packets of the run. */
  lemma SerialTickIsRun(version: CString, cfg: Config, d: Device, p: Port, input: seq<byte>, url: CString,
                        now: int, writes: nat -> Outcome, timer: int) returns (read: seq<Event>)
    requires Mirrors(d, p) && timer >= 0 && Improv.Partial(p.parser.buf)
    ensures var events := read + [PollTick(url)];
            var after := After(version, cfg, d, events, |events|);
            && BootRun(version, cfg, d, events) && after.due == d.due
            && Mirrors(after, SerialTick(version, p, input, url, now, d.due, writes, timer))
    ensures Receives(read, Improv.FeedTimed(p.parser, Stamped(input[..Min(|input|, 512)], now)).1)
  {
    hide Mirrors, ReadAll, Polled, BootRun, After, Then, Allowed, Improv.FeedTimed;
    var s := input[..Min(|input|, INPUT_LIMIT)];
    read := ReadAllIsRun(version, cfg, d, p, s, now, writes, timer);
    var mid := After(version, cfg, d, read, |read|);
    var q := ReadAll(version, p, s, now, writes, timer);
    FrameAllowed(version, cfg, mid, q, PollTick(url));
    BootRunSnoc(version, cfg, d, read, PollTick(url));
    PollIsPollTick(version, cfg, mid, q, url);
    assert |read + [PollTick(url)]| == |read| + 1;
  }

  /** The statics of improv_serial.c; `restarting` is kept with the callback that sets it. */
  class Serial {
    const service: Service

    ghost predicate Valid()
      reads this, service, service.frame
    {
      service.Valid()
    }

    ghost function View(): Port
      reads this, service, service.frame, service.io, service.io.store, service.io.store.flash
      requires Valid()
    {
      var link := service.io.Link();
      Port(link.durable, link.ram, service.Input(), service.View(), link.restarting,
           service.io.sent, service.io.asked)
    }

    constructor (service: Service)
      requires service.Valid()
      ensures this.service == service && Valid()
    {
      this.service := service;
    }

    /** One byte through `improv_feed`. */
    method Read(b: byte, now: int, write: Outcome, timer: int)
      requires Valid()
      modifies service, service.frame, service.io, service.io.store`record, service.io.store`rebootAt,
               service.io.store.flash`blob
      ensures Valid() && View() == ReadByte(service.io.version, old(View()), b, now, write, timer)
    {
      hide Called, Improv.OnEvent, Improv.Wire, Improv.Asked, Improv.FeedByte;
      service.Feed(b, now, write, timer);
    }

    /** The read loop: at most 512 bytes a tick, so noise cannot starve the main loop. */
    method ReadInput(input: seq<byte>, now: int, writes: nat -> Outcome, timer: int)
      requires Valid()
      modifies service, service.frame, service.io, service.io.store`record, service.io.store`rebootAt,
               service.io.store.flash`blob
      ensures Valid()
      ensures View() == ReadAll(service.io.version, old(View()), input[..Min(|input|, INPUT_LIMIT)], now, writes, timer)
    {
      hide ReadByte;
      ghost var before := View();
      var i := 0;
      while i < INPUT_LIMIT && i < |input|
        invariant 0 <= i <= Min(|input|, INPUT_LIMIT) && Valid()
        invariant View() == ReadAll(service.io.version, before, input[..i], now, writes, timer)
      {
        assert input[..i + 1][..i] == input[..i];
        Read(input[i], now, writes(i), timer);
        i := i + 1;
      }
    }

    method Tick(input: seq<byte>, url: CString, now: int, due: bool, writes: nat -> Outcome, timer: int)
      requires Valid()
      modifies service, service.frame, service.io, service.io.store`record, service.io.store`rebootAt,
               service.io.store.flash`blob
      ensures Valid()
      ensures View() == SerialTick(service.io.version, old(View()), input, url, now, due, writes, timer)
    {
      hide ReadAll, Improv.Poll;
      ReadInput(input, now, writes, timer);
      if !service.io.restarting {
        var trial := service.io.store.trial;
        service.PollUrl(url, trial, due && trial);
      }
    }
  }
}
