/** The crash-safe settings store of main/settings.c: what each call does to flash and
    to the statics (functions on values), and the class whose methods do it in place.

    A durable write has one of three outcomes (`Outcome`). An error anywhere in
    `settings_init` aborts the boot, so an error after the token was erased, or one
    whose write reached flash, leaves exactly what a power cut at that point leaves. */
module SettingsStore {
  import opened Common
  import opened Settings
  import Protocol

  /** The "settings" key: absent, of another NVS type, of another size, or a record. */
  datatype Blob = Missing | WrongType | WrongSize | Stored(record: Record)

  /** What survives a restart. The token is known by the identity that obtained it. */
  datatype Durable = Durable(blob: Blob, token: Option<Identity>)

  /** The statics of settings.c; `rebootAt == 0` means no restart is scheduled. */
  datatype Ram = Ram(
    record: Record, current: FrameSettings, trial: bool, brightness: int,
    rebootAt: int, bootAt: int, nextCommit: int, firmwareUpdate: bool)

  datatype SaveResult = Unchanged | Applied | Restart | WifiTrial

  const TRIAL_LIMIT := 180 * SECOND
  const COMMIT_PAUSE := 5 * SECOND
  const REBOOT_DELAY := 2 * SECOND

  function Flag(b: bool): byte {
    if b then 1 else 0
  }

  function Written(d: Durable, next: Record, write: Outcome): Durable {
    if Reached(write) then d.(blob := Stored(next)) else d
  }

  function TokenWritten(d: Durable, token: Option<Identity>, write: Outcome): Durable {
    if Reached(write) then d.(token := token) else d
  }

  /// settings_init

  /** The record a boot starts from: compiled defaults stand in for a record that is
      absent or unusable. */
  function Loaded(cfg: Config, blob: Blob): Record {
    if blob.Stored? && RecordValid(blob.record) then blob.record else FreshRecord(cfg)
  }

  predicate TrialDue(r: Record) {
    r.pending != 0 && r.tried == 0
  }

  /** The markers of `resolve_interrupted_trial`, before the token is erased. */
  function Marked(r: Record): Record {
    if TrialDue(r) then r.(tried := 1)
    else if r.pending != 0 then
      r.(resetAuth := Flag(r.resetAuth != 0 || IdentityChanged(r.active, r.candidate)),
         pending := 0, tried := 0)
    else r
  }

  /** The settings a boot from `r` runs on. */
  function Chosen(r: Record): FrameSettings {
    if TrialDue(r) then r.candidate else r.active
  }

  /** `started` is None when `settings_init` reports an error. */
  datatype BootReply = BootReply(durable: Durable, started: Option<Ram>)

  function Booted(r: Record, trial: bool, current: FrameSettings, now: int): Ram {
    Ram(r, current, trial, current.brightness, 0, now, 0, false)
  }

  function Boot(cfg: Config, d: Durable, readable: bool, erase: Outcome, write: Outcome, now: int): BootReply {
    if !readable then BootReply(d, None)
    else
      var loaded := Loaded(cfg, d.blob);
      var marked := Marked(loaded);
      var erased := if marked.resetAuth != 0 then TokenWritten(d, None, erase) else d;
      if marked.resetAuth != 0 && erase != Done then BootReply(erased, None)
      else
        var next := marked.(resetAuth := 0);
        var written := if next != loaded then Written(erased, next, write) else erased;
        if next != loaded && write != Done then BootReply(written, None)
        else BootReply(written, Some(Booted(next, TrialDue(loaded), Chosen(loaded), now)))
  }

  /// Requests

  predicate Busy(ram: Ram) {
    ram.trial || ram.rebootAt != 0 || ram.firmwareUpdate
  }

  /** `result` is set only on success; `refresh` asks for `leds_refresh`. */
  datatype SaveReply = SaveReply(durable: Durable, ram: Ram, err: Err, result: Option<SaveResult>, refresh: bool)

  function Refused(d: Durable, ram: Ram, err: Err): SaveReply {
    SaveReply(d, ram, err, None, false)
  }

  /** The record a save writes. */
  function SavedRecord(ram: Ram, s: FrameSettings): Record {
    var wifi := WifiChanged(s, ram.current);
    var next := if wifi then ram.record.(candidate := s) else ram.record.(active := s);
    next.(pending := Flag(wifi), tried := 0, resetAuth := Flag(IdentityChanged(s, ram.current)))
  }

  function Save(d: Durable, ram: Ram, s: FrameSettings, write: Outcome, now: int): SaveReply {
    if !SettingsValid(s, true) then Refused(d, ram, EspInvalidArg)
    else if Busy(ram) then Refused(d, ram, EspInvalidState)
    else
      var restart := RestartRequired(s, ram.current);
      if !restart && s.brightness == ram.brightness then SaveReply(d, ram, EspOk, Some(Unchanged), false)
      else
        var next := SavedRecord(ram, s);
        if write != Done then Refused(Written(d, next, write), ram, EspFail)
        else
          var result :=
            if WifiChanged(s, ram.current) then WifiTrial else if restart then Restart else Applied;
          var rebootAt := if restart then now + REBOOT_DELAY else ram.rebootAt;
          SaveReply(Written(d, next, write),
                    ram.(record := next, brightness := s.brightness, rebootAt := rebootAt),
                    EspOk, Some(result), ram.brightness != s.brightness)
  }

  function WifiCandidate(ram: Ram, ssid: CString, password: CString): FrameSettings {
    ram.current.(ssid := ssid, password := password)
  }

  /** The record a serial request writes. */
  function WifiRecord(ram: Ram, ssid: CString, password: CString): Record {
    ram.record.(candidate := WifiCandidate(ram, ssid, password).(brightness := ram.brightness),
                pending := 1, tried := 0, resetAuth := 0)
  }

  /** `err` of the two requests that always schedule a restart. */
  datatype RequestReply = RequestReply(durable: Durable, ram: Ram, err: Err)

  function Scheduled(d: Durable, ram: Ram, next: Record, write: Outcome, now: int): RequestReply {
    if write == Done then
      RequestReply(Written(d, next, write), ram.(record := next, rebootAt := now + REBOOT_DELAY), EspOk)
    else RequestReply(Written(d, next, write), ram, EspFail)
  }

  /** Serial provisioning: always a trial, with the live brightness. */
  function SaveWifi(d: Durable, ram: Ram, ssid: CString, password: CString, write: Outcome, now: int): RequestReply {
    var candidate := WifiCandidate(ram, ssid, password);
    if !WifiStringsValid(ssid, password) || !SettingsValid(candidate, false) then
      RequestReply(d, ram, EspInvalidArg)
    else if Busy(ram) then RequestReply(d, ram, EspInvalidState)
    else
      Scheduled(d, ram, WifiRecord(ram, ssid, password), write, now)
  }

  function ResetAuth(d: Durable, ram: Ram, write: Outcome, now: int): RequestReply {
    if Busy(ram) then RequestReply(d, ram, EspInvalidState)
    else Scheduled(d, ram, ram.record.(resetAuth := 1), write, now)
  }

  /// settings_tick

  /** The record that ends a trial. */
  function Promoted(ram: Ram): Record {
    ram.record.(active := ram.current, pending := 0, tried := 0)
  }

  predicate Expired(ram: Ram, now: int) {
    now - ram.bootAt >= TRIAL_LIMIT
  }

  /** Does this tick try to write the promotion? */
  predicate Promotes(ram: Ram, online: bool, now: int) {
    && ram.trial && ram.rebootAt == 0 && !Expired(ram, now)
    && online && now >= ram.nextCommit
  }

  datatype TickReply = TickReply(durable: Durable, ram: Ram, due: bool)

  function Tick(d: Durable, ram: Ram, online: bool, now: int, write: Outcome): TickReply {
    var d' := if Promotes(ram, online, now) then Written(d, Promoted(ram), write) else d;
    var ram' :=
      if !ram.trial || ram.rebootAt != 0 then ram
      else if Expired(ram, now) then ram.(rebootAt := now)
      else if !Promotes(ram, online, now) then ram
      else if write == Done then ram.(record := Promoted(ram), trial := false, nextCommit := now + COMMIT_PAUSE)
      else ram.(nextCommit := now + COMMIT_PAUSE);
    TickReply(d', ram', ram'.rebootAt != 0 && now >= ram'.rebootAt)
  }

  function UpdateBegin(ram: Ram): (Ram, bool) {
    if Busy(ram) then (ram, false) else (ram.(firmwareUpdate := true), true)
  }

  function UpdateEnd(ram: Ram): Ram {
    ram.(firmwareUpdate := false)
  }

  /// What the calls come to, field by field

  /** The live settings: the boot snapshot under the live brightness. */
  function Live(ram: Ram): FrameSettings {
    ram.current.(brightness := ram.brightness)
  }

  /** Does the boot of a stored record end the sign-in? On a reset, and when a trial that
      did not end well had another tenant or client. */
  predicate SignsOut(r: Record) {
    || r.resetAuth != 0
    || (r.pending != 0 && r.tried != 0
        && (r.active.tenant != r.candidate.tenant || r.active.client != r.candidate.client))
  }

  /** A boot that starts. A staged candidate is run once, under the tried marker; an
      interrupted trial is over, and its settings are forgotten; anything else runs as it
      is. The token is erased exactly when the sign-in must end. */
  lemma BootOfRecord(cfg: Config, d: Durable, erase: Outcome, write: Outcome, now: int)
    requires d.blob.Stored? && RecordValid(d.blob.record)
    ensures var r, reply := d.blob.record, Boot(cfg, d, true, erase, write, now);
            var first := r.pending == 1 && r.tried == 0;
            && (erase == Done && write == Done ==> reply.started.Some?)
            && (reply.started.Some? ==> reply.durable.token == if SignsOut(r) then None else d.token)
            && (reply.started.Some? ==>
                  var ram := reply.started.value;
                     && ram.current == (if first then r.candidate else r.active)
                     && ram.trial == first && ram.brightness == ram.current.brightness
                     && ram.rebootAt == 0 && ram.bootAt == now && ram.nextCommit == 0 && !ram.firmwareUpdate
                     && ram.record.active == r.active && ram.record.candidate == r.candidate
                     && ram.record.version == 1 && ram.record.resetAuth == 0
                     && ram.record.pending == Flag(first)
                     && ram.record.tried == (if r.pending == 1 then Flag(first) else r.tried)
                     && reply.durable.blob == Stored(ram.record))
            && (reply.durable.token != d.token ==> SignsOut(r))
            && (r.pending == 0 && r.resetAuth == 0 ==> reply.started.Some? && reply.durable == d)
  {
    hide SettingsValid;
  }

  /** A boot without a usable record runs the defaults and writes nothing; one that cannot
      read its storage does nothing at all. */
  lemma BootOfNothing(cfg: Config, d: Durable, readable: bool, erase: Outcome, write: Outcome, now: int)
    requires !readable || !d.blob.Stored? || !RecordValid(d.blob.record)
    ensures var reply := Boot(cfg, d, readable, erase, write, now);
            && reply.durable == d && (reply.started.Some? <==> readable)
            && (readable ==>
                  && reply.started.value.current == Defaults(cfg)
                  && reply.started.value.record.active == Defaults(cfg)
                  && reply.started.value.record.pending == 0
                  && !reply.started.value.trial && reply.started.value.brightness == Defaults(cfg).brightness)
  {
    hide SettingsValid, Defaults;
  }

  /** A request that is refused or fails changes nothing, unless its failed write reached
      flash; then flash is as after a success. */
  ghost predicate LeavesAlone(d: Durable, ram: Ram, d': Durable, ram': Ram, err: Err, write: Outcome, done: Durable) {
    err != EspOk ==> ram' == ram && d' == if err == EspFail && write == FailedNew then done else d
  }

  /** A save: refused exactly for an invalid form, during a trial, a pending restart or a
      transfer; called unchanged exactly for the live settings. Otherwise its record is
      written, with a candidate exactly if the network changes and a reset exactly if the
      tenant or client does; everything but brightness waits for a restart. */
  lemma SaveIs(d: Durable, ram: Ram, s: FrameSettings, write: Outcome, now: int)
    ensures var reply := Save(d, ram, s, write, now);
            var busy := ram.trial || ram.rebootAt != 0 || ram.firmwareUpdate;
            var network := s.ssid != ram.current.ssid || s.password != ram.current.password;
            var identity := s.tenant != ram.current.tenant || s.client != ram.current.client;
            var restart := s.(brightness := 0) != ram.current.(brightness := 0);
            && reply.err == (if !IsForm(s, true) then EspInvalidArg
                             else if busy then EspInvalidState
                             else if s == Live(ram) || write == Done then EspOk else EspFail)
            && LeavesAlone(d, ram, reply.durable, reply.ram, reply.err, write, Save(d, ram, s, Done, now).durable)
            && (reply.err == EspOk && s == Live(ram) ==>
                  reply == SaveReply(d, ram, EspOk, Some(Unchanged), false))
            && (reply.err == EspOk && s != Live(ram) ==>
                  var next := ram.record.(pending := Flag(network), tried := 0, resetAuth := Flag(identity),
                                          active := if network then ram.record.active else s,
                                          candidate := if network then s else ram.record.candidate);
                  reply == SaveReply(d.(blob := Stored(next)),
                                     ram.(record := next, brightness := s.brightness,
                                          rebootAt := if restart then now + 2 * SECOND else 0),
                                     EspOk, Some(if network then WifiTrial else if restart then Restart else Applied),
                                     s.brightness != ram.brightness))
  {
    hide SettingsValid, IsForm;
    FormValidIff(s, true);
  }

  /** A serial request: as a save of the live settings with new credentials, but always a
      trial, never ending the sign-in, and allowed without a tenant and client. */
  lemma SaveWifiIs(d: Durable, ram: Ram, ssid: CString, password: CString, write: Outcome, now: int)
    ensures var reply := SaveWifi(d, ram, ssid, password, write, now);
            var busy := ram.trial || ram.rebootAt != 0 || ram.firmwareUpdate;
            var form := ram.current.(ssid := ssid, password := password);
            && reply.err == (if !IsForm(form, false) || ssid == [] then EspInvalidArg
                             else if busy then EspInvalidState
                             else if write == Done then EspOk else EspFail)
            && LeavesAlone(d, ram, reply.durable, reply.ram, reply.err, write,
                           SaveWifi(d, ram, ssid, password, Done, now).durable)
            && (reply.err == EspOk ==>
                  && reply.ram.record == ram.record.(candidate := Live(ram).(ssid := ssid, password := password),
                                                     pending := 1, tried := 0, resetAuth := 0)
                  && reply.ram == ram.(record := reply.ram.record, rebootAt := now + 2 * SECOND)
                  && reply.durable == d.(blob := Stored(reply.ram.record)))
  {
    hide SettingsValid;
    var form := WifiCandidate(ram, ssid, password);
    FormValidIff(form, false);
    ShortPassword(password);
    hide IsPassword;
    hide Protocol.IsGuid;
  }

  /** A reset of the sign-in and the reservation for a transfer. */
  lemma ResetAndTransferAre(d: Durable, ram: Ram, write: Outcome, now: int)
    ensures var reply := ResetAuth(d, ram, write, now);
            var busy := ram.trial || ram.rebootAt != 0 || ram.firmwareUpdate;
            && reply.err == (if busy then EspInvalidState else if write == Done then EspOk else EspFail)
            && LeavesAlone(d, ram, reply.durable, reply.ram, reply.err, write, ResetAuth(d, ram, Done, now).durable)
            && (reply.err == EspOk ==>
                  && reply.ram.record == ram.record.(resetAuth := 1)
                  && reply.ram == ram.(record := reply.ram.record, rebootAt := now + 2 * SECOND)
                  && reply.durable == d.(blob := Stored(reply.ram.record)))
            && UpdateBegin(ram) == if busy then (ram, false) else (ram.(firmwareUpdate := true), true)
  {
  }

  /** A tick of a trial without a restart scheduled. It writes flash or ends the trial only
      with the station online, within three minutes of boot and five seconds after the last
      attempt; then it makes the trial's settings the active ones, and the trial is over
      exactly if the write reports success. After three minutes it schedules the restart
      instead, which is due at once. */
  lemma TrialTickIs(d: Durable, ram: Ram, online: bool, now: int, write: Outcome)
    requires ram.trial && ram.rebootAt == 0
    ensures var reply := Tick(d, ram, online, now, write);
            var over := now - ram.bootAt >= 180 * SECOND;
            var promotes := online && !over && now >= ram.nextCommit;
            var next := ram.record.(active := ram.current, pending := 0, tried := 0);
            && (reply.durable != d || !reply.ram.trial ==> promotes)
            && (promotes ==>
                  && reply.durable == (if Reached(write) then d.(blob := Stored(next)) else d)
                  && reply.ram == ram.(nextCommit := now + 5 * SECOND, trial := write != Done,
                                       record := if write == Done then next else ram.record)
                  && !reply.due)
            && (over ==> reply.ram == ram.(rebootAt := now) && reply.due == (now != 0))
            && (!over && !promotes ==> reply.ram == ram && !reply.due)
  {
  }

  /** Any other tick changes nothing and reports exactly a scheduled restart whose time has
      come. */
  lemma OtherTickIs(d: Durable, ram: Ram, online: bool, now: int, write: Outcome)
    requires !ram.trial || ram.rebootAt != 0
    ensures Tick(d, ram, online, now, write) == TickReply(d, ram, ram.rebootAt != 0 && now >= ram.rebootAt)
  {
  }

  /// The objects

  /** NVS, as far as the settings and the refresh token use it. */
  class Flash {
    var blob: Blob
    var token: Option<Identity>

    ghost function View(): Durable
      reads this
    {
      Durable(blob, token)
    }

    constructor (blob: Blob, token: Option<Identity>)
      ensures View() == Durable(blob, token)
    {
      this.blob, this.token := blob, token;
    }

    method WriteSettings(next: Record, write: Outcome) returns (ok: bool)
      modifies this`blob
      ensures View() == Written(old(View()), next, write)
      ensures ok <==> write == Done
    {
      if Reached(write) {
        blob := Stored(next);
      }
      return write == Done;
    }

    method WriteToken(next: Option<Identity>, write: Outcome) returns (ok: bool)
      modifies this`token
      ensures View() == TokenWritten(old(View()), next, write)
      ensures ok <==> write == Done
    {
      if Reached(write) {
        token := next;
      }
      return write == Done;
    }
  }

  class Store {
    const cfg: Config
    const flash: Flash
    var record: Record
    var current: FrameSettings
    var trial: bool
    var brightness: int
    var rebootAt: int
    var bootAt: int
    var nextCommit: int
    var firmwareUpdate: bool

    ghost function View(): Ram
      reads this
    {
      Ram(record, current, trial, brightness, rebootAt, bootAt, nextCommit, firmwareUpdate)
    }

    ghost function Disk(): Durable
      reads this, flash
    {
      flash.View()
    }

    /** The statics as the C runtime zeroes them. */
    constructor (cfg: Config, flash: Flash)
      ensures this.cfg == cfg && this.flash == flash && !firmwareUpdate
    {
      this.cfg, this.flash := cfg, flash;
      record, current := FreshRecord(cfg), ZERO_SETTINGS;
      trial, firmwareUpdate := false, false;
      brightness, rebootAt, bootAt, nextCommit := 0, 0, 0, 0;
    }

    method Persist(next: Record, write: Outcome) returns (ok: bool)
      modifies this`record, flash`blob
      ensures Disk() == Written(old(Disk()), next, write)
      ensures ok <==> write == Done
      ensures record == if ok then next else old(record)
    {
      ok := flash.WriteSettings(next, write);
      if ok {
        record := next;
      }
    }

    method ResolveInterruptedTrial(next: Record, erase: Outcome) returns (ok: bool, resolved: Record)
      modifies this`trial, flash`token
      ensures trial == TrialDue(next)
      ensures var reset := Marked(next).resetAuth != 0;
              && ok == (!reset || erase == Done)
              && Disk() == (if reset then TokenWritten(old(Disk()), None, erase) else old(Disk()))
              && (ok ==> resolved == Marked(next).(resetAuth := 0))
    {
      resolved := next;
      trial := next.pending != 0 && next.tried == 0;
      if next.pending != 0 && next.tried != 0 {
        if IdentityChanged(next.active, next.candidate) || next.resetAuth != 0 {
          resolved := resolved.(resetAuth := 1);
        }
        resolved := resolved.(pending := 0, tried := 0);
      } else if trial {
        resolved := resolved.(tried := 1);
      }
      if resolved.resetAuth == 0 {
        return true, resolved;
      }
      ok := flash.WriteToken(None, erase);
      if ok {
        resolved := resolved.(resetAuth := 0);
      }
    }

    method Init(readable: bool, erase: Outcome, write: Outcome, now: int) returns (err: Err)
      requires !firmwareUpdate
      modifies this, flash
      ensures var reply := Boot(cfg, old(Disk()), readable, erase, write, now);
              && Disk() == reply.durable
              && (err == EspOk <==> reply.started.Some?)
              && (err == EspOk ==> View() == reply.started.value)
    {
      hide RecordValid, Defaults;
      if !readable {
        return EspFail;
      }
      record := FreshRecord(cfg);
      if flash.blob.Stored? && RecordValid(flash.blob.record) {
        record := flash.blob.record;
      }
      var ok, next := ResolveInterruptedTrial(record, erase);
      if !ok {
        return EspFail;
      }
      if record != next {
        ok := Persist(next, write);
        if !ok {
          return EspFail;
        }
      }
      current := if trial then record.candidate else record.active;
      brightness := current.brightness;
      bootAt, rebootAt, nextCommit := now, 0, 0;
      return EspOk;
    }

    method SettingsSave(s: FrameSettings, write: Outcome, now: int)
      returns (err: Err, result: Option<SaveResult>, refresh: bool)
      modifies this`record, this`brightness, this`rebootAt, flash`blob
      ensures var reply := Save(old(Disk()), old(View()), s, write, now);
              && Disk() == reply.durable && View() == reply.ram
              && err == reply.err && result == reply.result && refresh == reply.refresh
    {
      result, refresh := None, false;
      if !SettingsValid(s, true) {
        return EspInvalidArg, result, refresh;
      }
      if trial || rebootAt != 0 || firmwareUpdate {
        return EspInvalidState, result, refresh;
      }
      var restart := RestartRequired(s, current);
      if !restart && s.brightness == brightness {
        return EspOk, Some(Unchanged), refresh;
      }
      var wifi := WifiChanged(s, current);
      var next := record;
      if wifi {
        next := next.(candidate := s);
      } else {
        next := next.(active := s);
      }
      next := next.(pending := Flag(wifi), tried := 0, resetAuth := Flag(IdentityChanged(s, current)));
      var ok := Persist(next, write);
      if !ok {
        return EspFail, result, refresh;
      }
      refresh := brightness != s.brightness;
      brightness := s.brightness;
      result := Some(if wifi then WifiTrial else if restart then Restart else Applied);
      if restart {
        rebootAt := now + REBOOT_DELAY;
      }
      err := EspOk;
    }

    method SettingsSaveWifi(ssid: CString, password: CString, write: Outcome, now: int) returns (err: Err)
      modifies this`record, this`rebootAt, flash`blob
      ensures var reply := SaveWifi(old(Disk()), old(View()), ssid, password, write, now);
              Disk() == reply.durable && View() == reply.ram && err == reply.err
    {
      if !WifiStringsValid(ssid, password) {
        return EspInvalidArg;
      }
      var candidate := current.(ssid := ssid, password := password);
      if !SettingsValid(candidate, false) {
        return EspInvalidArg;
      }
      if trial || rebootAt != 0 || firmwareUpdate {
        return EspInvalidState;
      }
      candidate := candidate.(brightness := brightness);
      var next := record.(candidate := candidate, pending := 1, tried := 0, resetAuth := 0);
      var ok := Persist(next, write);
      if !ok {
        return EspFail;
      }
      rebootAt := now + REBOOT_DELAY;
      return EspOk;
    }

    method SettingsResetAuth(write: Outcome, now: int) returns (err: Err)
      modifies this`record, this`rebootAt, flash`blob
      ensures var reply := ResetAuth(old(Disk()), old(View()), write, now);
              Disk() == reply.durable && View() == reply.ram && err == reply.err
    {
      if trial || rebootAt != 0 || firmwareUpdate {
        return EspInvalidState;
      }
      var ok := Persist(record.(resetAuth := 1), write);
      if !ok {
        return EspFail;
      }
      rebootAt := now + REBOOT_DELAY;
      return EspOk;
    }

    method AdvanceTrial(online: bool, now: int, write: Outcome)
      requires trial && rebootAt == 0
      modifies this`record, this`trial, this`rebootAt, this`nextCommit, flash`blob
      ensures var reply := Tick(old(Disk()), old(View()), online, now, write);
              Disk() == reply.durable && View() == reply.ram
    {
      if now - bootAt >= TRIAL_LIMIT {
        rebootAt := now;
        return;
      }
      if !online || now < nextCommit {
        return;
      }
      var next := record.(active := current, pending := 0, tried := 0);
      var ok := Persist(next, write);
      if ok {
        trial := false;
      }
      nextCommit := now + COMMIT_PAUSE;
    }

    method SettingsTick(online: bool, now: int, write: Outcome) returns (due: bool)
      modifies this`record, this`trial, this`rebootAt, this`nextCommit, flash`blob
      ensures var reply := Tick(old(Disk()), old(View()), online, now, write);
              Disk() == reply.durable && View() == reply.ram && due == reply.due
    {
      if trial && rebootAt == 0 {
        AdvanceTrial(online, now, write);
      }
      return rebootAt != 0 && now >= rebootAt;
    }

    method SettingsUpdateBegin() returns (allowed: bool)
      modifies this`firmwareUpdate
      ensures (View(), allowed) == UpdateBegin(old(View()))
    {
      allowed := !(trial || rebootAt != 0 || firmwareUpdate);
      if allowed {
        firmwareUpdate := true;
      }
    }

    method SettingsUpdateEnd()
      modifies this`firmwareUpdate
      ensures View() == UpdateEnd(old(View()))
    {
      firmwareUpdate := false;
    }
  }
}
