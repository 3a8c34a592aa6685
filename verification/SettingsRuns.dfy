/** Whole runs of the settings store: boots, requests, ticks, token writes by the
    sign-in worker, firmware transfers and power cuts, in any order. */
module SettingsRuns {
  import opened Common
  import opened Settings
  import opened SettingsStore
  import Protocol

  /** Who holds the firmware reservation. Only `firmware_update_upload` and
      `firmware_download` touch it: each ends what it began, except that an accepted
      upload keeps it until the restart. */
  datatype Client = NoTransfer | Transferring | UploadAccepted

  /** `lastTick` is the main loop's latest clock reading in this boot. */
  datatype World =
    | Off(durable: Durable)
    | On(durable: Durable, ram: Ram, client: Client, lastTick: int)

  datatype Step =
    | StepBoot(readable: bool, erase: Outcome, write: Outcome, now: int)
    | Crash
    | StepSave(s: FrameSettings, write: Outcome, now: int)
    | StepSaveWifi(ssid: CString, password: CString, write: Outcome, now: int)
    | StepResetAuth(write: Outcome, now: int)
    | StepTick(online: bool, now: int, write: Outcome)
    | TransferBegin
    | TransferEnd
    | UploadAccept
    | StoreToken(write: Outcome)
    | EraseToken(write: Outcome)

  predicate Enabled(w: World, step: Step) {
    match step
    case StepBoot(_, _, _, now) => w.Off? && now >= 0
    case StepSave(_, _, now) => w.On? && now >= 0
    case StepSaveWifi(_, _, _, now) => w.On? && now >= 0
    case StepResetAuth(_, now) => w.On? && now >= 0
    case StepTick(_, now, _) => w.On? && now >= w.lastTick
    case TransferEnd => w.On? && w.client == Transferring
    case UploadAccept => w.On? && w.client == Transferring
    case _ => w.On?
  }

  function Apply(cfg: Config, w: World, step: Step): World
    requires Enabled(w, step)
  {
    match step
    case StepBoot(readable, erase, write, now) =>
      var reply := Boot(cfg, w.durable, readable, erase, write, now);
      if reply.started.Some? then On(reply.durable, reply.started.value, NoTransfer, now)
      else Off(reply.durable)
    case Crash => Off(w.durable)
    case StepSave(s, write, now) =>
      var reply := Save(w.durable, w.ram, s, write, now);
      w.(durable := reply.durable, ram := reply.ram)
    case StepSaveWifi(ssid, password, write, now) =>
      var reply := SaveWifi(w.durable, w.ram, ssid, password, write, now);
      w.(durable := reply.durable, ram := reply.ram)
    case StepResetAuth(write, now) =>
      var reply := ResetAuth(w.durable, w.ram, write, now);
      w.(durable := reply.durable, ram := reply.ram)
    case StepTick(online, now, write) =>
      var reply := Tick(w.durable, w.ram, online, now, write);
      w.(durable := reply.durable, ram := reply.ram, lastTick := now)
    case TransferBegin =>
      var (ram, allowed) := UpdateBegin(w.ram);
      w.(ram := ram, client := if allowed then Transferring else w.client)
    case TransferEnd => w.(ram := UpdateEnd(w.ram), client := NoTransfer)
    case UploadAccept => w.(client := UploadAccepted)
    case StoreToken(write) =>
      w.(durable := TokenWritten(w.durable, Some(IdentityOf(w.ram.current)), write))
    case EraseToken(write) => w.(durable := TokenWritten(w.durable, None, write))
  }

  /** The world after the first `k` steps; steps that are not enabled do nothing, and a
      `Run` has none. */
  function At(cfg: Config, w: World, steps: seq<Step>, k: nat): World
    requires k <= |steps|
  {
    if k == 0 then w
    else
      var before := At(cfg, w, steps, k - 1);
      if Enabled(before, steps[k - 1]) then Apply(cfg, before, steps[k - 1]) else before
  }

  ghost predicate Run(cfg: Config, w: World, steps: seq<Step>) {
    forall k: nat | k < |steps| :: Enabled(At(cfg, w, steps, k), steps[k])
  }

  /** One more step of a run. */
  lemma Advance(cfg: Config, w: World, steps: seq<Step>, k: nat)
    requires Run(cfg, w, steps) && 0 < k <= |steps|
    ensures var before, step := At(cfg, w, steps, k - 1), steps[k - 1];
            Enabled(before, step) && At(cfg, w, steps, k) == Apply(cfg, before, step)
  {
    hide Apply;
    assert Enabled(At(cfg, w, steps, k - 1), steps[k - 1]);
  }

  /** A device fresh from the factory. */
  const FACTORY := Off(Durable(Missing, None))

  ghost predicate Reachable(cfg: Config, w: World) {
    exists steps :: Run(cfg, FACTORY, steps) && At(cfg, FACTORY, steps, |steps|) == w
  }

  /// The invariant

  ghost predicate BlobOk(blob: Blob) {
    || blob.Missing?
    || (&& blob.Stored? && RecordValid(blob.record)
        && (blob.record.pending == 0 ==> blob.record.tried == 0))
  }

  /** The next boot erases the token or runs under the identity that obtained it. */
  ghost predicate TokenSafe(cfg: Config, d: Durable) {
    var r := Loaded(cfg, d.blob);
    d.token.None? || Marked(r).resetAuth != 0 || d.token.value == IdentityOf(Chosen(r))
  }

  ghost predicate RamOk(ram: Ram, blob: Blob) {
    && RecordValid(ram.record)
    && SettingsValid(ram.current, false)
    && 1 <= ram.brightness <= 100
    && ram.bootAt >= 0 && ram.rebootAt >= 0
    && (ram.trial ==>
          && ram.record.pending == 1 && ram.record.tried == 1 && ram.record.resetAuth == 0
          && ram.current == ram.record.candidate && ram.brightness == ram.current.brightness
          && (blob == Stored(ram.record) || blob == Stored(Promoted(ram))))
    && (!ram.trial && ram.rebootAt == 0 ==>
          && ram.record.pending == 0 && ram.record.tried == 0 && ram.record.resetAuth == 0
          && ram.record.active == Live(ram))
    && (ram.firmwareUpdate ==> !ram.trial && ram.rebootAt == 0)
  }

  ghost predicate Inv(cfg: Config, w: World) {
    && BlobOk(w.durable.blob)
    && TokenSafe(cfg, w.durable)
    && (w.On? ==>
          && RamOk(w.ram, w.durable.blob)
          && (w.durable.token.None? || w.durable.token.value == IdentityOf(w.ram.current))
          && TokenSafe(cfg, w.durable.(token := Some(IdentityOf(w.ram.current))))
          && (w.client == NoTransfer <==> !w.ram.firmwareUpdate)
          && w.ram.bootAt <= w.lastTick
          && (w.ram.trial && w.ram.rebootAt != 0 ==> w.ram.rebootAt <= w.lastTick))
  }

  lemma BootKeepsInv(cfg: Config, w: World, step: Step)
    requires Inv(cfg, w) && Enabled(w, step) && step.StepBoot?
    ensures Inv(cfg, Apply(cfg, w, step))
  {
    hide SettingsValid, Defaults;
    DefaultsValid(cfg);
    ValidBrightness(Chosen(Loaded(cfg, w.durable.blob)), false);
  }

  lemma SaveKeepsInv(cfg: Config, w: World, step: Step)
    requires Inv(cfg, w) && Enabled(w, step) && step.StepSave?
    ensures Inv(cfg, Apply(cfg, w, step))
  {
    hide SettingsValid;
    if SettingsValid(step.s, true) && !Busy(w.ram) {
      CompleteImpliesIncomplete(step.s);
      assert RecordValid(SavedRecord(w.ram, step.s));
    }
  }

  lemma RequestKeepsInv(cfg: Config, w: World, step: Step)
    requires Inv(cfg, w) && Enabled(w, step) && (step.StepSaveWifi? || step.StepResetAuth?)
    ensures Inv(cfg, Apply(cfg, w, step))
  {
    hide SettingsValid;
    if step.StepSaveWifi? {
      var candidate := WifiCandidate(w.ram, step.ssid, step.password);
      if SettingsValid(candidate, false) {
        BrightnessIndependent(candidate, w.ram.brightness, false);
      }
    }
  }

  lemma StepKeepsInv(cfg: Config, w: World, step: Step)
    requires Inv(cfg, w) && Enabled(w, step)
    ensures Inv(cfg, Apply(cfg, w, step))
  {
    hide SettingsValid;
    match step
    case StepBoot(_, _, _, _) => BootKeepsInv(cfg, w, step);
    case StepSave(_, _, _) => SaveKeepsInv(cfg, w, step);
    case StepSaveWifi(_, _, _, _) => RequestKeepsInv(cfg, w, step);
    case StepResetAuth(_, _) => RequestKeepsInv(cfg, w, step);
    case _ =>
  }

  lemma {:induction false} RunKeepsInv(cfg: Config, w: World, steps: seq<Step>, k: nat)
    requires Inv(cfg, w) && Run(cfg, w, steps) && k <= |steps|
    ensures Inv(cfg, At(cfg, w, steps, k))
  {
    hide Apply, Run, Enabled, Inv;
    if k > 0 {
      Advance(cfg, w, steps, k);
      RunKeepsInv(cfg, w, steps, k - 1);
      StepKeepsInv(cfg, At(cfg, w, steps, k - 1), steps[k - 1]);
    }
  }

  lemma ReachableInv(cfg: Config, w: World)
    requires Reachable(cfg, w)
    ensures Inv(cfg, w)
  {
    DefaultsValid(cfg);
    var steps :| Run(cfg, FACTORY, steps) && At(cfg, FACTORY, steps, |steps|) == w;
    RunKeepsInv(cfg, FACTORY, steps, |steps|);
  }

  /// Sign-in never survives a change of identity

  /** In every run, with power cuts and lossy writes anywhere, a running device holds
      no refresh token but one obtained under the tenant and client it runs on. */
  lemma TokenBelongsToCurrent(cfg: Config, w: World)
    requires Reachable(cfg, w) && w.On? && w.durable.token.Some?
    ensures w.durable.token.value == IdentityOf(w.ram.current)
  {
    ReachableInv(cfg, w);
  }

  /** A boot that reports success never sees the defaults once a record exists, and
      that record always passes validation. */
  lemma RecordsStayValid(cfg: Config, w: World)
    requires Reachable(cfg, w)
    ensures w.durable.blob.Missing? || w.durable.blob.Stored?
    ensures w.durable.blob.Stored? ==>
              RecordValid(w.durable.blob.record) && Loaded(cfg, w.durable.blob) == w.durable.blob.record
    ensures w.On? ==> RecordValid(w.ram.record) && SettingsValid(w.ram.current, false)
  {
    ReachableInv(cfg, w);
  }

  lemma StepKeepsRecord(cfg: Config, w: World, step: Step)
    requires Enabled(w, step) && w.durable.blob.Stored?
    ensures Apply(cfg, w, step).durable.blob.Stored?
  {
    match step
    case StepBoot(_, _, _, _) =>
    case _ =>
  }

  lemma {:induction false} RecordNeverVanishes(cfg: Config, w: World, steps: seq<Step>, k: nat)
    requires Run(cfg, w, steps) && k <= |steps| && w.durable.blob.Stored?
    ensures At(cfg, w, steps, k).durable.blob.Stored?
  {
    hide Apply, Run, Enabled;
    if k > 0 {
      Advance(cfg, w, steps, k);
      RecordNeverVanishes(cfg, w, steps, k - 1);
      StepKeepsRecord(cfg, At(cfg, w, steps, k - 1), steps[k - 1]);
    }
  }

  /// One trial per staged candidate

  predicate BootsAt(cfg: Config, w: World, steps: seq<Step>, k: nat)
    requires k < |steps|
  {
    steps[k].StepBoot? && At(cfg, w, steps, k + 1).On?
  }

  function TrialBoots(cfg: Config, w: World, steps: seq<Step>, k: nat): nat
    requires k <= |steps|
  {
    if k == 0 then 0
    else
      TrialBoots(cfg, w, steps, k - 1) +
      if BootsAt(cfg, w, steps, k - 1) && At(cfg, w, steps, k).ram.trial then 1 else 0
  }

  predicate ChangesBlob(cfg: Config, w: World, steps: seq<Step>, k: nat)
    requires k < |steps|
  {
    At(cfg, w, steps, k + 1).durable.blob != At(cfg, w, steps, k).durable.blob
  }

  /** No save or reset replaces the stored record. */
  ghost predicate NoRequestStored(cfg: Config, w: World, steps: seq<Step>) {
    forall k: nat | k < |steps| && ChangesBlob(cfg, w, steps, k) :: steps[k].StepBoot? || steps[k].StepTick?
  }

  /** Did a promotion reach flash in the first `k` steps? */
  predicate PromotionStored(cfg: Config, w: World, steps: seq<Step>, k: nat)
    requires k <= |steps|
  {
    exists j: nat :: j < k && steps[j].StepTick? && ChangesBlob(cfg, w, steps, j)
  }

  /** Where the staged record `r` has got to. */
  ghost predicate StagedPhase(w: World, r: Record, promoted: bool, trials: nat) {
    && w.durable.blob.Stored?
    && var saved := w.durable.blob.record;
       if promoted then saved.pending == 0 && saved.active == r.candidate && trials <= 1
       else
         || (saved == r && trials == 0 && (w.On? ==> !w.ram.trial))
         || (&& saved.active == r.active && saved.candidate == r.candidate
             && saved.pending == 1 && saved.tried == 1
             && trials <= 1 && (w.On? ==> w.ram.trial))
         || (saved.active == r.active && saved.pending == 0 && trials <= 1 && (w.On? ==> !w.ram.trial))
  }

  lemma StagedPhaseStep(cfg: Config, w: World, step: Step, r: Record, promoted: bool, trials: nat)
    requires Inv(cfg, w) && Enabled(w, step) && TrialDue(r)
    requires StagedPhase(w, r, promoted, trials)
    requires var w' := Apply(cfg, w, step);
             w'.durable.blob != w.durable.blob ==> step.StepBoot? || step.StepTick?
    ensures var w' := Apply(cfg, w, step);
            var promoted' := promoted || (step.StepTick? && w'.durable.blob != w.durable.blob);
            var trials' := trials + if step.StepBoot? && w'.On? && w'.ram.trial then 1 else 0;
            && StagedPhase(w', r, promoted', trials')
            && (step.StepBoot? && w'.On? ==>
                  w'.ram.current == if w'.ram.trial || promoted then r.candidate else r.active)
  {
    var saved := w.durable.blob.record;
    assert Loaded(cfg, w.durable.blob) == saved;
    match step
    case StepBoot(_, _, _, _) =>
      assert !promoted && TrialDue(saved) ==> saved == r;
    case StepTick(_, _, _) =>
    case _ =>
  }

  lemma PromotionStoredSnoc(cfg: Config, w: World, steps: seq<Step>, k: nat)
    requires k < |steps|
    ensures PromotionStored(cfg, w, steps, k + 1) ==
            (PromotionStored(cfg, w, steps, k) || (steps[k].StepTick? && ChangesBlob(cfg, w, steps, k)))
  {
    if steps[k].StepTick? && ChangesBlob(cfg, w, steps, k) {
      assert k < k + 1;
    }
  }

  lemma NothingStoredYet(cfg: Config, w: World, steps: seq<Step>)
    ensures !PromotionStored(cfg, w, steps, 0)
  {
  }

  lemma StagedPhaseStart(cfg: Config, w: World, r: Record)
    requires Inv(cfg, w) && w.durable.blob == Stored(r) && TrialDue(r)
    ensures StagedPhase(w, r, false, 0)
  {
  }

  lemma {:induction false} StagedPhaseAt(cfg: Config, w: World, steps: seq<Step>, r: Record, k: nat)
    requires Inv(cfg, w) && Run(cfg, w, steps) && NoRequestStored(cfg, w, steps) && k <= |steps|
    requires w.durable.blob == Stored(r) && TrialDue(r)
    ensures StagedPhase(At(cfg, w, steps, k), r, PromotionStored(cfg, w, steps, k), TrialBoots(cfg, w, steps, k))
  {
    hide Apply, Run, Enabled, Inv, StagedPhase, PromotionStored, TrialDue;
    if k == 0 {
      NothingStoredYet(cfg, w, steps);
      StagedPhaseStart(cfg, w, r);
    } else {
      Advance(cfg, w, steps, k);
      assert ChangesBlob(cfg, w, steps, k - 1) ==> steps[k - 1].StepBoot? || steps[k - 1].StepTick?;
      StagedPhaseAt(cfg, w, steps, r, k - 1);
      RunKeepsInv(cfg, w, steps, k - 1);
      PromotionStoredSnoc(cfg, w, steps, k - 1);
      StagedPhaseStep(cfg, At(cfg, w, steps, k - 1), steps[k - 1], r,
                      PromotionStored(cfg, w, steps, k - 1), TrialBoots(cfg, w, steps, k - 1));
    }
  }

  /** Once a candidate is staged, and until another request is stored, at most one boot
      runs it as a trial, wherever power fails. Every other boot runs the settings that
      were active before staging, unless a promotion reached flash. */
  lemma StagedCandidateTriedOnce(cfg: Config, w: World, steps: seq<Step>, r: Record)
    requires Reachable(cfg, w) && Run(cfg, w, steps) && NoRequestStored(cfg, w, steps)
    requires w.durable.blob == Stored(r) && TrialDue(r)
    ensures TrialBoots(cfg, w, steps, |steps|) <= 1
    ensures forall k: nat | k < |steps| && BootsAt(cfg, w, steps, k) ::
              var after := At(cfg, w, steps, k + 1);
              after.ram.current ==
                if after.ram.trial || PromotionStored(cfg, w, steps, k) then r.candidate else r.active
  {
    ReachableInv(cfg, w);
    StagedPhaseAt(cfg, w, steps, r, |steps|);
    forall k: nat | k < |steps| && BootsAt(cfg, w, steps, k)
      ensures var after := At(cfg, w, steps, k + 1);
              after.ram.current ==
                if after.ram.trial || PromotionStored(cfg, w, steps, k) then r.candidate else r.active
    {
      StagedPhaseAt(cfg, w, steps, r, k);
      RunKeepsInv(cfg, w, steps, k);
      StagedPhaseStep(cfg, At(cfg, w, steps, k), steps[k], r,
                      PromotionStored(cfg, w, steps, k), TrialBoots(cfg, w, steps, k));
    }
  }

  /** What a save or a serial request stages: the settings in force before it stay the
      active ones, so they are what a failed trial returns to. */
  lemma StagingKeepsActive(cfg: Config, w: World, step: Step)
    requires Reachable(cfg, w) && Enabled(w, step) && (step.StepSave? || step.StepSaveWifi?)
    requires var w' := Apply(cfg, w, step);
             w'.durable.blob != w.durable.blob && TrialDue(Loaded(cfg, w'.durable.blob))
    ensures var r := Loaded(cfg, Apply(cfg, w, step).durable.blob);
            && r.active == Live(w.ram)
            && (step.StepSave? ==> r.candidate == step.s)
            && (step.StepSaveWifi? ==>
                  r.candidate == Live(w.ram).(ssid := step.ssid, password := step.password))
  {
    hide SettingsValid, TokenSafe;
    ReachableInv(cfg, w);
    StepKeepsInv(cfg, w, step);
  }

  /** The tried marker is on flash before any worker sees the candidate. */
  lemma CandidateExposedOnlyWhenMarked(cfg: Config, w: World)
    requires Reachable(cfg, w) && w.On? && w.ram.trial
    ensures w.durable.blob.Stored? && !TrialDue(w.durable.blob.record)
    ensures w.ram.current == w.ram.record.candidate
  {
    ReachableInv(cfg, w);
  }

  /// A trial ends

  /** Any tick at or after three minutes from boot finds the trial promoted or asks for
      the restart that rolls it back; with a monotone clock so does every later one. */
  lemma TrialEnds(cfg: Config, w: World, online: bool, now: int, write: Outcome)
    requires Reachable(cfg, w) && w.On? && now >= w.lastTick
    requires now - w.ram.bootAt >= 180 * SECOND
    ensures var reply := Tick(w.durable, w.ram, online, now, write);
            !reply.ram.trial || reply.due
  {
    ReachableInv(cfg, w);
  }

  /** In every reachable trial a tick changes flash or ends the trial only with the station
      online, within three minutes of boot and not before the next attempt is due; and then
      a write that succeeds does end it, with the trial's settings stored as the active
      ones and no trial pending. */
  lemma PromotedOnlyOnline(cfg: Config, w: World, online: bool, now: int, write: Outcome)
    requires Reachable(cfg, w) && w.On? && w.ram.trial && w.ram.rebootAt == 0 && now >= w.lastTick
    ensures var w' := Apply(cfg, w, StepTick(online, now, write));
            var promotes := online && now - w.ram.bootAt < 180 * SECOND && now >= w.ram.nextCommit;
            && w'.On?
            && (w'.durable != w.durable || !w'.ram.trial ==> promotes)
            && (promotes && write == Done ==>
                  && !w'.ram.trial && w'.ram.current == w.ram.current && w'.durable.token == w.durable.token
                  && w'.durable.blob.Stored? && w'.durable.blob.record.active == w.ram.current
                  && w'.durable.blob.record.pending == 0 && w'.durable.blob.record.tried == 0)
  {
    TrialTickIs(w.durable, w.ram, online, now, write);
  }

  ghost predicate OfflineBoot(cfg: Config, w: World, steps: seq<Step>) {
    OneBoot(cfg, w, steps) && forall step | step in steps :: step.StepTick? ==> !step.online
  }

  lemma OfflineStep(cfg: Config, w: World, step: Step)
    requires w.On? && w.ram.trial && Enabled(w, step) && !step.Crash? && (step.StepTick? ==> !step.online)
    ensures var w' := Apply(cfg, w, step);
            w'.On? && w'.ram.trial && w'.durable.blob == w.durable.blob
  {
    match step
    case StepSave(_, _, _) =>
    case _ =>
  }

  lemma {:induction false} OfflineAt(cfg: Config, w: World, steps: seq<Step>, k: nat)
    requires OfflineBoot(cfg, w, steps) && w.ram.trial && k <= |steps|
    ensures var now := At(cfg, w, steps, k);
            now.On? && now.ram.trial && now.durable.blob == w.durable.blob
  {
    hide Apply, Run, Enabled;
    if k > 0 {
      Advance(cfg, w, steps, k);
      OfflineAt(cfg, w, steps, k - 1);
      assert steps[k - 1] in steps;
      OfflineStep(cfg, At(cfg, w, steps, k - 1), steps[k - 1]);
    }
  }

  /** A trial boot that is never online changes nothing in the stored record, and stays a
      trial. Whenever it ends, the next boot that starts runs the settings from before
      staging, and ends the sign-in exactly if the trial had another tenant or client. */
  lemma OfflineTrialRollsBack(cfg: Config, w: World, steps: seq<Step>,
                              readable: bool, erase: Outcome, write: Outcome, now: int)
    requires Reachable(cfg, w) && OfflineBoot(cfg, w, steps) && w.ram.trial
    requires w.durable.blob == Stored(w.ram.record)
    ensures var last := At(cfg, w, steps, |steps|);
            var r, next := w.ram.record, Boot(cfg, last.durable, readable, erase, write, now);
            && last.On? && last.ram.trial && last.durable.blob == Stored(r)
            && (next.started.Some? ==>
                  && next.started.value.current == r.active && !next.started.value.trial
                  && next.durable.blob.Stored? && next.durable.blob.record.pending == 0
                  && next.durable.token ==
                       if r.active.tenant != r.candidate.tenant || r.active.client != r.candidate.client
                       then None else last.durable.token)
  {
    hide Boot, SettingsValid, TokenSafe, Run, Apply;
    ReachableInv(cfg, w);
    OfflineAt(cfg, w, steps, |steps|);
    var last := At(cfg, w, steps, |steps|);
    if readable {
      BootOfRecord(cfg, last.durable, erase, write, now);
    } else {
      BootOfNothing(cfg, last.durable, readable, erase, write, now);
    }
  }

  /** What a request that staged a candidate leaves for the next boot. */
  lemma StagedBoot(cfg: Config, w: World, request: Step, boot: Step)
    requires Reachable(cfg, w) && w.On? && Enabled(w, request) && (request.StepSave? || request.StepSaveWifi?)
    requires var staged := Apply(cfg, w, request);
             staged.durable.blob != w.durable.blob && TrialDue(Loaded(cfg, staged.durable.blob))
    requires boot.StepBoot? && boot.now >= 0
             && Apply(cfg, Off(Apply(cfg, w, request).durable), boot).On?
    ensures var v := Apply(cfg, Off(Apply(cfg, w, request).durable), boot);
            && Reachable(cfg, v)
            && v.On? && v.ram.trial && v.durable.blob == Stored(v.ram.record)
            && v.ram.record.active == Live(w.ram) && v.ram.current == v.ram.record.candidate
            && v.ram.current == if request.StepSave? then request.s
                                else Live(w.ram).(ssid := request.ssid, password := request.password)
  {
    hide Boot, SettingsValid, TokenSafe;
    ReachStep(cfg, w, request);
    var staged := Apply(cfg, w, request);
    StagingKeepsActive(cfg, w, request);
    ReachStep(cfg, staged, Crash);
    ReachStep(cfg, Off(staged.durable), boot);
    ReachableInv(cfg, staged);
    if boot.readable {
      BootOfRecord(cfg, staged.durable, boot.erase, boot.write, boot.now);
    } else {
      BootOfNothing(cfg, staged.durable, boot.readable, boot.erase, boot.write, boot.now);
    }
  }

  /** From the request to the end: a device that stages a change of network, boots into it
      and never gets online runs after the next power cycle what it ran before the request,
      and has kept its sign-in unless the change was of tenant or client too. */
  lemma FailedTrialRestores(cfg: Config, w: World, request: Step, boot: Step, steps: seq<Step>, again: Step)
    requires Reachable(cfg, w) && w.On? && Enabled(w, request) && (request.StepSave? || request.StepSaveWifi?)
    requires var staged := Apply(cfg, w, request);
             staged.durable.blob != w.durable.blob && TrialDue(Loaded(cfg, staged.durable.blob))
    requires boot.StepBoot? && boot.now >= 0 && again.StepBoot? && again.now >= 0
    requires var v := Apply(cfg, Off(Apply(cfg, w, request).durable), boot);
             v.On? && OfflineBoot(cfg, v, steps)
    ensures var v := Apply(cfg, Off(Apply(cfg, w, request).durable), boot);
            var last := At(cfg, v, steps, |steps|);
            var end := Apply(cfg, Off(last.durable), again);
            end.On? ==>
              && end.ram.current == Live(w.ram) && !end.ram.trial
              && end.durable.token ==
                   if request.StepSave?
                      && (request.s.tenant != w.ram.current.tenant || request.s.client != w.ram.current.client)
                   then None else last.durable.token
  {
    StagedBoot(cfg, w, request, boot);
    hide Reachable, Boot, Loaded, TrialDue, OfflineBoot, At;
    var v := Apply(cfg, Off(Apply(cfg, w, request).durable), boot);
    hide Apply;
    OfflineTrialRollsBack(cfg, v, steps, again.readable, again.erase, again.write, again.now);
    BootStepIs(cfg, At(cfg, v, steps, |steps|).durable, again);
  }

  lemma BootStepIs(cfg: Config, d: Durable, boot: Step)
    requires boot.StepBoot? && boot.now >= 0
    ensures var reply := Boot(cfg, d, boot.readable, boot.erase, boot.write, boot.now);
            Apply(cfg, Off(d), boot) ==
            if reply.started.Some? then On(reply.durable, reply.started.value, NoTransfer, boot.now) else Off(reply.durable)
  {
    hide Boot;
  }

  function PromotionWrites(cfg: Config, w: World, steps: seq<Step>, k: nat): nat
    requires k <= |steps|
  {
    if k == 0 then 0
    else
      var before, step := At(cfg, w, steps, k - 1), steps[k - 1];
      PromotionWrites(cfg, w, steps, k - 1) +
      if before.On? && step.StepTick? && Promotes(before.ram, step.online, step.now) then 1 else 0
  }

  ghost predicate OneBoot(cfg: Config, w: World, steps: seq<Step>) {
    w.On? && Run(cfg, w, steps) && Crash !in steps
  }

  /** After `n` promotion writes in the boot that began at `bootAt`. */
  ghost predicate Paced(w: World, bootAt: int, n: nat) {
    && w.On? && w.ram.bootAt == bootAt && bootAt <= w.lastTick
    && (n == 0 || bootAt + n * COMMIT_PAUSE <= w.ram.nextCommit < bootAt + TRIAL_LIMIT + COMMIT_PAUSE)
  }

  lemma PacedStep(cfg: Config, w: World, step: Step, bootAt: int, n: nat)
    requires Paced(w, bootAt, n) && Enabled(w, step) && !step.Crash?
    ensures Paced(Apply(cfg, w, step), bootAt,
                  n + if step.StepTick? && Promotes(w.ram, step.online, step.now) then 1 else 0)
  {
    match step
    case StepSave(_, _, _) =>
    case _ =>
  }

  lemma PacedStart(w: World)
    requires w.On? && w.ram.bootAt <= w.lastTick
    ensures Paced(w, w.ram.bootAt, 0)
  {
  }

  lemma {:induction false} PacedAt(cfg: Config, w: World, steps: seq<Step>, k: nat)
    requires OneBoot(cfg, w, steps) && k <= |steps| && w.ram.bootAt <= w.lastTick
    ensures Paced(At(cfg, w, steps, k), w.ram.bootAt, PromotionWrites(cfg, w, steps, k))
  {
    hide Apply, Run, Enabled;
    if k == 0 {
      PacedStart(w);
    } else {
      Advance(cfg, w, steps, k);
      PacedAt(cfg, w, steps, k - 1);
      assert steps[k - 1] in steps;
      PacedStep(cfg, At(cfg, w, steps, k - 1), steps[k - 1], w.ram.bootAt, PromotionWrites(cfg, w, steps, k - 1));
    }
  }

  lemma BootBeforeTick(cfg: Config, w: World)
    requires Reachable(cfg, w) && w.On?
    ensures w.ram.bootAt <= w.lastTick
  {
    ReachableInv(cfg, w);
  }

  /** One boot writes a promotion at most 36 times, however often the write fails. */
  lemma AtMost36Promotions(cfg: Config, w: World, steps: seq<Step>)
    requires Reachable(cfg, w) && w.On? && OneBoot(cfg, w, steps)
    ensures PromotionWrites(cfg, w, steps, |steps|) <= 36
  {
    hide Apply, Run, OneBoot, At, Inv, PromotionWrites;
    assert w.ram.bootAt <= w.lastTick by { BootBeforeTick(cfg, w); }
    PacedAt(cfg, w, steps, |steps|);
  }

  /// Firmware transfers and scheduled restarts exclude everything else

  /** While firmware is transferred there is no trial and no restart, so no tick asks
      for one; and the reservation has exactly the holders that took it. */
  lemma ReservationExcludesRestart(cfg: Config, w: World, online: bool, now: int, write: Outcome)
    requires Reachable(cfg, w) && w.On? && w.client != NoTransfer
    ensures w.ram.firmwareUpdate && !w.ram.trial && w.ram.rebootAt == 0
    ensures Tick(w.durable, w.ram, online, now, write) == TickReply(w.durable, w.ram, false)
  {
    ReachableInv(cfg, w);
  }

  ghost predicate Latched(w: World) {
    w.On? && Busy(w.ram) && (w.ram.rebootAt != 0 || w.client == UploadAccepted)
  }

  lemma LatchedStep(cfg: Config, w: World, step: Step)
    requires Inv(cfg, w) && Latched(w) && Enabled(w, step) && !step.Crash?
    ensures var w' := Apply(cfg, w, step);
            && w'.On? && w'.ram == w.ram && w'.client == w.client
            && w'.durable.blob == w.durable.blob
  {
    match step
    case StepSave(_, _, _) =>
    case _ =>
  }

  lemma {:induction false} LatchedAt(cfg: Config, w: World, steps: seq<Step>, k: nat)
    requires Inv(cfg, w) && OneBoot(cfg, w, steps) && k <= |steps| && Latched(w)
    ensures var now := At(cfg, w, steps, k);
            && now.On? && now.ram == w.ram && now.client == w.client
            && now.durable.blob == w.durable.blob
  {
    hide Apply, Run, Enabled, Inv;
    if k > 0 {
      Advance(cfg, w, steps, k);
      LatchedAt(cfg, w, steps, k - 1);
      RunKeepsInv(cfg, w, steps, k - 1);
      assert steps[k - 1] in steps;
      LatchedStep(cfg, At(cfg, w, steps, k - 1), steps[k - 1]);
    }
  }

  /** Once a restart is scheduled or an upload accepted, nothing in that boot changes
      the settings any more: memory and the stored record stay as they are, and every
      save, reset and transfer is refused. */
  lemma RestartLatched(cfg: Config, w: World, steps: seq<Step>, k: nat)
    requires Reachable(cfg, w) && OneBoot(cfg, w, steps) && k <= |steps|
    requires w.ram.rebootAt != 0 || w.client == UploadAccepted
    ensures var now := At(cfg, w, steps, k);
            && now.On? && now.ram == w.ram && now.durable.blob == w.durable.blob
            && (forall s, write, t :: Save(now.durable, now.ram, s, write, t).err != EspOk)
            && (forall ssid, password, write, t :: SaveWifi(now.durable, now.ram, ssid, password, write, t).err != EspOk)
            && (forall write, t :: ResetAuth(now.durable, now.ram, write, t).err != EspOk)
            && !UpdateBegin(now.ram).1
            && (forall online, t, write :: Tick(now.durable, now.ram, online, t, write).due ==
                                             (w.ram.rebootAt != 0 && t >= w.ram.rebootAt))
  {
    ReachableInv(cfg, w);
    LatchedAt(cfg, w, steps, k);
  }

  /// What the next boot loads

  /** The record this step of a running device writes, if it writes one. */
  function WrittenRecord(w: World, step: Step): Option<Record>
    requires w.On?
  {
    match step
    case StepSave(s, _, _) =>
      if SettingsValid(s, true) && !Busy(w.ram) && s != Live(w.ram) then Some(SavedRecord(w.ram, s)) else None
    case StepSaveWifi(ssid, password, _, _) =>
      if WifiStringsValid(ssid, password) && SettingsValid(WifiCandidate(w.ram, ssid, password), false) && !Busy(w.ram)
      then Some(WifiRecord(w.ram, ssid, password)) else None
    case StepResetAuth(_, _) => if Busy(w.ram) then None else Some(w.ram.record.(resetAuth := 1))
    case StepTick(online, now, _) => if Promotes(w.ram, online, now) then Some(Promoted(w.ram)) else None
    case _ => None
  }

  function OutcomeOf(step: Step): Outcome {
    match step
    case StepBoot(_, _, write, _) => write
    case StepSave(_, write, _) => write
    case StepSaveWifi(_, _, write, _) => write
    case StepResetAuth(write, _) => write
    case StepTick(_, _, write) => write
    case _ => Done
  }

  /** Does this step stage a candidate? */
  predicate Stages(w: World, step: Step)
    requires w.On?
  {
    step.StepSaveWifi? || (step.StepSave? && WifiChanged(step.s, w.ram.current))
  }

  /** The write whose error report hides that flash holds its record: the last write of
      this boot that reached flash, if it reported an error. */
  function Unreported(cfg: Config, steps: seq<Step>, k: nat): Option<nat>
    requires k <= |steps|
  {
    if k == 0 then None
    else
      var before, step := At(cfg, FACTORY, steps, k - 1), steps[k - 1];
      if before.Off? || step.Crash? then None
      else if WrittenRecord(before, step).None? || OutcomeOf(step) == FailedOld then Unreported(cfg, steps, k - 1)
      else if OutcomeOf(step) == Done then None
      else Some(k - 1)
  }

  /** Only a step with a `WrittenRecord` writes, and memory follows flash exactly when the
      write reports success. */
  lemma WritesAre(cfg: Config, w: World, step: Step)
    requires Inv(cfg, w) && w.On? && Enabled(w, step) && !step.Crash?
    ensures var w', next := Apply(cfg, w, step), WrittenRecord(w, step);
            && w'.On?
            && w'.durable.blob ==
                 (if next.Some? && Reached(OutcomeOf(step)) then Stored(next.value) else w.durable.blob)
            && w'.ram.record == (if next.Some? && OutcomeOf(step) == Done then next.value else w.ram.record)
            && (next.None? || OutcomeOf(step) != Done ==>
                  w'.ram.current == w.ram.current && w'.ram.brightness == w.ram.brightness
                  && w'.ram.trial == w.ram.trial)
  {
    hide SettingsValid, TokenSafe, RecordValid;
    match step
    case StepSave(_, _, _) =>
    case _ =>
  }

  /** What is written is never what memory already holds. */
  lemma WritesDiffer(cfg: Config, w: World, step: Step)
    requires Inv(cfg, w) && w.On? && WrittenRecord(w, step).Some?
    ensures var next := WrittenRecord(w, step).value;
            && RecordValid(next) && next != w.ram.record
            && (!w.ram.trial ==>
                  && (TrialDue(next) <==> Stages(w, step))
                  && (step.StepSave? && !Stages(w, step) ==> Chosen(next) == step.s)
                  && (step.StepResetAuth? ==> Chosen(next) == Live(w.ram))
                  && (step.StepSave? || step.StepSaveWifi? || step.StepResetAuth?))
  {
    hide SettingsValid, TokenSafe;
    match step
    case StepSave(s, _, _) => CompleteImpliesIncomplete(s);
    case StepSaveWifi(ssid, password, _, _) =>
      BrightnessIndependent(WifiCandidate(w.ram, ssid, password), w.ram.brightness, false);
    case _ =>
  }

  predicate SameSettings(a: Ram, b: Ram) {
    a.record == b.record && a.current == b.current && a.brightness == b.brightness && a.trial == b.trial
  }

  /** Flash against memory: equal, or what the unreported write left there. */
  ghost predicate Followed(cfg: Config, w: World, steps: seq<Step>, unreported: Option<nat>) {
    w.On? ==>
      match unreported
      case None => Loaded(cfg, w.durable.blob) == w.ram.record
      case Some(j) =>
        && j < |steps|
        && var origin := At(cfg, FACTORY, steps, j);
           && origin.On? && Inv(cfg, origin) && SameSettings(w.ram, origin.ram)
           && WrittenRecord(origin, steps[j]).Some?
           && w.durable.blob == Stored(WrittenRecord(origin, steps[j]).value)
  }

  lemma BootFollows(cfg: Config, w: World, step: Step, steps: seq<Step>)
    requires Inv(cfg, w) && w.Off? && Enabled(w, step)
    ensures Followed(cfg, Apply(cfg, w, step), steps, None)
  {
    hide SettingsValid, TokenSafe;
    StepKeepsInv(cfg, w, step);
  }

  lemma FollowedStep(cfg: Config, steps: seq<Step>, k: nat)
    requires Run(cfg, FACTORY, steps) && 0 < k <= |steps|
    requires Inv(cfg, At(cfg, FACTORY, steps, k - 1)) && Inv(cfg, At(cfg, FACTORY, steps, k))
    requires Followed(cfg, At(cfg, FACTORY, steps, k - 1), steps, Unreported(cfg, steps, k - 1))
    ensures Followed(cfg, At(cfg, FACTORY, steps, k), steps, Unreported(cfg, steps, k))
  {
    hide Apply, Run, Enabled, Inv, WrittenRecord, RecordValid, At;
    var before, step := At(cfg, FACTORY, steps, k - 1), steps[k - 1];
    Advance(cfg, FACTORY, steps, k);
    if before.Off? {
      BootFollows(cfg, before, step, steps);
    } else if step.Crash? {
      CrashIsOff(cfg, before);
    } else {
      WritesAre(cfg, before, step);
      if WrittenRecord(before, step).Some? {
        WritesDiffer(cfg, before, step);
      }
    }
  }

  lemma CrashIsOff(cfg: Config, w: World)
    requires w.On?
    ensures Apply(cfg, w, Crash).Off?
  {
  }

  lemma FactoryInv(cfg: Config)
    ensures Inv(cfg, FACTORY)
  {
    DefaultsValid(cfg);
  }

  lemma {:induction false} FollowedAt(cfg: Config, steps: seq<Step>, k: nat)
    requires Run(cfg, FACTORY, steps) && k <= |steps|
    ensures Inv(cfg, At(cfg, FACTORY, steps, k))
    ensures Followed(cfg, At(cfg, FACTORY, steps, k), steps, Unreported(cfg, steps, k))
  {
    hide Run, Inv;
    FactoryInv(cfg);
    RunKeepsInv(cfg, FACTORY, steps, k);
    if k > 0 {
      hide Followed, At, Unreported;
      FollowedAt(cfg, steps, k - 1);
      FollowedStep(cfg, steps, k);
    }
  }

  /** In every run, memory and flash hold the same record if and only if no unreported
      write stands between them; otherwise flash holds what that write wrote. */
  lemma FlashFollowsReports(cfg: Config, steps: seq<Step>, k: nat)
    requires Run(cfg, FACTORY, steps) && k <= |steps| && At(cfg, FACTORY, steps, k).On?
    ensures var w, hidden := At(cfg, FACTORY, steps, k), Unreported(cfg, steps, k);
            && (w.ram.record == Loaded(cfg, w.durable.blob) <==> hidden.None?)
            && (hidden.Some? ==>
                  && hidden.value < |steps|
                  && var origin := At(cfg, FACTORY, steps, hidden.value);
                     && origin.On? && SameSettings(w.ram, origin.ram)
                     && WrittenRecord(origin, steps[hidden.value]) == Some(Loaded(cfg, w.durable.blob)))
  {
    hide Inv, Run, WrittenRecord;
    FollowedAt(cfg, steps, k);
    var hidden := Unreported(cfg, steps, k);
    if hidden.Some? {
      WritesDiffer(cfg, At(cfg, FACTORY, steps, hidden.value), steps[hidden.value]);
    }
  }

  /** With all-or-nothing failure nothing is ever unreported. */
  lemma {:induction false} AtomicRunsHideNothing(cfg: Config, steps: seq<Step>, k: nat)
    requires k <= |steps| && forall step | step in steps :: OutcomeOf(step) != FailedNew
    ensures Unreported(cfg, steps, k).None?
  {
    if k > 0 {
      AtomicRunsHideNothing(cfg, steps, k - 1);
      assert steps[k - 1] in steps;
    }
  }

  /** Outside a trial and with no restart pending, a readable boot writes nothing, keeps
      the token and runs the live settings if and only if no write is unreported. */
  lemma NextBootLoadsLive(cfg: Config, steps: seq<Step>, erase: Outcome, write: Outcome, now: int)
    requires Run(cfg, FACTORY, steps)
    requires var w := At(cfg, FACTORY, steps, |steps|); w.On? && !w.ram.trial && w.ram.rebootAt == 0
    ensures var w := At(cfg, FACTORY, steps, |steps|);
            Boot(cfg, w.durable, true, erase, write, now) ==
            BootReply(w.durable, Some(Booted(w.ram.record, false, Live(w.ram), now)))
            <==> Unreported(cfg, steps, |steps|).None?
  {
    hide Run, Unreported, SettingsValid, RecordValid, TokenSafe;
    var w := At(cfg, FACTORY, steps, |steps|);
    FlashFollowsReports(cfg, steps, |steps|);
    assert Reachable(cfg, w);
    ReachableInv(cfg, w);
  }

  /** What an unreported write does to a device without a trial: it makes the next boot a
      trial exactly if it staged a candidate, and else only a save replaces the live
      settings. */
  lemma HiddenChoice(cfg: Config, steps: seq<Step>)
    requires Run(cfg, FACTORY, steps)
    requires var w := At(cfg, FACTORY, steps, |steps|); w.On? && !w.ram.trial
    ensures var w, hidden := At(cfg, FACTORY, steps, |steps|), Unreported(cfg, steps, |steps|);
            hidden.Some? ==>
              && hidden.value < |steps|
              && var origin, step, r := At(cfg, FACTORY, steps, hidden.value), steps[hidden.value], Loaded(cfg, w.durable.blob);
                 && origin.On? && SameSettings(w.ram, origin.ram)
                 && (TrialDue(r) <==> Stages(origin, step))
                 && (!TrialDue(r) ==> Chosen(r) == if step.StepSave? then step.s else Live(w.ram))
                 && (step.StepSave? ==> step.s != Live(w.ram))
                 && (!TrialDue(r) ==> step.StepSave? || step.StepResetAuth?)
  {
    hide Inv, Run, Loaded, TrialDue, Chosen, Stages;
    FlashFollowsReports(cfg, steps, |steps|);
    var hidden := Unreported(cfg, steps, |steps|);
    if hidden.Some? {
      FollowedAt(cfg, steps, hidden.value);
      WritesDiffer(cfg, At(cfg, FACTORY, steps, hidden.value), steps[hidden.value]);
      SavesStage();
    }
  }

  lemma SavesStage()
    ensures forall w: World, step: Step | w.On? && step.StepSaveWifi? :: Stages(w, step)
  {
  }

  /** `Unchanged` writes nothing. It is truthful, the next boot loading just those
      settings, if and only if no write is unreported or that write only reset the
      sign-in; and a request the device would write although the next boot loads it
      already is exactly a save that went unreported before. */
  lemma UnchangedMeansAlreadyStored(cfg: Config, steps: seq<Step>, s: FrameSettings, write: Outcome, now: int)
    requires Run(cfg, FACTORY, steps) && SettingsValid(s, true)
    requires var w := At(cfg, FACTORY, steps, |steps|); w.On? && !Busy(w.ram)
    ensures var w, hidden := At(cfg, FACTORY, steps, |steps|), Unreported(cfg, steps, |steps|);
            var reply, loaded := Save(w.durable, w.ram, s, write, now), Loaded(cfg, w.durable.blob);
            var alreadyStored := s == Chosen(loaded) && !TrialDue(loaded);
            && (hidden.Some? ==> hidden.value < |steps| && At(cfg, FACTORY, steps, hidden.value).On?)
            && (reply.result == Some(Unchanged) ==>
                  && reply.durable == w.durable && reply.ram == w.ram
                  && (alreadyStored <==> hidden.None? || steps[hidden.value].StepResetAuth?))
            && (reply.result != Some(Unchanged) ==>
                  (alreadyStored <==>
                     hidden.Some? && steps[hidden.value].StepSave? && steps[hidden.value].s == s
                     && !Stages(At(cfg, FACTORY, steps, hidden.value), steps[hidden.value])))
  {
    hide SettingsValid, RecordValid, TokenSafe, Run, Unreported, At, Stages;
    var w := At(cfg, FACTORY, steps, |steps|);
    assert Reachable(cfg, w);
    ReachableInv(cfg, w);
    FlashFollowsReports(cfg, steps, |steps|);
    HiddenChoice(cfg, steps);
  }

  /** A boot after a transfer is a settings trial if and only if an unreported write
      staged a candidate before it; with nothing unreported the boot writes nothing. */
  lemma NoTrialAfterUpload(cfg: Config, steps: seq<Step>, readable: bool, erase: Outcome, write: Outcome, now: int)
    requires Run(cfg, FACTORY, steps)
    requires var w := At(cfg, FACTORY, steps, |steps|); w.On? && w.client != NoTransfer
    ensures var w, hidden := At(cfg, FACTORY, steps, |steps|), Unreported(cfg, steps, |steps|);
            var next := Boot(cfg, w.durable, readable, erase, write, now);
            && (hidden.Some? ==> hidden.value < |steps| && At(cfg, FACTORY, steps, hidden.value).On?)
            && (next.started.Some? ==>
                  (next.started.value.trial <==>
                     hidden.Some? && Stages(At(cfg, FACTORY, steps, hidden.value), steps[hidden.value])))
            && (readable && erase == Done && write == Done ==> next.started.Some?)
            && (hidden.None? ==> next.durable == w.durable)
  {
    hide SettingsValid, RecordValid, TokenSafe, Run, Unreported, At, Stages;
    var w := At(cfg, FACTORY, steps, |steps|);
    assert Reachable(cfg, w);
    ReachableInv(cfg, w);
    FlashFollowsReports(cfg, steps, |steps|);
    HiddenChoice(cfg, steps);
  }

  /** So all three promises can fail. From any idle device, a Wi-Fi change whose failed
      write reached flash leaves a device that calls the old settings unchanged and
      accepts firmware, and yet boots into the trial. */
  lemma LossyWritesBreakThePromises(cfg: Config, w: World, s: FrameSettings, now: int)
    requires Reachable(cfg, w) && w.On? && !Busy(w.ram) && now >= 0
    requires SettingsValid(s, true) && WifiChanged(s, w.ram.current) && SettingsValid(Live(w.ram), true)
    ensures var w' := Apply(cfg, w, StepSave(s, FailedNew, now));
            && Save(w'.durable, w'.ram, Live(w.ram), Done, now).result == Some(Unchanged)
            && UpdateBegin(w'.ram).1
            && var next := Boot(cfg, w'.durable, true, Done, Done, 0).started;
               next.Some? && next.value.trial && next.value.current == s && s != Live(w.ram)
  {
    hide TokenSafe;
    ReachableInv(cfg, w);
    CompleteImpliesIncomplete(s);
    StepKeepsInv(cfg, w, StepSave(s, FailedNew, now));
  }

  /// What the other requests mean

  /** A stored save is what the next successful boot runs, as a trial exactly when the
      Wi-Fi credentials change; `Applied` differs from the live settings in brightness
      only, takes effect at once and schedules no restart. Holds with lossy writes. */
  lemma AcceptedSaveMeansNextBoot(cfg: Config, w: World, s: FrameSettings, now: int,
                                  erase: Outcome, write: Outcome, later: int)
    requires Reachable(cfg, w) && w.On? && now >= 0
    requires var reply := Save(w.durable, w.ram, s, Done, now);
             reply.err == EspOk && reply.result != Some(Unchanged)
    ensures var reply := Save(w.durable, w.ram, s, Done, now);
            && reply.result.Some?
            && (reply.result.value == WifiTrial <==> WifiChanged(s, w.ram.current))
            && (reply.result.value == Applied <==> reply.ram.rebootAt == 0)
            && (reply.result.value == Applied <==>
                  s == Live(w.ram).(brightness := s.brightness) && s.brightness != w.ram.brightness)
            && reply.ram.brightness == s.brightness
            && (reply.refresh <==> s.brightness != w.ram.brightness)
            && var next := Boot(cfg, reply.durable, true, erase, write, later).started;
               next.Some? ==>
                 next.value.current == s && next.value.trial == (reply.result.value == WifiTrial)
    ensures var reply := Save(w.durable, w.ram, s, Done, now);
            var next := Boot(cfg, reply.durable, true, erase, write, later);
            next.started.Some? ==>
              next.durable.token ==
                if s.tenant != w.ram.current.tenant || s.client != w.ram.current.client then None else w.durable.token
  {
    hide SettingsValid, TokenSafe;
    ReachableInv(cfg, w);
    StepKeepsInv(cfg, w, StepSave(s, Done, now));
    assert Loaded(cfg, Save(w.durable, w.ram, s, Done, now).durable.blob) == SavedRecord(w.ram, s);
  }

  /** A reset of the sign-in, once reported stored, leaves no token behind: the next boot
      that succeeds has erased it and runs the settings it would have run anyway. */
  lemma ResetErasesToken(cfg: Config, w: World, now: int, between: Durable,
                         readable: bool, erase: Outcome, write: Outcome, later: int)
    requires Reachable(cfg, w) && w.On? && now >= 0
    requires ResetAuth(w.durable, w.ram, Done, now).err == EspOk
    requires between.blob == ResetAuth(w.durable, w.ram, Done, now).durable.blob
    ensures var next := Boot(cfg, between, readable, erase, write, later);
            next.started.Some? ==>
              && next.durable.token.None? && !next.started.value.trial
              && next.started.value.current == Live(w.ram)
  {
    hide SettingsValid, TokenSafe;
    ReachableInv(cfg, w);
    StepKeepsInv(cfg, w, StepResetAuth(Done, now));
  }

  /** A serial request, once reported stored, makes the next boot a trial of exactly the
      live settings with the new credentials, and keeps the sign-in. */
  lemma SerialSaveMeansTrial(cfg: Config, w: World, ssid: CString, password: CString, now: int,
                             readable: bool, erase: Outcome, write: Outcome, later: int)
    requires Reachable(cfg, w) && w.On? && now >= 0
    requires SaveWifi(w.durable, w.ram, ssid, password, Done, now).err == EspOk
    ensures var reply := SaveWifi(w.durable, w.ram, ssid, password, Done, now);
            var next := Boot(cfg, reply.durable, readable, erase, write, later);
            next.started.Some? ==>
              && next.started.value.trial
              && next.started.value.current == Live(w.ram).(ssid := ssid, password := password)
              && next.durable.token == w.durable.token
  {
    hide SettingsValid, TokenSafe;
    ReachableInv(cfg, w);
    StepKeepsInv(cfg, w, StepSaveWifi(ssid, password, Done, now));
  }

  /** A promotion reported stored ends the trial for good: the next boot runs the trial's
      settings as the active ones, needs no write and keeps the sign-in. */
  lemma PromotionMeansNextBoot(cfg: Config, w: World, online: bool, now: int,
                               erase: Outcome, write: Outcome, later: int)
    requires Reachable(cfg, w) && w.On? && now >= w.lastTick && w.ram.trial && w.ram.rebootAt == 0
    requires online && now - w.ram.bootAt < 180 * SECOND && now >= w.ram.nextCommit
    ensures var reply := Tick(w.durable, w.ram, online, now, Done);
            && !reply.ram.trial && !reply.due
            && Boot(cfg, reply.durable, true, erase, write, later) ==
               BootReply(reply.durable, Some(Booted(reply.ram.record, false, w.ram.current, later)))
  {
    hide SettingsValid, TokenSafe;
    ReachableInv(cfg, w);
    StepKeepsInv(cfg, w, StepTick(online, now, Done));
  }

  predicate Schedules(w: World, step: Step)
    requires Enabled(w, step)
  {
    match step
    case StepSave(s, write, now) =>
      var result := Save(w.durable, w.ram, s, write, now).result;
      result == Some(Restart) || result == Some(WifiTrial)
    case StepSaveWifi(ssid, password, write, now) =>
      SaveWifi(w.durable, w.ram, ssid, password, write, now).err == EspOk
    case StepResetAuth(write, now) => ResetAuth(w.durable, w.ram, write, now).err == EspOk
    case _ => false
  }

  function RequestedAt(step: Step): int
    requires step.StepSave? || step.StepSaveWifi? || step.StepResetAuth?
  {
    step.now
  }

  /** Whatever else happens in that boot, ticks report the restart due exactly from two
      seconds after the request that scheduled it. */
  lemma RestartDueAfterTwoSeconds(cfg: Config, w: World, step: Step, steps: seq<Step>, k: nat,
                                  online: bool, t: int, write: Outcome)
    requires Reachable(cfg, w) && Enabled(w, step) && Schedules(w, step)
    requires OneBoot(cfg, Apply(cfg, w, step), steps) && k <= |steps|
    ensures var now := At(cfg, Apply(cfg, w, step), steps, k);
            now.On? && (Tick(now.durable, now.ram, online, t, write).due <==> t >= RequestedAt(step) + 2 * SECOND)
  {
    hide SettingsValid, Run, OneBoot;
    ReachableInv(cfg, w);
    StepKeepsInv(cfg, w, step);
    var w' := Apply(cfg, w, step);
    assert w'.On? && w'.ram.rebootAt == RequestedAt(step) + REBOOT_DELAY;
    hide Apply, Inv;
    LatchedAt(cfg, w', steps, k);
  }

  /// The states these results speak of are reached

  lemma {:induction false} PrefixAt(cfg: Config, w: World, steps: seq<Step>, more: seq<Step>, k: nat)
    requires k <= |steps|
    ensures At(cfg, w, steps + more, k) == At(cfg, w, steps, k)
  {
    hide Apply, Enabled;
    if k > 0 {
      PrefixAt(cfg, w, steps, more, k - 1);
    }
  }

  lemma RunEnabled(cfg: Config, w: World, steps: seq<Step>, k: nat)
    requires Run(cfg, w, steps) && k < |steps|
    ensures Enabled(At(cfg, w, steps, k), steps[k])
  {
  }

  lemma AtSnoc(cfg: Config, w: World, steps: seq<Step>, step: Step)
    requires Enabled(At(cfg, w, steps, |steps|), step)
    ensures At(cfg, w, steps + [step], |steps| + 1) == Apply(cfg, At(cfg, w, steps, |steps|), step)
  {
    hide Apply, Enabled;
    PrefixAt(cfg, w, steps, [step], |steps|);
  }

  lemma RunSnoc(cfg: Config, w: World, steps: seq<Step>, step: Step)
    requires Run(cfg, w, steps) && Enabled(At(cfg, w, steps, |steps|), step)
    ensures Run(cfg, w, steps + [step])
  {
    hide Apply, Enabled, At;
    var longer := steps + [step];
    forall k: nat | k < |longer|
      ensures Enabled(At(cfg, w, longer, k), longer[k])
    {
      PrefixAt(cfg, w, steps, [step], k);
      if k < |steps| {
        RunEnabled(cfg, w, steps, k);
      }
    }
  }

  lemma ReachStep(cfg: Config, w: World, step: Step)
    requires Reachable(cfg, w) && Enabled(w, step)
    ensures Reachable(cfg, Apply(cfg, w, step))
  {
    hide Apply, Enabled, Run, At;
    var steps :| Run(cfg, FACTORY, steps) && At(cfg, FACTORY, steps, |steps|) == w;
    RunSnoc(cfg, FACTORY, steps, step);
    AtSnoc(cfg, FACTORY, steps, step);
    assert |steps + [step]| == |steps| + 1;
  }

  lemma FactoryReachable(cfg: Config)
    ensures Reachable(cfg, FACTORY)
  {
    assert Run(cfg, FACTORY, []) && At(cfg, FACTORY, [], 0) == FACTORY;
  }

  const RESTART := StepBoot(true, Done, Done, 0)

  /** A reachable device can always be restarted, and runs what its record chooses. */
  lemma RestartReached(cfg: Config, w: World) returns (v: World)
    requires Reachable(cfg, w)
    ensures Reachable(cfg, v) && v.On? && v.client == NoTransfer
    ensures var r := Loaded(cfg, w.durable.blob);
            && v.ram.trial == TrialDue(r) && v.ram.current == Chosen(r)
            && v.ram.rebootAt == 0 && v.ram.bootAt == 0 && v.lastTick == 0
            && v.ram.nextCommit == 0 && v.ram.brightness == v.ram.current.brightness
            && !v.ram.firmwareUpdate
    ensures BootReached(cfg, w, v)
  {
    hide Loaded, TrialDue, Chosen, Marked;
    v := w;
    if w.On? {
      ReachStep(cfg, w, Crash);
      v := Apply(cfg, w, Crash);
    }
    ReachStep(cfg, v, RESTART);
    v := Apply(cfg, v, RESTART);
  }

  /** `v` is what a restart makes of `w`. */
  ghost predicate BootReached(cfg: Config, w: World, v: World) {
    Reachable(cfg, Off(w.durable)) && v == Apply(cfg, Off(w.durable), RESTART)
  }

  /** Every complete form can be installed: some reachable idle device runs on it. */
  lemma AnySettingsInstalled(cfg: Config, s: FrameSettings) returns (w: World)
    requires SettingsValid(s, true)
    ensures Reachable(cfg, w) && w.On? && !Busy(w.ram) && Live(w.ram) == s
  {
    hide SettingsValid, Reachable, Apply, Boot, Inv;
    FactoryReachable(cfg);
    w := RestartReached(cfg, FACTORY);
    assert !Busy(w.ram) by { FreshIsIdle(cfg); }
    if s != Live(w.ram) {
      var save := StepSave(s, Done, 0);
      var saved := SaveReached(cfg, w, s);
      w := RestartReached(cfg, saved);
      if w.ram.trial {
        w := PromotionReached(cfg, w);
      }
    }
  }

  lemma FreshIsIdle(cfg: Config)
    ensures !TrialDue(Loaded(cfg, FACTORY.durable.blob))
  {
    DefaultsValid(cfg);
  }

  lemma SaveReached(cfg: Config, w: World, s: FrameSettings) returns (v: World)
    requires Reachable(cfg, w) && w.On? && !Busy(w.ram) && SettingsValid(s, true) && s != Live(w.ram)
    ensures Reachable(cfg, v) && Chosen(Loaded(cfg, v.durable.blob)) == s
  {
    hide SettingsValid, TokenSafe;
    var step := StepSave(s, Done, 0);
    ReachableInv(cfg, w);
    ReachStep(cfg, w, step);
    StepKeepsInv(cfg, w, step);
    v := Apply(cfg, w, step);
  }

  lemma PromotionReached(cfg: Config, w: World) returns (v: World)
    requires Reachable(cfg, w) && w.On? && w.ram.trial && !w.ram.firmwareUpdate
    requires w.ram.rebootAt == 0 && w.ram.bootAt == 0 && w.lastTick == 0 && w.ram.nextCommit == 0
    requires w.ram.brightness == w.ram.current.brightness
    ensures Reachable(cfg, v) && v.On? && !Busy(v.ram) && Live(v.ram) == Live(w.ram)
  {
    var step := StepTick(true, 0, Done);
    ReachStep(cfg, w, step);
    v := Apply(cfg, w, step);
  }

  /** A serial request and a restart make any idle device with an SSID try those
      credentials. */
  lemma TrialReached(cfg: Config, w: World) returns (saved: World, v: World)
    requires Reachable(cfg, w) && w.On? && !Busy(w.ram) && SettingsValid(Live(w.ram), true)
    ensures Reachable(cfg, saved) && BootReached(cfg, saved, v)
    ensures Reachable(cfg, v) && v.On? && v.ram.trial && v.ram.current == Live(w.ram)
  {
    hide SettingsValid, TokenSafe, Boot;
    ReachableInv(cfg, w);
    var live := Live(w.ram);
    CompleteStrings(live);
    var step := StepSaveWifi(live.ssid, live.password, Done, 0);
    ReachStep(cfg, w, step);
    StepKeepsInv(cfg, w, step);
    saved := Apply(cfg, w, step);
    v := RestartReached(cfg, saved);
  }

  lemma CompleteStrings(s: FrameSettings)
    requires SettingsValid(s, true)
    ensures WifiStringsValid(s.ssid, s.password)
  {
  }

  const ZERO_GUID: CString := seq(36, (i: nat) => if Protocol.IsDashIndex(i) then '-' as int else '0' as int)

  const EXAMPLE := FrameSettings(['a' as int], [], ZERO_GUID, ZERO_GUID, POOL, 10, 60, 100)

  lemma ExampleValid()
    ensures SettingsValid(EXAMPLE, true)
  {
    assert forall i: nat | i < 36 :: ZERO_GUID[i] == if Protocol.IsDashIndex(i) then '-' as int else '0' as int;
    assert IdentityValid(ZERO_GUID, true);
    assert NtpHostValid(POOL);
  }

  /** Whatever was compiled in, the promises above are broken on some reachable device. */
  lemma PromisesAreBrokenSomewhere(cfg: Config) returns (w: World, s: FrameSettings)
    ensures Reachable(cfg, w) && w.On? && !Busy(w.ram)
    ensures SettingsValid(s, true) && WifiChanged(s, w.ram.current) && SettingsValid(Live(w.ram), true)
    ensures var v := Apply(cfg, w, StepSave(s, FailedNew, 0));
            && Reachable(cfg, v) && v.On? && Save(v.durable, v.ram, Live(w.ram), Done, 0).result == Some(Unchanged)
            && UpdateBegin(v.ram).1
            && var next := Boot(cfg, v.durable, true, Done, Done, 0).started;
               next.Some? && next.value.trial && next.value.current == s && s != Live(w.ram)
  {
    ExampleValid();
    w := AnySettingsInstalled(cfg, EXAMPLE);
    s := EXAMPLE.(ssid := ['b' as int]);
    assert SettingsValid(s, true);
    hide SettingsValid, Reachable, Boot;
    LossyWritesBreakThePromises(cfg, w, s, 0);
    ReachStep(cfg, w, StepSave(s, FailedNew, 0));
  }
}
