/** main/firmware_update.c: wireless uploads under the settings reservation, and the boot
    health check that confirms new firmware or rolls it back. */
module FirmwareUpdate {
  import opened Common
  import opened SettingsStore

  /// The OTA driver

  /** The driver calls made; `ok` is the driver's answer. */
  datatype Call =
    | OtaBegin(ok: bool)
    | OtaWrite(data: seq<byte>, ok: bool)
    | OtaEnd(ok: bool)
    | OtaAbort
    | OtaSelect(ok: bool)

  /** What the successful writes put into the slot. */
  function InSlot(calls: seq<Call>): seq<byte> {
    if calls == [] then []
    else
      var last := calls[|calls| - 1];
      InSlot(calls[..|calls| - 1]) + if last.OtaWrite? && last.ok then last.data else []
  }

  predicate OnlyWrites(calls: seq<Call>) {
    forall i | 0 <= i < |calls| :: calls[i].OtaWrite?
  }

  predicate AllWritten(calls: seq<Call>) {
    forall i | 0 <= i < |calls| :: calls[i].OtaWrite? && calls[i].ok
  }

  class Ota {
    var calls: seq<Call>

    constructor ()
      ensures calls == []
    {
      calls := [];
    }

    method Do(call: Call)
      modifies this
      ensures calls == old(calls) + [call]
    {
      calls := calls + [call];
    }
  }

  /// Uploads

  const UPLOAD_TIMEOUT := 120 * SECOND
  const BUFFER_SIZE := 4096

  /** One turn of the receive loop: the clock, how many bytes the socket gives (none or
      an error when not positive), and whether the driver takes them. */
  datatype Chunk = Chunk(clock: int, count: int, writes: bool)

  datatype UploadErr = UploadOk | TimedOut | ReceiveFailed | WriteFailed | BeginFailed | NoBuffer | EndFailed | SelectFailed

  lemma InSlotNothing()
    ensures InSlot([]) == []
  {
  }

  lemma InSlotSnoc(calls: seq<Call>, data: seq<byte>, ok: bool)
    ensures InSlot(calls + [OtaWrite(data, ok)]) == InSlot(calls) + if ok then data else []
  {
    assert (calls + [OtaWrite(data, ok)])[..|calls|] == calls;
  }

  /** How much of a body of `size` bytes the first `n` turns bring, at most 4096 each. */
  function Got(chunks: nat -> Chunk, size: nat, n: nat): (got: int)
    ensures got <= size
  {
    if n == 0 then 0
    else
      var before := Got(chunks, size, n - 1);
      before + Min(chunks(n - 1).count, Min(4096, size - before))
  }

  /** A turn within two minutes that brings bytes which the driver takes. */
  predicate GoodTurn(c: Chunk, started: int) {
    c.clock < started + 120 * SECOND && c.count > 0 && c.writes
  }

  ghost predicate GoodTurns(chunks: nat -> Chunk, started: int, n: nat) {
    forall k: nat | k < n :: GoodTurn(chunks(k), started)
  }

  /** Good turns bring the whole body. */
  ghost predicate BringsAll(chunks: nat -> Chunk, started: int, size: nat) {
    exists n: nat :: GoodTurns(chunks, started, n) && Got(chunks, size, n) == size
  }

  /** The error of the first turn that is not good. */
  function TurnErr(c: Chunk, started: int): UploadErr
    requires !GoodTurn(c, started)
  {
    if c.clock >= started + 120 * SECOND then TimedOut
    else if c.count <= 0 then ReceiveFailed
    else WriteFailed
  }

  /** How the loop ends after `turns` good turns: with the whole body, or at a turn that is
      not good while something is missing. */
  ghost predicate Ends(chunks: nat -> Chunk, started: int, size: nat, turns: nat, err: UploadErr) {
    && GoodTurns(chunks, started, turns)
    && (turns > 0 ==> Got(chunks, size, turns - 1) < size)
    && if Got(chunks, size, turns) == size then err == UploadOk
       else !GoodTurn(chunks(turns), started) && err == TurnErr(chunks(turns), started)
  }

  lemma {:induction false} GotGrows(chunks: nat -> Chunk, started: int, size: nat, m: nat, n: nat)
    requires m <= n && GoodTurns(chunks, started, n)
    ensures 0 <= Got(chunks, size, m) <= Got(chunks, size, n)
    decreases n
  {
    if n > 0 {
      assert GoodTurn(chunks(n - 1), started);
      GotGrows(chunks, started, size, if m < n then m else n - 1, n - 1);
    }
  }

  lemma TurnIsGood(chunks: nat -> Chunk, started: int, n: nat, k: nat)
    requires GoodTurns(chunks, started, n) && k < n
    ensures GoodTurn(chunks(k), started)
  {
  }

  /** The loop succeeds exactly when good turns bring the whole body. */
  lemma EndsWell(chunks: nat -> Chunk, started: int, size: nat, turns: nat, err: UploadErr)
    requires Ends(chunks, started, size, turns, err)
    ensures err == UploadOk <==> BringsAll(chunks, started, size)
  {
    hide Got, GoodTurn, GoodTurns;
    if BringsAll(chunks, started, size) && Got(chunks, size, turns) != size {
      var n: nat :| GoodTurns(chunks, started, n) && Got(chunks, size, n) == size;
      if n <= turns {
        GotGrows(chunks, started, size, n, turns);
      } else {
        TurnIsGood(chunks, started, n, turns);
      }
    }
  }

  /** One write per turn, of just the bytes that turn brought. */
  ghost predicate WritesOf(made: seq<Call>, body: seq<byte>, chunks: nat -> Chunk) {
    forall k: nat | k < |made| :: WriteOf(made, body, chunks, k)
  }

  ghost predicate WriteOf(made: seq<Call>, body: seq<byte>, chunks: nat -> Chunk, k: nat)
    requires k < |made|
  {
    var from, to := Got(chunks, |body|, k), Got(chunks, |body|, k + 1);
    0 <= from < to <= from + 4096 && to <= |body| && made[k] == OtaWrite(body[from..to], chunks(k).writes)
  }

  lemma WritesOfSnoc(made: seq<Call>, body: seq<byte>, chunks: nat -> Chunk, c: Call)
    requires WritesOf(made, body, chunks) && WriteOf(made + [c], body, chunks, |made|)
    ensures WritesOf(made + [c], body, chunks)
  {
    hide Got;
    forall k: nat | k < |made + [c]|
      ensures WriteOf(made + [c], body, chunks, k)
    {
      assert k < |made| ==> WriteOf(made, body, chunks, k);
    }
  }

  lemma GotNext(chunks: nat -> Chunk, size: nat, n: nat)
    ensures Got(chunks, size, 0) == 0
    ensures Got(chunks, size, n + 1) ==
            Got(chunks, size, n) + Min(chunks(n).count, Min(4096, size - Got(chunks, size, n)))
  {
  }

  /** `receive_image`: whatever the chunking, the slot holds a prefix of the body, and the
      whole body exactly when the loop reports success; it does so exactly when every turn
      it needs is good, and else reports what was wrong with the first that was not. */
  method ReceiveImage(ota: Ota, body: seq<byte>, started: int, chunks: nat -> Chunk)
    returns (err: UploadErr, ghost made: seq<Call>, ghost turns: nat)
    modifies ota
    ensures ota.calls == old(ota.calls) + made && OnlyWrites(made)
    ensures InSlot(made) <= body
    ensures err == UploadOk ==> InSlot(made) == body && AllWritten(made)
    ensures err != UploadOk ==> InSlot(made) != body
    ensures Ends(chunks, started, |body|, turns, err) && WritesOf(made, body, chunks)
    ensures |made| == turns + if err == WriteFailed then 1 else 0
  {
    hide InSlot, Got, WriteOf, WritesOf, GoodTurns;
    assert GoodTurns(chunks, started, 0) by { NoTurns(chunks, started); }
    var received := 0;
    var deadline := started + UPLOAD_TIMEOUT;
    var turn := 0;
    made, turns := [], 0;
    InSlotNothing();
    assert WritesOf(made, body, chunks) by { NoWrites(body, chunks); }
    GotNext(chunks, |body|, 0);
    while received < |body|
      invariant received <= |body| && InSlot(made) == body[..received]
      invariant AllWritten(made) && ota.calls == old(ota.calls) + made
      invariant turn == turns == |made| && received == Got(chunks, |body|, turns)
      invariant GoodTurns(chunks, started, turns) && (turns > 0 ==> Got(chunks, |body|, turns - 1) < |body|)
      invariant WritesOf(made, body, chunks)
    {
      var chunk := chunks(turn);
      if chunk.clock >= deadline {
        err := TimedOut;
        return;
      }
      var count := |body| - received;
      if count > BUFFER_SIZE {
        count := BUFFER_SIZE;
      }
      var n := if chunk.count > count then count else chunk.count;
      if n <= 0 {
        err := ReceiveFailed;
        return;
      }
      var data := body[received..received + n];
      InSlotSnoc(made, data, chunk.writes);
      GotNext(chunks, |body|, turn);
      assert WriteOf(made + [OtaWrite(data, chunk.writes)], body, chunks, turn) by {
        OneWrite(made, body, chunks, received, n);
      }
      WritesOfSnoc(made, body, chunks, OtaWrite(data, chunk.writes));
      ota.Do(OtaWrite(data, chunk.writes));
      made := made + [OtaWrite(data, chunk.writes)];
      if !chunk.writes {
        err := WriteFailed;
        return;
      }
      assert body[..received] + data == body[..received + n];
      GoodTurnsNext(chunks, started, turns);
      received, turn, turns := received + n, turn + 1, turns + 1;
    }
    err := UploadOk;
  }

  lemma NoTurns(chunks: nat -> Chunk, started: int)
    ensures GoodTurns(chunks, started, 0)
  {
  }

  lemma GoodTurnsNext(chunks: nat -> Chunk, started: int, n: nat)
    requires GoodTurns(chunks, started, n) && GoodTurn(chunks(n), started)
    ensures GoodTurns(chunks, started, n + 1)
  {
  }

  lemma NoWrites(body: seq<byte>, chunks: nat -> Chunk)
    ensures WritesOf([], body, chunks)
  {
  }

  lemma OneWrite(made: seq<Call>, body: seq<byte>, chunks: nat -> Chunk, received: nat, n: nat)
    requires received == Got(chunks, |body|, |made|) && received + n == Got(chunks, |body|, |made| + 1)
    requires 0 < n <= 4096 && received + n <= |body|
    ensures WriteOf(made + [OtaWrite(body[received..received + n], chunks(|made|).writes)], body, chunks, |made|)
  {
  }

  predicate EndsSo(err: UploadErr) {
    err == UploadOk || err == TimedOut || err == ReceiveFailed || err == WriteFailed
  }

  lemma EndsHow(chunks: nat -> Chunk, started: int, size: nat, turns: nat, err: UploadErr)
    requires Ends(chunks, started, size, turns, err)
    ensures EndsSo(err)
  {
  }

  predicate Begins(err: UploadErr) {
    err != NoBuffer && err != BeginFailed
  }

  /** Did the whole body reach the slot? */
  predicate Whole(err: UploadErr) {
    err == UploadOk || err == EndFailed || err == SelectFailed
  }

  /** The driver calls that follow the writes. */
  function Tail(err: UploadErr): seq<Call>
    requires Begins(err)
  {
    if err == UploadOk then [OtaEnd(true), OtaSelect(true)]
    else if err == SelectFailed then [OtaEnd(true), OtaSelect(false)]
    else if err == EndFailed then [OtaEnd(false)]
    else [OtaAbort]
  }

  /** The calls of one installation: none without a buffer; else a begin, writes that
      put a prefix of the body into the slot, and an ending that depends on whether it
      was all of it. */
  ghost predicate Installed(made: seq<Call>, body: seq<byte>, err: UploadErr) {
    if err == NoBuffer then made == []
    else if err == BeginFailed then made == [OtaBegin(false)]
    else exists writes: seq<Call> :: InstalledBy(made, writes, body, err)
  }

  ghost predicate InstalledBy(made: seq<Call>, writes: seq<Call>, body: seq<byte>, err: UploadErr)
    requires Begins(err)
  {
    && made == [OtaBegin(true)] + writes + Tail(err)
    && OnlyWrites(writes) && InSlot(writes) <= body
    && (InSlot(writes) == body <==> Whole(err))
  }

  predicate Closes(c: Call) {
    c.OtaEnd? || c.OtaAbort?
  }

  function Closed(calls: seq<Call>): nat {
    if calls == [] then 0 else Closed(calls[..|calls| - 1]) + if Closes(calls[|calls| - 1]) then 1 else 0
  }

  lemma ClosedSnoc(calls: seq<Call>, c: Call)
    ensures Closed(calls + [c]) == Closed(calls) + if Closes(c) then 1 else 0
    ensures !c.OtaWrite? ==> InSlot(calls + [c]) == InSlot(calls)
  {
    assert (calls + [c])[..|calls|] == calls;
  }

  lemma {:induction false} WritesCloseNothing(writes: seq<Call>)
    requires OnlyWrites(writes)
    ensures Closed([OtaBegin(true)] + writes) == 0
    ensures InSlot([OtaBegin(true)] + writes) == InSlot(writes)
    decreases |writes|
  {
    if writes == [] {
      assert [OtaBegin(true)] + writes == [] + [OtaBegin(true)];
      ClosedSnoc([], OtaBegin(true));
    } else {
      var init, last := writes[..|writes| - 1], writes[|writes| - 1];
      WritesCloseNothing(init);
      assert [OtaBegin(true)] + writes == [OtaBegin(true)] + init + [last];
      ClosedSnoc([OtaBegin(true)] + init, last);
      InSlotSnoc([OtaBegin(true)] + init, last.data, last.ok);
      InSlotSnoc(init, last.data, last.ok);
      assert init + [last] == writes;
    }
  }

  lemma TailCloses(begun: seq<Call>, err: UploadErr)
    requires Begins(err) && Closed(begun) == 0
    ensures Closed(begun + Tail(err)) == 1 && InSlot(begun + Tail(err)) == InSlot(begun)
  {
    hide Closed, InSlot;
    ClosedSnoc(begun, OtaAbort);
    ClosedSnoc(begun, OtaEnd(false));
    ClosedSnoc(begun, OtaEnd(true));
    ClosedSnoc(begun + [OtaEnd(true)], OtaSelect(err == UploadOk));
    if err == UploadOk || err == SelectFailed {
      assert begun + Tail(err) == begun + [OtaEnd(true)] + [OtaSelect(err == UploadOk)];
    }
  }

  lemma NotInWrites(writes: seq<Call>, c: Call)
    requires OnlyWrites(writes) && !c.OtaWrite?
    ensures c in [OtaBegin(true)] + writes <==> c == OtaBegin(true)
  {
    assert ([OtaBegin(true)] + writes)[0] == OtaBegin(true);
  }

  lemma InAppended(a: seq<Call>, b: seq<Call>, c: Call)
    ensures c in a + b <==> c in a || c in b
  {
  }

  lemma SelectionInTail(made: seq<Call>, writes: seq<Call>, body: seq<byte>, err: UploadErr, c: Call)
    requires Begins(err) && InstalledBy(made, writes, body, err) && !c.OtaWrite?
    ensures c in made <==> c == OtaBegin(true) || c in Tail(err)
  {
    hide InSlot, Tail, OnlyWrites;
    NotInWrites(writes, c);
    InAppended([OtaBegin(true)] + writes, Tail(err), c);
  }

  lemma TailSelects(err: UploadErr)
    requires Begins(err)
    ensures OtaSelect(true) in Tail(err) <==> err == UploadOk
    ensures OtaSelect(false) in Tail(err) <==> err == SelectFailed
    ensures OtaBegin(true) !in Tail(err)
    ensures err == UploadOk || err == SelectFailed ==> |Tail(err)| == 2 && Tail(err)[0] == OtaEnd(true)
  {
  }

  lemma BegunInstallation(made: seq<Call>, writes: seq<Call>, body: seq<byte>, err: UploadErr)
    requires Begins(err) && InstalledBy(made, writes, body, err)
    ensures Closed(made) == 1 && OtaBegin(true) in made
    ensures OtaSelect(true) in made || OtaSelect(false) in made ==>
              InSlot(made) == body && |made| >= 2 && made[|made| - 2] == OtaEnd(true)
    ensures err == UploadOk <==> OtaSelect(true) in made
  {
    WritesCloseNothing(writes);
    TailCloses([OtaBegin(true)] + writes, err);
    SelectionInTail(made, writes, body, err, OtaBegin(true));
    SelectionInTail(made, writes, body, err, OtaSelect(true));
    SelectionInTail(made, writes, body, err, OtaSelect(false));
    TailSelects(err);
    hide Closed, InSlot, Tail, OnlyWrites;
  }

  /** For any chunking and any failure: firmware is selected for boot only when the slot
      holds exactly the whole body and the driver verified it, and every begun handle is
      closed exactly once. */
  lemma SelectedOnlyWhenWhole(made: seq<Call>, body: seq<byte>, err: UploadErr)
    requires Installed(made, body, err)
    ensures Closed(made) == if OtaBegin(true) in made then 1 else 0
    ensures OtaSelect(true) in made || OtaSelect(false) in made ==>
              InSlot(made) == body && |made| >= 2 && made[|made| - 2] == OtaEnd(true)
    ensures err == UploadOk <==> OtaSelect(true) in made
  {
    if err == NoBuffer {
    } else if err == BeginFailed {
      ClosedSnoc([], OtaBegin(false));
      assert made == [] + [OtaBegin(false)];
    } else {
      var writes: seq<Call> :| InstalledBy(made, writes, body, err);
      hide Closed, InSlot, InstalledBy;
      BegunInstallation(made, writes, body, err);
    }
  }

  /** What goes wrong first in an installation. */
  ghost predicate InstallErr(buffer: bool, begins: bool, started: int, chunks: nat -> Chunk, size: nat,
                             ends: bool, selects: bool, err: UploadErr) {
    if !buffer then err == NoBuffer
    else if !begins then err == BeginFailed
    else if !BringsAll(chunks, started, size) then
      err != UploadOk && exists turns: nat :: Ends(chunks, started, size, turns, err)
    else if !ends then err == EndFailed
    else if !selects then err == SelectFailed
    else err == UploadOk
  }

  lemma InstalledIs(made: seq<Call>, writes: seq<Call>, body: seq<byte>, err: UploadErr)
    requires Begins(err) && made == [OtaBegin(true)] + writes + Tail(err)
    requires OnlyWrites(writes) && InSlot(writes) <= body && (InSlot(writes) == body <==> Whole(err))
    ensures Installed(made, body, err)
  {
    hide InSlot, Tail, OnlyWrites;
    assert InstalledBy(made, writes, body, err);
  }

  lemma NotInstalled(body: seq<byte>)
    ensures Installed([], body, NoBuffer) && Installed([OtaBegin(false)], body, BeginFailed)
  {
  }

  /** `install_image` and `finalize_image`. */
  method InstallImage(ota: Ota, body: seq<byte>, buffer: bool, begins: bool, started: int,
                      chunks: nat -> Chunk, ends: bool, selects: bool)
    returns (err: UploadErr, ghost made: seq<Call>)
    modifies ota
    ensures ota.calls == old(ota.calls) + made && Installed(made, body, err)
    ensures InstallErr(buffer, begins, started, chunks, |body|, ends, selects, err)
  {
    hide InSlot, Ends, BringsAll, WritesOf, InstalledBy, OnlyWrites, AllWritten, Installed;
    NotInstalled(body);
    made := [];
    if !buffer {
      return NoBuffer, made;
    }
    ota.Do(OtaBegin(begins));
    made := [OtaBegin(begins)];
    if !begins {
      return BeginFailed, made;
    }
    ghost var writes: seq<Call>, turns: nat;
    err, writes, turns := ReceiveImage(ota, body, started, chunks);
    EndsWell(chunks, started, |body|, turns, err);
    assert EndsSo(err) by { EndsHow(chunks, started, |body|, turns, err); }
    made := made + writes;
    if err != UploadOk {
      ota.Do(OtaAbort);
      made := made + [OtaAbort];
      InstalledIs(made, writes, body, err);
      return;
    }
    ota.Do(OtaEnd(ends));
    made := made + [OtaEnd(ends)];
    if !ends {
      err := EndFailed;
      InstalledIs(made, writes, body, err);
      return;
    }
    ota.Do(OtaSelect(selects));
    made := made + [OtaSelect(selects)];
    err := if selects then UploadOk else SelectFailed;
    assert made == [OtaBegin(true)] + writes + Tail(err);
    InstalledIs(made, writes, body, err);
  }

  datatype Answer = NotReady | DoesNotFit | SettingsBusy | Rejected | AcceptedRestart

  class Updater {
    const store: Store
    const ota: Ota
    var restartRequested: bool

    constructor (store: Store, ota: Ota)
      ensures this.store == store && this.ota == ota && !restartRequested
    {
      this.store, this.ota, restartRequested := store, ota, false;
    }

    /** `firmware_update_upload`: the reservation is taken before the first driver call
        and survives exactly when the new firmware was selected for boot. */
    method Upload(ready: bool, body: seq<byte>, slotSize: nat, buffer: bool, begins: bool, started: int,
                  chunks: nat -> Chunk, ends: bool, selects: bool)
      returns (answer: Answer, ghost made: seq<Call>)
      modifies this`restartRequested, store`firmwareUpdate, ota
      ensures ota.calls == old(ota.calls) + made
      ensures answer == NotReady <==> !ready
      ensures answer == DoesNotFit <==> ready && (body == [] || |body| > slotSize)
      ensures answer == SettingsBusy <==> ready && 0 < |body| <= slotSize && Busy(old(store.View()))
      ensures answer == AcceptedRestart ==> Installed(made, body, UploadOk)
      ensures answer == Rejected ==> exists err :: err != UploadOk && Installed(made, body, err)
      ensures answer != AcceptedRestart && answer != Rejected ==> made == []
      ensures answer == AcceptedRestart <==>
                && ready && 0 < |body| <= slotSize
                && !old(store.trial) && old(store.rebootAt) == 0 && !old(store.firmwareUpdate)
                && buffer && begins && BringsAll(chunks, started, |body|) && ends && selects
      ensures if answer == AcceptedRestart
              then store.View() == old(store.View()).(firmwareUpdate := true) && restartRequested
              else store.View() == old(store.View()) && restartRequested == old(restartRequested)
    {
      hide Installed, BringsAll, Ends;
      made := [];
      if !ready {
        return NotReady, made;
      }
      if body == [] || |body| > slotSize {
        return DoesNotFit, made;
      }
      var allowed := store.SettingsUpdateBegin();
      if !allowed {
        return SettingsBusy, made;
      }
      var err: UploadErr;
      err, made := InstallImage(ota, body, buffer, begins, started, chunks, ends, selects);
      if err != UploadOk {
        store.SettingsUpdateEnd();
        return Rejected, made;
      }
      restartRequested := true;
      return AcceptedRestart, made;
    }
  }

  /// Boot health

  const HEALTH_STABLE := 30 * SECOND
  const HEALTH_DEADLINE := 180 * SECOND

  /** `connectedAt == 0` means not connected. */
  datatype Health = Health(pending: bool, started: int, connectedAt: int)

  /** One `firmware_update_tick`; `marks` is the driver's answer to the confirmation. */
  datatype HealthTick = HealthTick(connected: bool, now: int, trial: bool, marks: bool)

  function Tracked(h: Health, t: HealthTick): Health {
    if !t.connected then h.(connectedAt := 0)
    else if h.connectedAt == 0 then h.(connectedAt := t.now)
    else h
  }

  predicate Healthy(h: Health, t: HealthTick) {
    h.connectedAt != 0 && t.now - h.connectedAt >= HEALTH_STABLE && !t.trial
  }

  function Ticked(h: Health, t: HealthTick): Health {
    if !h.pending then h
    else
      var tracked := Tracked(h, t);
      if Healthy(tracked, t) && t.marks then tracked.(pending := false) else tracked
  }

  /** Does the tick ask the bootloader to roll the image back? */
  predicate RollsBack(h: Health, t: HealthTick) {
    Ticked(h, t).pending && t.now - h.started >= HEALTH_DEADLINE
  }

  /** The monitor after the first `k` ticks of a boot. */
  function HealthAt(h: Health, ticks: seq<HealthTick>, k: nat): Health
    requires k <= |ticks|
  {
    if k == 0 then h else Ticked(HealthAt(h, ticks, k - 1), ticks[k - 1])
  }

  ghost predicate Monotone(ticks: seq<HealthTick>) {
    forall i, j | 0 <= i < j < |ticks| :: ticks[i].now <= ticks[j].now
  }

  /** Every tick from `i` to `k` saw Wi-Fi connected. */
  ghost predicate ConnectedThrough(ticks: seq<HealthTick>, i: nat, k: nat) {
    i <= k < |ticks| && forall j | i <= j <= k :: ticks[j].connected
  }

  /** Half a minute of stable Wi-Fi up to tick `k`, begun after the clock left zero. */
  ghost predicate Stable(ticks: seq<HealthTick>, k: nat)
    requires k < |ticks|
  {
    exists i: nat :: i <= k && ConnectedThrough(ticks, i, k) && ticks[i].now != 0 && ticks[k].now - ticks[i].now >= 30 * SECOND
  }

  /** While the image is pending, the monitor remembers a tick since which Wi-Fi has been
      connected, and the earliest such tick after time zero. */
  lemma {:induction false} ConnectedAtIs(h: Health, ticks: seq<HealthTick>, k: nat)
    requires k < |ticks| && Monotone(ticks) && h.connectedAt == 0
    requires HealthAt(h, ticks, k).pending
    ensures var at := Tracked(HealthAt(h, ticks, k), ticks[k]).connectedAt;
            && (at != 0 ==> exists i: nat :: i <= k && ConnectedThrough(ticks, i, k) && ticks[i].now == at)
            && (forall i: nat | i <= k && ConnectedThrough(ticks, i, k) && ticks[i].now != 0 ::
                  at != 0 && at <= ticks[i].now)
  {
    hide ConnectedThrough;
    var before := HealthAt(h, ticks, k);
    var at := Tracked(before, ticks[k]).connectedAt;
    ConnectedNow(ticks, k);
    if k > 0 {
      ConnectedAtIs(h, ticks, k - 1);
      assert before.connectedAt == Tracked(HealthAt(h, ticks, k - 1), ticks[k - 1]).connectedAt;
      if ticks[k].connected && before.connectedAt != 0 {
        var i: nat :| i <= k - 1 && ConnectedThrough(ticks, i, k - 1) && ticks[i].now == before.connectedAt;
        ConnectedSnoc(ticks, i, k);
      }
    }
    forall i: nat | i <= k && ConnectedThrough(ticks, i, k) && ticks[i].now != 0
      ensures at != 0 && at <= ticks[i].now
    {
      ConnectedSnoc(ticks, i, k);
    }
  }

  lemma ConnectedNow(ticks: seq<HealthTick>, k: nat)
    requires k < |ticks|
    ensures ConnectedThrough(ticks, k, k) <==> ticks[k].connected
  {
  }

  lemma ConnectedSnoc(ticks: seq<HealthTick>, i: nat, k: nat)
    requires k < |ticks|
    ensures ConnectedThrough(ticks, i, k) ==> i <= k && ticks[k].connected
    ensures i < k ==> (ConnectedThrough(ticks, i, k) <==> ConnectedThrough(ticks, i, k - 1) && ticks[k].connected)
  {
  }

  /** Firmware is confirmed at a tick if and only if Wi-Fi was connected at every tick of
      at least half a minute up to it, no settings trial is active, and the driver
      records the confirmation. */
  lemma ConfirmedIffStable(h: Health, ticks: seq<HealthTick>, k: nat)
    requires k < |ticks| && Monotone(ticks) && h.connectedAt == 0
    requires HealthAt(h, ticks, k).pending
    ensures !HealthAt(h, ticks, k + 1).pending <==>
            Stable(ticks, k) && !ticks[k].trial && ticks[k].marks
  {
    ConnectedAtIs(h, ticks, k);
    var at := Tracked(HealthAt(h, ticks, k), ticks[k]).connectedAt;
    if at != 0 && ticks[k].now - at >= HEALTH_STABLE {
      var i: nat :| i <= k && ConnectedThrough(ticks, i, k) && ticks[i].now == at;
      assert Stable(ticks, k);
    }
    if Stable(ticks, k) {
      var i: nat :| i <= k && ConnectedThrough(ticks, i, k) && ticks[i].now != 0
                    && ticks[k].now - ticks[i].now >= HEALTH_STABLE;
      assert at != 0 && at <= ticks[i].now;
    }
  }

  /** A tick asks for the rollback of the image exactly if it is still unconfirmed and three
      minutes have passed since boot: never before, always from then on, and never once the
      image was confirmed. */
  lemma {:induction false} DecidedByDeadline(h: Health, ticks: seq<HealthTick>, j: nat, k: nat)
    requires j <= k < |ticks|
    ensures HealthAt(h, ticks, k).started == h.started
    ensures RollsBack(HealthAt(h, ticks, k), ticks[k]) <==>
              HealthAt(h, ticks, k + 1).pending && ticks[k].now - h.started >= 180 * SECOND
    ensures !HealthAt(h, ticks, j).pending ==>
              !HealthAt(h, ticks, k).pending && !RollsBack(HealthAt(h, ticks, k), ticks[k])
    decreases k
  {
    if j < k {
      DecidedByDeadline(h, ticks, j, k - 1);
    } else if k > 0 {
      DecidedByDeadline(h, ticks, k - 1, k - 1);
    }
  }

  datatype Verdict = Nothing | RestartNow | Confirmed | Rollback

  class Monitor {
    var pending: bool
    var started: int
    var connectedAt: int

    ghost function View(): Health
      reads this
    {
      Health(pending, started, connectedAt)
    }

    constructor (pending: bool, now: int)
      ensures View() == Health(pending, now, 0)
    {
      this.pending, started, connectedAt := pending, now, 0;
    }

    method TrackConnection(connected: bool, now: int)
      modifies this`connectedAt
      ensures forall trial, marks :: View() == Tracked(old(View()), HealthTick(connected, now, trial, marks))
    {
      if !connected {
        connectedAt := 0;
      } else if connectedAt == 0 {
        connectedAt := now;
      }
    }

    method Tick(restartRequested: bool, connected: bool, now: int, trial: bool, marks: bool)
      returns (verdict: Verdict)
      modifies this`pending, this`connectedAt
      ensures var t := HealthTick(connected, now, trial, marks);
              if restartRequested then verdict == RestartNow && View() == old(View())
              else && View() == Ticked(old(View()), t)
                   && (verdict == Rollback <==> RollsBack(old(View()), t))
                   && (verdict == Confirmed <==> old(pending) && !pending)
                   && verdict != RestartNow
    {
      if restartRequested {
        return RestartNow;
      }
      if !pending {
        return Nothing;
      }
      ghost var t := HealthTick(connected, now, trial, marks);
      TrackConnection(connected, now);
      assert View() == Tracked(old(View()), t);
      verdict := Nothing;
      if connectedAt != 0 && now - connectedAt >= HEALTH_STABLE && !trial {
        if marks {
          pending := false;
          verdict := Confirmed;
        }
      }
      if pending && now - started >= HEALTH_DEADLINE {
        verdict := Rollback;
      }
    }
  }
}
