# Daddy Status firmware: verified model

This project models the stateful protocols of the Daddy Status firmware (an ESP32 presence
light) in Dafny and proves what they guarantee over whole runs: wherever power fails, whatever
bytes arrive, however threads interleave. `dafny verify dfyconfig.toml` checks everything.

| file | models |
|---|---|
| Settings.dfy | the settings record, its validation and compiled defaults |
| SettingsStore.dfy | the crash-safe store: each call as a function on flash and RAM, and the classes that do it in place |
| SettingsRuns.dfy | whole runs of boots, requests, ticks, token writes, transfers and power cuts |
| Improv.dfy | Improv frames, the byte-at-a-time parser, commands and the provisioning state |
| ImprovService.dfy | the objects that parse, answer and call `save_wifi` back in place |
| ImprovSerial.dfy | the serial tick and what the host is told about a Wi-Fi trial |
| Wifi.dfy | the reconnect worker against the driver, the recovery network, the event ring |
| LedControl.dfy | the LED worker, its queue of length one and its output cache |
| AuthClient.dfy | device-code polling, token responses and whole runs of sign-in attempts |
| FirmwareUpdate.dfy | uploads under the settings reservation, and the boot health check |
| Protocol.dfy | percent-encoding, Retry-After, GUIDs, the response buffer |

How the environment enters the model:

- A durable write of the settings record or the refresh token is done, or fails leaving the old
  value, or fails although the new value reached flash (`Outcome`). Nothing below excludes the
  third outcome. Where it matters, `SettingsRuns.Unreported` names the write whose error report
  hides that flash holds its record, and the result says exactly what that write changes.
- Each store call holds the mutex in the source and is one step here. An error in
  `settings_init` aborts the boot, so its error outcomes leave exactly what a power cut between
  two durable writes leaves; `Crash` is a power cut or restart at any other point.
- A refresh token is represented by the tenant and client that obtained it; the sign-in worker may
  store one for the running settings, or erase it, at any moment of a run.
- Clocks are parameters: nonnegative, and monotone for the main loop's ticks within a boot.
  Driver answers, socket reads, HTTP replies and scheduling are parameters too, so a theorem
  covers every combination of them.
- The Wi-Fi worker and the LED worker run beside callbacks and callers. They are state machines
  whose steps may be interleaved in every order; the pieces of state they change in place
  (recovery, event ring, queue, render cache) are classes proved against the same functions.
- The Wi-Fi driver raises exactly one disconnect event per ended attempt or session and none when
  idle, a failed connect leaves it idle, stopping is synchronous, and events are atomic.

Some expectations do not hold in full, and the exact conditions are proved:

- Three promises about the next boot (it loads the live settings, `Unchanged` is truthful, no
  trial follows a transfer) can be broken by a write that reports an error and yet reaches flash.
  `SettingsRuns.FlashFollowsReports` proves that memory and flash agree if and only if no write of
  the present boot is unreported; `NextBootLoadsLive`, `UnchangedMeansAlreadyStored` and
  `NoTrialAfterUpload` give each promise its if-and-only-if. With all-or-nothing failure nothing is
  ever unreported (`AtomicRunsHideNothing`); `PromisesAreBrokenSomewhere` exhibits a device that
  breaks all three.
- Improv's error 3 (trial failed) can be sent although the next boot keeps the new settings:
  `ImprovSerial.TimeoutMeansRollback` proves that this happens if and only if some promotion write
  of that boot was lost in this way, and `ImprovSerial.TimeoutAfterLostPromotion` exhibits it from
  every trial boot (`TrialBootReached` gives one).
- The parser's counter forgets a completed frame, checksum included. It is the longest matching
  suffix of what follows the last whole frame (`Improv.CounterIsLongestSuffix`), and of the whole
  stream if and only if no prefix of the pattern straddles the end of that frame
  (`Improv.CounterCoversStream`); a frame whose checksum is the letter I shows the difference
  (`Improv.ChecksumCanStraddle`).
- `Wifi.HistoryCompleteUnlessWrapped` states exactly when the event list is complete once the
  32-bit count wraps, and `AuthClient.OnePieceWraps` exactly which waits would be cut short without
  chunking.

## Model

| member | source | states |
|---|---|---|
| Settings.CompleteImpliesIncomplete | main/settings.c:105-138 | a form valid as complete passes the incomplete check that guards stored records, and names a network |
| Settings.FormValidIff | main/settings.c:46-138 | validation accepts exactly the forms whose SSID, password, tenant, client, time server, intervals and brightness are as described |
| Settings.RecordValidIff | main/settings.c:155-166 | a stored record is accepted exactly for version 1, flags of 0 or 1, a usable form and, during a trial, a usable candidate with an SSID |
| Settings.DefaultsAreCompiled | main/settings.c:28-43 | compiled settings, cut to their fields, are used exactly if they are a valid form, else the empty recovery settings |
| Protocol.GuidValidIff | main/protocol.c:161-173 | a GUID is five groups of 8, 4, 4, 4 and 12 hexadecimal digits joined by dashes |
| Settings.BrightnessIndependent | main/settings.c:78-89 | replacing the brightness of valid settings keeps them valid exactly within 1 to 100 |
| Settings.DefaultsValid | main/settings.c:28-43 | whatever was compiled in, the defaults and the record built on them are valid |
| SettingsStore.Store.Persist | main/settings.c:140-153 | RAM mirrors the new record only when the write reports success |
| SettingsStore.BootOfRecord | main/settings.c:199-241 | a boot of a stored record: what it runs and writes in each phase of a trial, and that the token goes exactly on a reset or after a failed trial of another identity |
| SettingsStore.BootOfNothing | main/settings.c:168-192 | without a usable record the defaults run and nothing is written; unreadable storage stops the boot |
| SettingsStore.SaveIs | main/settings.c:382-448 | when a save is refused, unchanged or stored, what record it stores, and what waits for a restart |
| SettingsStore.SaveWifiIs | main/settings.c:450-487 | when a serial request is refused or stored, always as a trial of the live settings with new credentials |
| SettingsStore.ResetAndTransferAre | main/settings.c:489-544 | a reset and a reservation are granted exactly without trial, restart and transfer |
| SettingsStore.TrialTickIs | main/settings.c:510-534 | a tick of a trial writes or ends it only online, within three minutes and five seconds apart; then it makes the trial's settings active; after three minutes it schedules the restart |
| SettingsStore.OtherTickIs | main/settings.c:526-534 | any other tick only reports a scheduled restart whose time has come |
| SettingsStore.Store.ResolveInterruptedTrial | main/settings.c:199-214 | marks a due trial or rolls an interrupted one back, erasing the token when the identity changes |
| SettingsStore.Store.Init | main/settings.c:216-241 | flash and statics after a boot, for every outcome of its reads and writes |
| SettingsStore.Store.SettingsSave | main/settings.c:407-448 | flash, statics and answer of a save in every branch |
| SettingsStore.Store.SettingsSaveWifi | main/settings.c:457-487 | flash, statics and answer of a serial Wi-Fi request |
| SettingsStore.Store.SettingsResetAuth | main/settings.c:489-502 | flash, statics and answer of a sign-in reset |
| SettingsStore.Store.SettingsTick | main/settings.c:510-534 | promotion, expiry and the restart verdict of one tick |
| SettingsStore.Store.SettingsUpdateBegin | main/settings.c:536-544 | the reservation is granted exactly when nothing else is under way |
| SettingsRuns.TokenBelongsToCurrent | main/settings.c:194-241 | in every run, lossy writes included, a running device holds no token but one of the tenant and client it runs on |
| SettingsRuns.RecordsStayValid | main/settings.c:155-192 | every record ever on flash passes validation, so the defaults never replace an existing record |
| SettingsRuns.RecordNeverVanishes | main/settings.c:140-153 | once a record is stored some record always is |
| SettingsRuns.StagedCandidateTriedOnce | main/settings.c:199-241 | a staged candidate runs as a trial in at most one boot, and without a promotion on flash every other boot runs the settings active before staging |
| SettingsRuns.StagingKeepsActive | main/settings.c:407-435 | what is staged is the request, and what a failed trial returns to is the settings in force before it |
| SettingsRuns.CandidateExposedOnlyWhenMarked | main/settings.c:206-241 | during a trial the tried marker, or the promotion, is already on flash |
| SettingsRuns.TrialEnds | main/settings.c:510-534 | any tick three minutes or more after boot finds the trial promoted or reports the restart due |
| SettingsRuns.PromotedOnlyOnline | main/settings.c:510-524 | in every reachable trial a tick changes flash or ends the trial only online, in time and when due, and with a successful write it then does both |
| SettingsRuns.OfflineTrialRollsBack | main/settings.c:510-534 | a trial boot that is never online leaves the record alone, and the next boot runs the earlier settings and keeps the token unless the identity differs |
| SettingsRuns.FailedTrialRestores | main/settings.c:199-241 | from request over trial to the boot after it: a trial that never gets online restores settings and sign-in |
| SettingsRuns.AtMost36Promotions | main/settings.c:510-524 | one boot writes the promotion at most 36 times |
| SettingsRuns.ReservationExcludesRestart | main/settings.c:526-551 | while a transfer holds the reservation there is no trial or restart and ticks change nothing |
| SettingsRuns.RestartLatched | main/settings.c:387-411 | after a scheduled restart or accepted upload, RAM and the record stay fixed and every save, reset and transfer is refused for the rest of the boot |
| SettingsRuns.RestartDueAfterTwoSeconds | main/settings.c:432-433 | a scheduled restart is reported due exactly from two seconds after its request, whatever else happens |
| SettingsRuns.WritesAre | main/settings.c:140-153 | which steps write the record, what they write, and that memory follows exactly the writes reported done |
| SettingsRuns.FlashFollowsReports | main/settings.c:140-153 | in every run memory and flash hold the same record if and only if no write of this boot is unreported; otherwise flash holds what that write wrote |
| SettingsRuns.AtomicRunsHideNothing | main/settings.c:140-153 | with all-or-nothing failure no write is ever unreported |
| SettingsRuns.AnySettingsInstalled | main/settings.c:407-435 | every complete form can be saved, tried and promoted until an idle device runs on it |
| SettingsRuns.NextBootLoadsLive | main/settings.c:216-241 | outside trial and pending restart, a readable boot writes nothing, keeps the token and runs the live settings if and only if no write is unreported |
| SettingsRuns.UnchangedMeansAlreadyStored | main/settings.c:412-416 | a save called unchanged writes nothing and equals what the next boot loads if and only if no write is unreported or that write only reset the sign-in; any other request is already what the next boot loads exactly when it is the save that went unreported |
| SettingsRuns.AcceptedSaveMeansNextBoot | main/settings.c:399-435 | a stored save is what the next successful boot runs, as a trial exactly on a Wi-Fi change, and ends the sign-in exactly on a change of tenant or client; applied means only brightness differs |
| SettingsRuns.SerialSaveMeansTrial | main/settings.c:457-487 | a stored serial request makes the next boot a trial of the live settings with the new credentials, keeping the sign-in |
| SettingsRuns.ResetErasesToken | main/settings.c:489-502 | after a stored reset the next successful boot has no token and the same settings |
| SettingsRuns.PromotionMeansNextBoot | main/settings.c:510-524 | a stored promotion makes the trial's settings the ones the next boot loads without any write |
| SettingsRuns.NoTrialAfterUpload | main/firmware_update.c:146-159 | the boot after a transfer is a settings trial if and only if an unreported write staged a candidate before it |
| SettingsRuns.LossyWritesBreakThePromises | main/settings.c:140-153 | from any idle device a Wi-Fi change whose failed write reached flash breaks all three promises |
| SettingsRuns.PromisesAreBrokenSomewhere | main/settings.c:407-435 | whatever was compiled in, a reachable device breaks them |
| Improv.FeedAllScans | main/improv.c:151-166 | from any partial frame, byte-at-a-time parsing finds exactly what a leftmost scan of the stream finds |
| Improv.ParserFindsFrames | main/improv.c:151-166 | for any bytes and arrival times the parser dispatches the scan of each burst; a gap over one second separates independent parses |
| Improv.CounterIsLongestSuffix | main/improv.c:151-166 | for every stream, an unfinished frame is held from its pattern on, and otherwise the counter is the longest suffix, since the last whole frame, that is a prefix of the sync pattern |
| Improv.CounterCoversStream | main/improv.c:133-149 | the counter is the longest such suffix of the whole stream if and only if no prefix of the pattern straddles the end of the last frame |
| Improv.ChecksumCanStraddle | main/improv.c:133-149 | a frame whose checksum byte is the letter I leaves the counter at 0 |
| Improv.CounterSinceGap | main/improv.c:151-157 | with any arrival times the same holds for the bytes since the last gap of over one second |
| Improv.SinceGapIsLastBurst | main/improv.c:151-157 | those bytes are the longest gapless end of the stream |
| Improv.NoiseNeverHidesAFrame | main/improv.c:151-166 | noise without a sync pattern never hides the next frame, whatever follows it |
| Improv.FrameRoundTrip | main/improv.c:8-17 | any payload of up to 255 bytes framed as a command is handed on once and unchanged |
| Improv.FrameLayout | main/improv.c:8-17 | a frame is the six letters, version, type, length, data and the sum of all of these modulo 256 |
| Improv.CorruptionRejected | main/improv.c:133-143 | changing any one payload or checksum byte gets the frame rejected |
| Improv.ResultFitsAndDecodes | main/improv.c:30-46 | a result is sent exactly when it fits 255 bytes, and its strings decode back |
| Improv.ListedDecodes | main/improv.c:48-63 | length-prefixed strings come back in order with nothing left over |
| Improv.CredentialsArriveExactly | main/improv.c:65-74 | save_wifi is called exactly for an SSID of 1 to 32 and a password of 0 to 64 bytes, with those bytes |
| Improv.SessionStaysOk | main/improv.c:83-105 | a result for command 1 is owed exactly while the state is PROVISIONING |
| Improv.PollAnswers | main/improv.c:168-195 | what a poll sends and leaves: the timeout, the lost address, silence in a trial, or the announcement and exactly the owed result with the address |
| Improv.CommandAnswers | main/improv.c:65-123 | every command gets error 0 and then one answer: the state, the four information strings in order, the code of a request, or the error that fits |
| Improv.StateRequestGetsAddress | main/improv.c:87-93 | command 2 on a provisioned device is answered by the state and, with the next poll, by the address |
| ImprovService.Service.Send | main/improv.c:8-17 | the bytes written for a packet |
| ImprovService.ResultData | main/improv.c:30-45 | the filled result buffer, or failure exactly when the strings do not fit |
| ImprovService.Io.SaveWifi | main/improv_serial.c:35-41 | the settings call, its Improv code, the restarting latch, and how many packets were sent before it |
| ImprovService.Service.WifiCommand | main/improv.c:65-85 | state and answer, and when credentials are well-formed the call of save_wifi with what it does to the store |
| ImprovService.Service.Command | main/improv.c:87-105 | state and answer of a command without data |
| ImprovService.Service.DispatchCommand | main/improv.c:107-123 | state and packets of one dispatched frame, with save_wifi called after the acknowledging packet and before the answer |
| ImprovService.Service.CompleteFrame | main/improv.c:133-143 | checksum test, dispatch with the call it makes, and reset of the buffer |
| ImprovService.Service.Feed | main/improv.c:151-166 | one byte keeps the 265-byte buffer valid and does what the parser function says, with the call a completed frame makes |
| ImprovService.Service.PollUrl | main/improv.c:168-195 | state and packets of a poll, as `Improv.PollAnswers` describes them |
| ImprovSerial.OneFinalAnswer | main/improv_serial.c:66-84 | in one boot the host gets at most one of result and timeout for command 1, and none unless it began as a trial |
| ImprovSerial.ResultOnlyAfterPromotion | main/improv.c:179-195 | the result for command 1 is sent only after an online tick put the promoted record on flash |
| ImprovSerial.ResultIsDelivered | main/improv.c:168-195 | once a trial is committed, the first poll with an address has sent the result for command 1, unless a new request was saved before |
| ImprovSerial.TimeoutIsDelivered | main/improv.c:181-186 | the poll after the tick that gave the trial up has sent error 3 |
| ImprovSerial.RequestIsAnswered | main/improv_serial.c:35-41 | a Wi-Fi request is acknowledged and then answered by PROVISIONING, error 1 or error 255, exactly by what became of it |
| ImprovSerial.TimeoutMeansRollback | main/improv_serial.c:74-76 | error 3 is sent only in an uncommitted trial whose restart is scheduled; flash holds the promotion then if and only if a failed promotion write reached it |
| ImprovSerial.TimeoutAfterLostPromotion | main/settings.c:518-523 | from every trial boot, a lost promotion leads to error 3 although the next boot keeps the new settings |
| ImprovSerial.TrialBootReached | main/settings.c:457-487 | every complete form is on trial in some reachable boot |
| ImprovSerial.Serial.Tick | main/improv_serial.c:66-84 | at most 512 bytes are read, and the poll is skipped once a request was saved |
| ImprovSerial.Serial.Read | main/improv_serial.c:70-74 | one byte with the settings call it may cause, in the order of packets and call, and the restarting latch |
| ImprovSerial.ReadByteIsFrame | main/improv_serial.c:70-74 | a byte acts on store, session and packets sent exactly when it completes a frame, and then as that frame's event |
| ImprovSerial.SerialTickIsRun | main/improv_serial.c:66-84 | one serial tick is the receipt of exactly the frames the parser finds and then one poll, and the bytes on the wire are the packets of that run |
| ImprovSerial.ReadAllParses | main/improv_serial.c:70-74 | the bytes of a tick pass the parser once and in order |
| Wifi.ConnectFindsDriverIdle | main/wifi.c:216-272 | under every interleaving each connect finds the driver idle, and the connected bit is set exactly while the station is up |
| Wifi.ConnectsAgain | main/wifi.c:253-272 | with an SSID, every 45 worker steps not spent waiting for an event contain an attempt, whatever the driver answers |
| Wifi.OwedEventWakes | main/wifi.c:190-214 | a worker that waits for an event waits for one the driver owes, or for the end of a session that is up, and goes on once it comes |
| Wifi.RetryLeadsToConnect | main/wifi.c:259-271 | with an SSID an attempt follows three worker steps after a retry begins, two after the top of the loop |
| Wifi.AttemptEnds | main/wifi.c:216-234 | a refused attempt is cancelled; an accepted one ends within thirty slices in a session, a retry on a disconnect, or the cancellation |
| Wifi.CancelEnds | main/wifi.c:181-197 | a cancellation retries on its disconnect within five slices, else restarts the station |
| Wifi.UnboundedWaitsAreWoken | main/wifi.c:152-197 | no wake-up is lost in an unbounded wait: its bit is set or the driver still owes the event |
| Wifi.BackoffDoubles | main/wifi.c:241-272 | under every interleaving the n-th retry since the last established connection waits min(2^n, 30) seconds |
| Wifi.WithoutSsidNeverConnects | main/wifi.c:260-263 | without an SSID no attempt is made |
| Wifi.RecoveryOnlyWhenOffline | main/wifi.c:134-149 | the recovery network appears only without SSID or after three minutes without an online tick, and an accepted online tick removes it |
| Wifi.RecoveryExactly | main/wifi.c:134-149 | after an accepted tick the recovery network is up exactly if the tick was offline and there is no SSID or three minutes passed without an online tick |
| Wifi.RecoveryState.Tick | main/wifi.c:134-149 | the statics after one recovery tick |
| Wifi.HistoryIsLatest | main/web_server.c:248-269 | after any number of events the dashboard lists the latest in order, as many as the wrapped count shows, at most eight |
| Wifi.HistoryCompleteUnlessWrapped | main/wifi.c:27-39 | the list is complete if and only if fewer than 2^32 events were recorded or the wrapped count is at least eight |
| Wifi.Diagnostics.RecordEvent | main/wifi.c:27-39 | the ring after one event |
| Wifi.Diagnostics.History | main/web_server.c:248-269 | the list read from the ring |
| LedControl.WaitingWorkerShowsLatest | main/ledcontrol.c:90-103 | a worker waiting without timeout, with empty queue and no save in between, shows the last mode set at the current brightness |
| LedControl.NewModeIsShown | main/ledcontrol.c:90-103 | a mode that is set is taken and on the strip after the next output that works |
| LedControl.WaitsForeverIff | main/ledcontrol.c:69-75 | the worker sleeps without timeout exactly in the three static modes after an output that worked |
| LedControl.RoundIsRun | main/ledcontrol.c:90-103 | a round in place is a run of the interleaved machine |
| LedControl.Pictures | main/led_frame.c:4-61 | the colours of every mode, which modes blink, and when they are dark |
| LedControl.RainbowPictures | main/led_frame.c:36-51 | the rainbow's period, corners and brightness |
| LedControl.SkippedRedrawIsSound | main/ledcontrol.c:54-67 | a redraw is skipped only when the strip already shows that picture |
| LedControl.ChangesAreSignalled | main/ledcontrol.c:131-147 | a newer mode is in the queue, and a newer brightness has a wake-up queued or on its way |
| LedControl.RefreshKeepsQueuedMode | main/ledcontrol.c:140-147 | a refresh never displaces a queued mode and always leaves a wake-up |
| LedControl.StaticPicture | main/led_frame.c:10-61 | the picture of a static mode does not depend on time |
| LedControl.ModeQueue.SetMode | main/ledcontrol.c:131-138 | a legal mode replaces the queue's content |
| LedControl.Worker.RenderIfChanged | main/ledcontrol.c:54-67 | cache and strip after a draw, for a strip that works or fails |
| LedControl.Worker.TakeModeChange | main/ledcontrol.c:77-87 | a new mode restarts the animation; refreshes and repeats do not |
| LedControl.Worker.Round | main/ledcontrol.c:96-102 | one turn of the loop: draw, receive, restart the animation and forget the cache on a change |
| AuthClient.WaitSeconds | main/include/task_time.h:15-22 | the chunked wait sleeps exactly the seconds asked for, without 32-bit wrap-around |
| AuthClient.OnePieceWraps | main/include/task_time.h:8-22 | an unchunked conversion is exact if and only if the product fits 32 bits |
| AuthClient.HandleTokenPoll | main/auth_client.c:255-277 | from the reply's fields: a 200 ends the login with the tokens' worth, no answer, 429 and 5xx wait the larger of Retry-After and the doubled interval, slow_down adds 5, pending keeps it, the rest ends as invalid |
| AuthClient.PollForToken | main/auth_client.c:279-305 | every request's time and interval, all before the deadline; fewer than expires_in requests; only a final reply ends it early, and a 200 with what its tokens are worth |
| AuthClient.DeviceLogin | main/auth_client.c:307-321 | polls exactly for a usable device code, every five seconds unless told otherwise and until it expires |
| AuthClient.TokensValidIff | main/auth_client.c:60-77 | which token responses are usable |
| AuthClient.AcceptedIs | main/auth_client.c:79-100 | usable tokens are taken exactly with memory and a stored refresh token, and retired a minute early or at half their life |
| AuthClient.ForgottenTokenIsRenewed | main/auth_client.c:323-360 | invalidation and restart forget the access token and keep the sign-in, so the next attempt renews it |
| AuthClient.EnsuredIs | main/auth_client.c:145-172 | an attempt renews the stored sign-in with whatever usable tokens come back, and asks the user only without one or after its rejection |
| AuthClient.PollingIsPolite | main/auth_client.c:249-277 | requests are spaced by the current interval, slow_down adds 5, pending keeps it, nothing is sent after success |
| AuthClient.AccessFollowsStorage | main/auth_client.c:79-100 | in every run the access token in use was delivered by an accepted response, its refresh token being on flash first, is retired before it expires and lives at least half as long |
| AuthClient.SignInLostOnlyByRejection | main/auth_client.c:128-143 | in every run a sign-in survives all errors, restarts and lossy writes, and the user is never asked again, until the provider rejects the grant |
| AuthClient.Client.EnsureAccess | main/auth_client.c:346-360 | state, answer and whether the user was asked, for every way an attempt can go |
| AuthClient.Client.AcceptTokens | main/auth_client.c:79-100 | token, deadline and storage after a response |
| AuthClient.Client.HandleRefreshResponse | main/auth_client.c:128-143 | token, deadline and storage after a refresh |
| FirmwareUpdate.ReceiveImage | main/firmware_update.c:85-104 | for any chunking the slot holds a prefix of the body, one write of at most 4096 bytes per turn; success exactly when every turn needed is in time, brings bytes and is taken, else the error of the first that is not |
| FirmwareUpdate.EndsWell | main/firmware_update.c:85-104 | the loop succeeds if and only if good turns bring the whole body |
| FirmwareUpdate.InstallImage | main/firmware_update.c:106-135 | the driver calls of an installation, in order, and which failure comes first |
| FirmwareUpdate.SelectedOnlyWhenWhole | main/firmware_update.c:106-135 | the slot is selected only when it holds the whole body and the end succeeded; each begun handle is closed exactly once |
| FirmwareUpdate.Updater.Upload | main/firmware_update.c:138-163 | an upload is accepted if and only if slot, size, settings, buffer, driver and every turn allow it; the reservation survives exactly then |
| FirmwareUpdate.ConfirmedIffStable | main/firmware_update.c:27-66 | firmware is confirmed at a tick if and only if Wi-Fi was connected at every tick of half a minute up to it, no trial is active and the driver records it |
| FirmwareUpdate.DecidedByDeadline | main/firmware_update.c:48-66 | a tick rolls the image back exactly if it is unconfirmed and three minutes have passed |
| FirmwareUpdate.Monitor.Tick | main/firmware_update.c:48-66 | state and verdict of one health tick |
| Protocol.FormEncode | main/protocol.c:65-89 | the encoded string decodes back to the input, or NULL exactly on size overflow or failed allocation |
| Protocol.DecodeEncode | main/protocol.c:65-89 | a percent-decoder that knows nothing of the encoder gives every byte string back |
| Protocol.EncodeInjective | main/protocol.c:65-89 | no two inputs share an encoding |
| Protocol.EncodeAlphabet | main/protocol.c:19-22 | the output uses only letters, digits, -._~ and percent signs and at most three bytes per input byte |
| Protocol.EncodeBytewise | main/protocol.c:65-89 | each byte is encoded by itself: as it is, or as a percent sign and two upper-case hexadecimal digits |
| Protocol.BearerTokenValidIff | main/protocol.c:175-186 | which access tokens are legal |
| Protocol.RetryAfterSeconds | main/protocol.c:136-148 | the true decimal value capped at a day for digit strings of any length, else 0 |
| Protocol.ReceivedWhole | main/protocol.c:50-63 | however a body is chunked, the buffer overflows exactly when it does not fit and otherwise holds all of it |
| Protocol.ResponseBuffer.Append | main/protocol.c:50-63 | the terminated buffer after one chunk |

## Left out

- Settings forms in JSON (`settings_parse_error`, `settings_json`): mostly cJSON plumbing; a save takes the parsed settings.
- NULL arguments of `settings_save` and `settings_save_wifi`, struct padding and bytes after string terminators: settings are compared by value.
- NVS, flash encryption, `storage_init`, mutex and queue creation, and secret wiping: external, or not functional properties.
- Token text in the settings runs: a token is its tenant and client there; AuthClient keeps the text.
- Wifi worker as running code: it is a state machine, because its driver callbacks interleave at every step; aborts of `ESP_ERROR_CHECK` end the run.
- Signal strength, retry counters and log output of main/wifi.c: diagnostics only, apart from the event ring.
- LED worker interleaving: the class methods run one round without interruption; the interleavings are those of the state machine in the same file.
- `station_url`, UART driver setup and line fencing of packets on the console: I/O.
- A device login within an attempt is known by how it ends (its course is `AuthClient.DeviceLogin`), and requests without an answer fail with one error code.
- Error categories of main/auth_client.c (`classify_failure`, `finish_auth_attempt`) and form texts: single table lookups.
- HTTP headers, JSON building, access control and pages of main/web_server.c and the browser scripts: glue.
- main/firmware_download.c beyond being the second holder of the reservation, and main/firmware_status.c: wrappers.
- main/presence.c, main/app_state.c, main/graph_client.c, main/main.c: decisions and glue; the main loop's order of ticks is used but not modelled as code.
- Signature verification and the bootloader: the driver's answers stand for them.
