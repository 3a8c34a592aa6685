/** main/ledcontrol.c: the LED worker, its queue of length one and its cache of the last
    output, against mode changes and brightness saves at any moment. */
module LedControl {
  import opened Common

  /// The picture (main/led_frame.c)

  const CONNECTING := 0
  const AUTHENTICATING := 1
  const UNKNOWN := 2
  const AVAILABLE := 3
  const BUSY := 4
  const DO_NOT_DISTURB := 5
  const PLAY := 6
  const CONFIG_ERROR := 7
  const MODE_COUNT := 8

  datatype Rgb = Rgb(red: nat, green: nat, blue: nat)

  const BLACK := Rgb(0, 0, 0)

  type Picture = (Rgb, Rgb)

  predicate Animated(mode: nat) {
    mode == PLAY || mode == CONNECTING || mode == UNKNOWN || mode == AUTHENTICATING || mode == DO_NOT_DISTURB
  }

  function Rainbow(elapsed: nat): Rgb {
    var angle := (elapsed / 15) % 360;
    var c :=
      if angle < 120 then Rgb((120 - angle) * 255 / 120, angle * 255 / 120, 0)
      else if angle < 240 then Rgb(0, (240 - angle) * 255 / 120, (angle - 120) * 255 / 120)
      else Rgb((angle - 240) * 255 / 120, 0, (360 - angle) * 255 / 120);
    Scaled(c, 30)
  }

  function Scaled(c: Rgb, percent: nat): Rgb {
    Rgb(c.red * percent / 100, c.green * percent / 100, c.blue * percent / 100)
  }

  function Color(mode: nat, elapsed: nat): Rgb {
    if mode == AVAILABLE then Rgb(0, 140, 0)
    else if mode == BUSY then Rgb(255, 255, 0)
    else if mode == DO_NOT_DISTURB then Rgb(180, 0, 0)
    else if mode == AUTHENTICATING then Rgb(255, 255, 0)
    else if mode == CONFIG_ERROR then Rgb(180, 0, 180)
    else if mode == PLAY then Rainbow(elapsed)
    else Rgb(0, 0, 140)
  }

  function LedFrame(mode: nat, elapsed: nat, brightness: nat): Option<Picture> {
    if mode >= MODE_COUNT || brightness > 100 then None
    else if mode != PLAY && Animated(mode) && (elapsed / 750) % 2 != 0 then Some((BLACK, BLACK))
    else
      var c := Scaled(Color(mode, elapsed), brightness);
      Some((c, if mode != BUSY then c else BLACK))
  }

  /** One colour at `percent` brightness. */
  function Dimmed(red: nat, green: nat, blue: nat, percent: nat): Rgb {
    Rgb(red * percent / 100, green * percent / 100, blue * percent / 100)
  }

  /** The pictures. Available is green, busy yellow on the first light only, a configuration
      error magenta; connecting and unknown blink blue, authenticating yellow, do not
      disturb red, three quarters of a second on and as long off. */
  lemma Pictures(elapsed: nat, brightness: nat)
    requires brightness <= 100
    ensures var green, yellow, magenta := Dimmed(0, 140, 0, brightness), Dimmed(255, 255, 0, brightness), Dimmed(180, 0, 180, brightness);
            && LedFrame(AVAILABLE, elapsed, brightness) == Some((green, green))
            && LedFrame(BUSY, elapsed, brightness) == Some((yellow, Rgb(0, 0, 0)))
            && LedFrame(CONFIG_ERROR, elapsed, brightness) == Some((magenta, magenta))
    ensures var off := elapsed / 750 % 2 == 1;
            var blue := if off then Rgb(0, 0, 0) else Dimmed(0, 0, 140, brightness);
            var yellow := if off then Rgb(0, 0, 0) else Dimmed(255, 255, 0, brightness);
            var red := if off then Rgb(0, 0, 0) else Dimmed(180, 0, 0, brightness);
            && LedFrame(CONNECTING, elapsed, brightness) == Some((blue, blue))
            && LedFrame(UNKNOWN, elapsed, brightness) == Some((blue, blue))
            && LedFrame(AUTHENTICATING, elapsed, brightness) == Some((yellow, yellow))
            && LedFrame(DO_NOT_DISTURB, elapsed, brightness) == Some((red, red))
  {
  }

  lemma Blend(a: nat)
    requires a <= 120
    ensures var x, y := (120 - a) * 255 / 120, a * 255 / 120;
            && 0 <= x <= 255 && 0 <= y <= 255 && 254 <= x + y <= 255
            && 74 <= x * 30 / 100 + y * 30 / 100 <= 76 && x * 30 / 100 <= 76 && y * 30 / 100 <= 76
  {
  }

  lemma RainbowBlends(elapsed: nat)
    ensures var c := Rainbow(elapsed);
            c.red <= 76 && c.green <= 76 && c.blue <= 76 && 74 <= c.red + c.green + c.blue <= 76
  {
    var angle := elapsed / 15 % 360;
    if angle < 120 {
      Blend(angle);
    } else if angle < 240 {
      Blend(angle - 120);
    } else {
      Blend(angle - 240);
    }
  }

  lemma DimmedIsDimmer(c: nat, percent: nat)
    requires percent <= 100
    ensures c * percent / 100 <= c && c * 100 / 100 == c
  {
    assert c * percent <= c * 100;
  }

  lemma RainbowCorners()
    ensures Rainbow(0) == Rgb(76, 0, 0) && Rainbow(1800) == Rgb(0, 76, 0) && Rainbow(3600) == Rgb(0, 0, 76)
  {
    assert 1800 / 15 % 360 == 120 && 3600 / 15 % 360 == 240;
  }

  lemma RainbowRepeats(elapsed: nat)
    ensures Rainbow(elapsed + 5400) == Rainbow(elapsed)
  {
    assert (elapsed + 5400) / 15 == elapsed / 15 + 360;
    assert (elapsed / 15 + 360) % 360 == elapsed / 15 % 360;
  }

  lemma PlayShowsRainbow(elapsed: nat, brightness: nat)
    requires brightness <= 100
    ensures LedFrame(PLAY, elapsed, brightness) ==
            Some((Scaled(Rainbow(elapsed), brightness), Scaled(Rainbow(elapsed), brightness)))
  {
    hide Rainbow;
  }

  /** The rainbow repeats every 5.4 seconds, passes pure red, green and blue at its thirds,
      lights both lights alike, and keeps at thirty percent in between. */
  lemma RainbowPictures(elapsed: nat, brightness: nat)
    requires brightness <= 100
    ensures LedFrame(PLAY, elapsed, brightness).Some?
    ensures LedFrame(PLAY, elapsed + 5400, brightness) == LedFrame(PLAY, elapsed, brightness)
    ensures var (first, second) := LedFrame(PLAY, elapsed, brightness).value;
            first == second && first.red <= 76 && first.green <= 76 && first.blue <= 76
    ensures var full := LedFrame(PLAY, elapsed, 100);
            full.Some? && 74 <= full.value.0.red + full.value.0.green + full.value.0.blue <= 76
    ensures LedFrame(PLAY, 0, 100) == Some((Rgb(76, 0, 0), Rgb(76, 0, 0)))
    ensures LedFrame(PLAY, 1800, 100) == Some((Rgb(0, 76, 0), Rgb(0, 76, 0)))
    ensures LedFrame(PLAY, 3600, 100) == Some((Rgb(0, 0, 76), Rgb(0, 0, 76)))
  {
    RainbowBlends(elapsed);
    RainbowCorners();
    RainbowRepeats(elapsed);
    PlayShowsRainbow(elapsed, brightness);
    PlayShowsRainbow(elapsed + 5400, brightness);
    PlayShowsRainbow(elapsed, 100);
    PlayShowsRainbow(0, 100);
    PlayShowsRainbow(1800, 100);
    PlayShowsRainbow(3600, 100);
    hide Rainbow, LedFrame;
    var c := Rainbow(elapsed);
    DimmedIsDimmer(c.red, brightness);
    DimmedIsDimmer(c.green, brightness);
    DimmedIsDimmer(c.blue, brightness);
  }

  /// The worker and its callers

  /** The value that wakes the worker without naming a mode. */
  const REFRESH := MODE_COUNT

  datatype Cache = Cache(previous: Picture, rendered: bool, failed: bool)

  datatype Pc =
    | Compute                    // read the brightness, draw the picture
    | Output(picture: Picture)   // write it to the strip
    | Take                       // wait for the queue

  /** `strip` is what the LEDs show; `seen` the brightness this round read; `lastSet`
      the last mode accepted; `savers` counts the saves between their brightness write
      and their `leds_refresh`. */
  datatype Display = Display(
    pc: Pc, mode: nat, cache: Cache, strip: Picture, seen: nat,
    queue: Option<nat>, brightness: nat, lastSet: nat, savers: nat)

  datatype Action =
    | SetMode(m: int)
    | WriteBrightness(b: nat)
    | CallRefresh
    | WorkerDraws(elapsed: nat)
    | WorkerWrites(ok: bool, garbage: Picture)
    | WorkerReceives
    | WorkerTimesOut

  /** `next_wait_ticks` is unbounded. */
  predicate WaitsForever(mode: nat, failed: bool) {
    !failed && !Animated(mode)
  }

  /** The worker sleeps without a timeout exactly in the three static modes, after an output
      that worked; else it comes back by itself to animate or to retry. */
  lemma WaitsForeverIff(mode: nat, failed: bool)
    requires mode < MODE_COUNT
    ensures WaitsForever(mode, failed) <==> !failed && (mode == AVAILABLE || mode == BUSY || mode == CONFIG_ERROR)
  {
  }

  predicate Enabled(d: Display, a: Action) {
    match a
    case SetMode(_) => true
    case WriteBrightness(b) => 1 <= b <= 100 && b != d.brightness
    case CallRefresh => d.savers > 0
    case WorkerDraws(_) => d.pc.Compute?
    case WorkerWrites(_, _) => d.pc.Output?
    case WorkerReceives => d.pc.Take? && d.queue.Some?
    case WorkerTimesOut => d.pc.Take? && d.queue.None? && !WaitsForever(d.mode, d.cache.failed)
  }

  /** `leds_set_mode` overwrites the queue. */
  function ModeSet(queue: Option<nat>, m: int): Option<nat> {
    if 0 <= m < MODE_COUNT then Some(m) else queue
  }

  /** `leds_refresh` never does. */
  function Refreshed(queue: Option<nat>): Option<nat> {
    if queue.None? then Some(REFRESH) else queue
  }

  predicate Skips(cache: Cache, picture: Option<Picture>) {
    picture.None? || (cache.rendered && cache.previous == picture.value)
  }

  function Shown(cache: Cache, picture: Picture, ok: bool): Cache {
    if ok then Cache(picture, true, false) else cache.(rendered := false, failed := true)
  }

  /** `take_mode_change` with `item` received. */
  predicate ChangesMode(mode: nat, item: nat) {
    item < MODE_COUNT && item != mode
  }

  function Apply(d: Display, a: Action): Display
    requires Enabled(d, a)
  {
    match a
    case SetMode(m) =>
      d.(queue := ModeSet(d.queue, m), lastSet := if 0 <= m < MODE_COUNT then m else d.lastSet)
    case WriteBrightness(b) => d.(brightness := b, savers := d.savers + 1)
    case CallRefresh => d.(queue := Refreshed(d.queue), savers := d.savers - 1)
    case WorkerDraws(elapsed) =>
      var picture := LedFrame(d.mode, elapsed, d.brightness);
      d.(seen := d.brightness, pc := if Skips(d.cache, picture) then Take else Output(picture.value))
    case WorkerWrites(ok, garbage) =>
      d.(pc := Take, cache := Shown(d.cache, d.pc.picture, ok), strip := if ok then d.pc.picture else garbage)
    case WorkerReceives =>
      var item := d.queue.value;
      if ChangesMode(d.mode, item) then
        d.(pc := Compute, queue := None, mode := item, cache := d.cache.(rendered := false))
      else d.(pc := Compute, queue := None)
    case WorkerTimesOut => d.(pc := Compute)
  }

  /** The worker at its first round; what the strip shows is not known. */
  ghost predicate Initial(d: Display) {
    && d.pc.Compute? && d.mode == CONNECTING && d.lastSet == CONNECTING
    && !d.cache.rendered && !d.cache.failed
    && d.queue.None? && d.savers == 0 && 1 <= d.brightness <= 100
  }

  function At(d: Display, actions: seq<Action>, k: nat): Display
    requires k <= |actions|
  {
    if k == 0 then d
    else
      var before := At(d, actions, k - 1);
      if Enabled(before, actions[k - 1]) then Apply(before, actions[k - 1]) else before
  }

  /** The picture the worker has just put on the strip, or found there. */
  ghost predicate Drawn(mode: nat, seen: nat, picture: Picture) {
    exists elapsed: nat :: LedFrame(mode, elapsed, seen) == Some(picture)
  }

  ghost predicate DisplayInv(d: Display) {
    && d.mode < MODE_COUNT && 1 <= d.brightness <= 100
    && (d.queue.Some? ==> d.queue.value <= REFRESH)
    && d.lastSet == (if d.queue.Some? && d.queue.value != REFRESH then d.queue.value else d.mode)
    && (d.cache.rendered ==> d.strip == d.cache.previous)
    && (d.cache.failed ==> !d.cache.rendered)
    && (!d.pc.Compute? ==> d.seen == d.brightness || d.queue.Some? || d.savers > 0)
    && (d.pc.Output? ==> Drawn(d.mode, d.seen, d.pc.picture))
    && (d.pc.Take? && !d.cache.failed ==> d.cache.rendered && Drawn(d.mode, d.seen, d.strip))
  }

  lemma DisplayStep(d: Display, a: Action)
    requires DisplayInv(d) && Enabled(d, a)
    ensures DisplayInv(Apply(d, a))
  {
    hide LedFrame;
    if a.WorkerDraws? {
      FrameDefined(d.mode, a.elapsed, d.brightness);
    }
  }

  lemma FrameDefined(mode: nat, elapsed: nat, brightness: nat)
    ensures LedFrame(mode, elapsed, brightness).Some? <==> mode < MODE_COUNT && brightness <= 100
  {
  }

  /** A static mode's picture does not depend on the time. */
  lemma StaticPicture(mode: nat, elapsed: nat, brightness: nat)
    requires !Animated(mode)
    ensures LedFrame(mode, elapsed, brightness) == LedFrame(mode, 0, brightness)
  {
  }

  lemma {:induction false} DisplayInvAt(d: Display, actions: seq<Action>, k: nat)
    requires Initial(d) && k <= |actions|
    ensures DisplayInv(At(d, actions, k))
  {
    if k > 0 {
      DisplayInvAt(d, actions, k - 1);
      var before := At(d, actions, k - 1);
      if Enabled(before, actions[k - 1]) {
        DisplayStep(before, actions[k - 1]);
      }
    }
  }

  /** Under every interleaving, a worker that waits without a timeout on an empty queue,
      with no save between its write and its refresh, shows the last mode set at the
      current brightness. */
  lemma WaitingWorkerShowsLatest(d: Display, actions: seq<Action>, k: nat)
    requires Initial(d) && k <= |actions|
    ensures var now := At(d, actions, k);
            now.pc.Take? && WaitsForever(now.mode, now.cache.failed) && now.queue.None? && now.savers == 0 ==>
              LedFrame(now.lastSet, 0, now.brightness) == Some(now.strip)
  {
    DisplayInvAt(d, actions, k);
    var now := At(d, actions, k);
    if now.pc.Take? && WaitsForever(now.mode, now.cache.failed) {
      var elapsed: nat :| LedFrame(now.mode, elapsed, now.seen) == Some(now.strip);
      StaticPicture(now.mode, elapsed, now.seen);
    }
  }

  /** A redraw is skipped only when the strip already shows the very picture. */
  lemma SkippedRedrawIsSound(d: Display, actions: seq<Action>, k: nat, elapsed: nat)
    requires Initial(d) && k <= |actions| && At(d, actions, k).pc.Compute?
    ensures var now := At(d, actions, k);
            var picture := LedFrame(now.mode, elapsed, now.brightness);
            picture.Some? && (Skips(now.cache, picture) ==> now.strip == picture.value)
  {
    DisplayInvAt(d, actions, k);
    FrameDefined(At(d, actions, k).mode, elapsed, At(d, actions, k).brightness);
  }

  /** A refresh never displaces a queued mode, and always leaves the worker a wake-up. */
  lemma RefreshKeepsQueuedMode(queue: Option<nat>)
    ensures Refreshed(queue).Some? && (queue.Some? ==> Refreshed(queue) == queue)
  {
  }

  /** A pending change is never forgotten: if the worker has a newer mode or brightness to
      show, the queue holds a wake-up or a save is about to send one. */
  lemma ChangesAreSignalled(d: Display, actions: seq<Action>, k: nat)
    requires Initial(d) && k <= |actions|
    ensures var now := At(d, actions, k);
            && (now.lastSet != now.mode ==> now.queue == Some(now.lastSet))
            && (now.pc.Take? && now.seen != now.brightness ==> now.queue.Some? || now.savers > 0)
  {
    DisplayInvAt(d, actions, k);
  }

  /** The steps of one uninterrupted turn of the worker: draw, write unless the picture is
      there already, and wait for the queue. */
  function RoundSteps(d: Display, elapsed: nat, ok: bool, garbage: Picture): seq<Action> {
    [WorkerDraws(elapsed)]
    + (if Skips(d.cache, LedFrame(d.mode, elapsed, d.brightness)) then [] else [WorkerWrites(ok, garbage)])
    + [if d.queue.Some? then WorkerReceives else WorkerTimesOut]
  }

  /** What `Worker.Round` does in place is what those steps do to the display. */
  lemma RoundIsRun(d: Display, elapsed: nat, ok: bool, garbage: Picture)
    requires d.pc.Compute? && d.mode < MODE_COUNT && d.brightness <= 100
    requires var picture := LedFrame(d.mode, elapsed, d.brightness);
             var drawn := if Skips(d.cache, picture) then d.cache else Shown(d.cache, picture.value, ok);
             d.queue.Some? || !WaitsForever(d.mode, drawn.failed)
    ensures var steps := RoundSteps(d, elapsed, ok, garbage);
            var picture := LedFrame(d.mode, elapsed, d.brightness);
            var drawn := if Skips(d.cache, picture) then d.cache else Shown(d.cache, picture.value, ok);
            var changed := d.queue.Some? && d.queue.value < MODE_COUNT && d.queue.value != d.mode;
            At(d, steps, |steps|) ==
            d.(queue := None, seen := d.brightness,
               mode := if changed then d.queue.value else d.mode,
               cache := if changed then drawn.(rendered := false) else drawn,
               strip := if Skips(d.cache, picture) then d.strip else if ok then picture.value else garbage)
  {
    hide LedFrame;
    FrameDefined(d.mode, elapsed, d.brightness);
    var steps := RoundSteps(d, elapsed, ok, garbage);
    var first := Apply(d, steps[0]);
    assert At(d, steps, 0) == d && At(d, steps, 1) == first;
    if !Skips(d.cache, LedFrame(d.mode, elapsed, d.brightness)) {
      assert At(d, steps, 2) == Apply(first, steps[1]);
    }
  }

  /** A mode that is set is shown: after the turn that takes it from the queue, the next
      turn whose output works puts its picture on the strip. */
  lemma NewModeIsShown(d: Display, m: nat, elapsed: nat, garbage: Picture)
    requires DisplayInv(d) && d.pc.Take? && m < MODE_COUNT && m != d.mode
    ensures var steps := [SetMode(m), WorkerReceives, WorkerDraws(elapsed), WorkerWrites(true, garbage)];
            var after := At(d, steps, 4);
            after.pc.Take? && after.mode == m && LedFrame(m, elapsed, d.brightness) == Some(after.strip)
  {
    hide LedFrame;
    FrameDefined(m, elapsed, d.brightness);
    var steps := [SetMode(m), WorkerReceives, WorkerDraws(elapsed), WorkerWrites(true, garbage)];
    var first := Apply(d, steps[0]);
    assert At(d, steps, 0) == d && At(d, steps, 1) == first;
    var second := Apply(first, steps[1]);
    assert At(d, steps, 2) == second;
    var third := Apply(second, steps[2]);
    assert At(d, steps, 3) == third;
  }

  /// The objects

  /** The FreeRTOS queue of length one. */
  class ModeQueue {
    var item: Option<nat>

    constructor ()
      ensures item.None?
    {
      item := None;
    }

    method SetMode(m: int) returns (ok: bool)
      modifies this
      ensures item == ModeSet(old(item), m) && (ok <==> 0 <= m < MODE_COUNT)
    {
      if m < 0 || m >= MODE_COUNT {
        return false;
      }
      item := Some(m);
      return true;
    }

    method Refresh()
      modifies this
      ensures item == Refreshed(old(item))
    {
      if item.None? {
        item := Some(REFRESH);
      }
    }
  }

  /** The locals of `led_task` and the strip it owns. */
  class Worker {
    const queue: ModeQueue
    var mode: nat
    var started: int
    var previous: Picture
    var rendered: bool
    var failed: bool
    var strip: Picture

    ghost function View(): Cache
      reads this
    {
      Cache(previous, rendered, failed)
    }

    constructor (queue: ModeQueue, now: int, strip: Picture)
      ensures this.queue == queue && mode == CONNECTING && started == now && this.strip == strip
      ensures !rendered && !failed
    {
      this.queue, mode, started, this.strip := queue, CONNECTING, now, strip;
      previous, rendered, failed := (BLACK, BLACK), false, false;
    }

    /** Draw and write in one round; `ok` and `garbage` are the strip's. */
    method RenderIfChanged(elapsed: nat, brightness: nat, ok: bool, garbage: Picture)
      modifies this`previous, this`rendered, this`failed, this`strip
      ensures var picture := LedFrame(mode, elapsed, brightness);
              if Skips(old(View()), picture) then View() == old(View()) && strip == old(strip)
              else View() == Shown(old(View()), picture.value, ok)
                   && strip == (if ok then picture.value else garbage)
    {
      var picture := LedFrame(mode, elapsed, brightness);
      if picture.None? {
        return;
      }
      if rendered && previous == picture.value {
        return;
      }
      if ok {
        strip, previous, rendered, failed := picture.value, picture.value, true, false;
      } else {
        strip, rendered, failed := garbage, false, true;
      }
    }

    method TakeModeChange(now: int) returns (changed: bool)
      modifies this`mode, this`started, queue
      ensures queue.item.None?
      ensures changed <==> old(queue.item).Some? && ChangesMode(old(mode), old(queue.item).value)
      ensures mode == (if changed then old(queue.item).value else old(mode))
      ensures started == (if changed then now else old(started))
    {
      var received := queue.item;
      queue.item := None;
      if received.None? || received.value >= MODE_COUNT || received.value == mode {
        return false;
      }
      mode, started := received.value, now;
      return true;
    }

    /** One turn of the endless loop, from drawing to the next wake-up. */
    method Round(now: int, brightness: nat, ok: bool, garbage: Picture, woken: int)
      requires now >= started
      modifies this`mode, this`started, this`previous, this`rendered, this`failed, this`strip, queue
      ensures var picture := LedFrame(old(mode), (now - old(started)) / 1000, brightness);
              var drawn := if Skips(old(View()), picture) then old(View()) else Shown(old(View()), picture.value, ok);
              var item := old(queue.item);
              var changed := item.Some? && ChangesMode(old(mode), item.value);
              && queue.item.None?
              && mode == (if changed then item.value else old(mode))
              && started == (if changed then woken else old(started))
              && View() == (if changed then drawn.(rendered := false) else drawn)
              && strip == (if Skips(old(View()), picture) then old(strip) else if ok then picture.value else garbage)
    {
      RenderIfChanged((now - started) / 1000, brightness, ok, garbage);
      var changed := TakeModeChange(woken);
      if changed {
        rendered := false;
      }
    }
  }
}
