/**
 * The three event-source adapters (tray notify callback, low-level mouse
 * hook, raw input) and the scheduled flush, as one step each. Every adapter
 * only enqueues; the flush, run on the UI thread, is the only path to the
 * brightness change. Scheduling the flush (`root.after(0, ...)`) is reported
 * to the caller as `scheduleFlush`.
 */
module Adapters {
  import opened Wrappers
  import opened Words
  import opened Decoders
  import opened Hover
  import opened Geometry
  import opened Coalescer
  import opened App
  import opened Brightness

  /** What the notify handler returns: 0, or whatever the original handler returns. */
  datatype NotifyReply = ReturnZero | ChainToOriginal

  /** `_mark_tray_hover`'s position: the cursor if it can be read, else the words packed in wParam. */
  function HoverPoint(cursor: Option<Point>, rawW: int): (p: Point)
    ensures cursor.Some? ==> p == cursor.value
    ensures cursor.None? ==> -0x8000 <= p.x < 0x8000 && LowWord(p.x) == LowWord(rawW) && p.y == Signed16(HighWord(rawW))
  {
    if cursor.Some? then cursor.value else Point(Signed16(LowWord(rawW)), Signed16(HighWord(rawW)))
  }

  /** The decision `_on_tray_notify` takes for one callback. */
  datatype NotifyAction = NotifyAction(markHover: bool, delta: int, reply: NotifyReply)

  /**
   * Mouse-range codes mark hover; the wheel code carries the decoded delta
   * (0 when none is found) and is answered with 0; every other code goes to
   * the original handler when there is one.
   */
  function ClassifyNotify(wparam: int, lparam: int, hasOriginal: bool): (a: NotifyAction)
    ensures var rawL := U32(lparam); var code := NotifyEventCode(rawL, LowWord(rawL));
      (a.markHover <==> IsMouseMessage(code))
      && (a.delta != 0 ==> code == WM_MOUSEWHEEL && IsNotchMultiple(a.delta))
      && (code == WM_MOUSEWHEEL ==> a.reply == ReturnZero && a.delta == NotifyWheelDelta(U32(wparam), rawL))
      && (code != WM_MOUSEWHEEL ==> a.delta == 0 && (a.reply == ChainToOriginal <==> hasOriginal))
  {
    var rawW, rawL := U32(wparam), U32(lparam);
    var code := NotifyEventCode(rawL, LowWord(rawL));
    var hover := IsMouseMessage(code);
    if code == WM_MOUSEWHEEL then NotifyAction(hover, NotifyWheelDelta(rawW, rawL), ReturnZero)
    else NotifyAction(hover, 0, if hasOriginal then ChainToOriginal else ReturnZero)
  }

  /** A wheel callback never reaches the original handler, and only a nonzero delta is enqueued. */
  lemma WheelNotifyNeverChains(wparam: int, lparam: int, hasOriginal: bool)
    requires LowWord(U32(lparam)) == WM_MOUSEWHEEL
    ensures var a := ClassifyNotify(wparam, lparam, hasOriginal);
      a.markHover && a.reply == ReturnZero
      && (a.delta == 0 || (IsNotchMultiple(a.delta) && -32760 <= a.delta <= 32760))
  {
    EventCodeIsLowWord(U32(lparam));
    NotifyWheelDeltaRange(U32(wparam), U32(lparam));
  }

  /** `_on_tray_notify`. */
  method OnTrayNotify(hover: HoverTracker, wheel: WheelCoalescer, wparam: int, lparam: int,
                      cursor: Option<Point>, hasOriginal: bool, now: int)
    returns (reply: NotifyReply, scheduleFlush: bool)
    requires wheel.Valid()
    modifies hover, wheel
    ensures wheel.Valid()
    ensures var a := ClassifyNotify(wparam, lparam, hasOriginal);
      var p := HoverPoint(cursor, U32(wparam));
      reply == a.reply
      && (a.markHover ==> hover.hoverUntil == now + GRACE_MS && hover.anchor == AnchorAfter(old(hover.anchor), p.x, p.y))
      && (!a.markHover ==> unchanged(hover))
      && (wheel.State(), scheduleFlush) == EnqueueStep(old(wheel.State()), a.delta)
  {
    var rawW, rawL := U32(wparam), U32(lparam);
    var eventFull := rawL;
    var eventLow := LowWord(rawL);
    var eventCode := NotifyEventCode(eventFull, eventLow);
    if IsMouseMessage(eventCode) {
      var p := HoverPoint(cursor, rawW);
      hover.Refresh(p.x, p.y, now);
    }
    scheduleFlush := false;
    if eventCode == WM_MOUSEWHEEL {
      var delta := NotifyWheelDelta(rawW, rawL);
      if delta != 0 {
        scheduleFlush := wheel.Enqueue(delta);
      }
      return ReturnZero, scheduleFlush;
    }
    reply := if hasOriginal then ChainToOriginal else ReturnZero;
  }

  /**
   * The low-level hook callback: a nonzero wheel delta at a point on the
   * icon (by rectangle, or failing that by recent hover) refreshes hover at
   * that point and is enqueued; a miss changes no hover or queue state.
   * The callback always passes the event on with CallNextHookEx.
   */
  method HookProc(geom: TrayGeometry, hover: HoverTracker, wheel: WheelCoalescer, env: ShellEnv,
                  nCode: int, wParam: int, rec: HookRecord, now: int)
    returns (accepted: bool, scheduleFlush: bool)
    requires wheel.Valid()
    modifies geom`preferred, geom`cache, hover, wheel
    ensures wheel.Valid()
    ensures var delta := HookWheelDelta(nCode, wParam, rec);
      var l := CachedLookup(old(geom.cache), old(geom.preferred), geom.candidates, env, now);
      (delta == 0 ==> !accepted && !scheduleFlush && unchanged(geom, hover, wheel))
      && (delta != 0 ==>
            geom.cache == l.cache && geom.preferred == l.preferred
            && accepted == (HitsIcon(l, rec.x, rec.y) || old(hover.IsRecent(rec.x, rec.y, now))))
      && (accepted ==>
            hover.hoverUntil == now + GRACE_MS && hover.anchor == AnchorAfter(old(hover.anchor), rec.x, rec.y)
            && (wheel.State(), scheduleFlush) == EnqueueStep(old(wheel.State()), delta))
      && (!accepted ==> unchanged(hover, wheel) && !scheduleFlush)
  {
    accepted, scheduleFlush := false, false;
    var delta := HookWheelDelta(nCode, wParam, rec);
    if delta == 0 {
      return;
    }
    var hitByRect := geom.IsPointOnOurTrayIcon(env, rec.x, rec.y, now);
    var hitByHover := false;
    if !hitByRect {
      hitByHover := hover.IsRecent(rec.x, rec.y, now);
    }
    accepted := hitByRect || hitByHover;
    if accepted {
      hover.Refresh(rec.x, rec.y, now);
      scheduleFlush := wheel.Enqueue(delta);
    }
  }

  /**
   * The raw-input callback: with registration done and the cursor readable,
   * the icon is hit-tested first; only on a hit is the record decoded, and a
   * nonzero delta refreshes hover at the cursor and is enqueued.
   */
  method OnTrayRawInput(registered: bool, geom: TrayGeometry, hover: HoverTracker, wheel: WheelCoalescer,
                        env: ShellEnv, cursor: Option<Point>, record: Option<RawInputRecord>, now: int)
    returns (scheduleFlush: bool)
    requires wheel.Valid()
    modifies geom`preferred, geom`cache, hover, wheel
    ensures wheel.Valid()
    ensures !registered || cursor.None? ==> unchanged(geom, hover, wheel) && !scheduleFlush
    ensures registered && cursor.Some? ==>
      var pt := cursor.value;
      var l := CachedLookup(old(geom.cache), old(geom.preferred), geom.candidates, env, now);
      var hit := HitsIcon(l, pt.x, pt.y) || old(hover.IsRecent(pt.x, pt.y, now));
      var delta := RawInputWheelDelta(record);
      geom.cache == l.cache && geom.preferred == l.preferred
      && (hit && delta != 0 ==>
            hover.hoverUntil == now + GRACE_MS && hover.anchor == AnchorAfter(old(hover.anchor), pt.x, pt.y)
            && (wheel.State(), scheduleFlush) == EnqueueStep(old(wheel.State()), delta))
      && (!(hit && delta != 0) ==> unchanged(hover, wheel) && !scheduleFlush)
  {
    scheduleFlush := false;
    if !registered || cursor.None? {
      return;
    }
    var pt := cursor.value;
    var hit := geom.IsPointOnOurTrayIcon(env, pt.x, pt.y, now);
    if !hit {
      hit := hover.IsRecent(pt.x, pt.y, now);
    }
    if !hit {
      return;
    }
    var delta := RawInputWheelDelta(record);
    if delta == 0 {
      return;
    }
    hover.Refresh(pt.x, pt.y, now);
    scheduleFlush := wheel.Enqueue(delta);
  }

  /**
   * `_flush_wheel_delta`: drain the accumulator, then turn a nonzero sum
   * into one wheel adjustment.
   */
  method FlushWheelDelta(wheel: WheelCoalescer, app: TrayApp, helper: Helper) returns (delta: int)
    requires wheel.Valid() && app.Valid()
    modifies wheel, app.settings, app`lastAppliedPercent
    ensures wheel.Valid() && app.Valid()
    ensures delta == Sum(old(wheel.sinceFlush))
    ensures (wheel.State(), delta) == FlushStep(old(wheel.State()))
    ensures delta == 0 ==> unchanged(app.settings) && app.lastAppliedPercent == old(app.lastAppliedPercent)
    ensures delta != 0 ==>
      var target := WheelTarget(old(app.settings.manual), delta);
      if target == old(app.settings.manual) then
        unchanged(app.settings) && app.lastAppliedPercent == old(app.lastAppliedPercent)
      else
        app.settings.manual == target && !app.settings.autoEnabled
        && app.settings.day == old(app.settings.day) && app.settings.night == old(app.settings.night)
        && app.settings.dayStart == old(app.settings.dayStart) && app.settings.nightStart == old(app.settings.nightStart)
        && app.lastAppliedPercent == (if helper.found && helper.succeeds then Some(target) else old(app.lastAppliedPercent))
  {
    delta := wheel.Flush();
    if delta != 0 {
      app.OnTrayWheel(delta, helper);
    }
  }

  /** `_on_tray_taskbarcreated`: drop the cached rectangle (re-arming the handlers is left to timers). */
  method OnTaskbarCreated(geom: TrayGeometry, hasOriginal: bool) returns (callOriginal: bool)
    modifies geom`cache
    ensures geom.cache == None && callOriginal == hasOriginal
  {
    geom.InvalidateCache();
    callOriginal := hasOriginal;
  }
}
