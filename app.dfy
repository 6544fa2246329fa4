/**
 * The settings record and the brightness side of the application: applying
 * a percentage through the external helper, the wheel adjustment, the
 * schedule tick and the schedule editor.
 */
module App {
  import opened Wrappers
  import opened Brightness
  import opened Schedule

  /** Values read from the settings file; `None` for a missing key. */
  datatype Config = Config(manual: Option<int>, day: Option<int>, night: Option<int>,
                           dayStart: Option<string>, nightStart: Option<string>, enabled: Option<int>)

  /**
   * The set_sdrwhite.exe helper as one call sees it: whether it was found
   * (after any download the call may offer) and whether running it succeeds.
   */
  datatype Helper = Helper(found: bool, succeeds: bool)

  const DEFAULT_MANUAL: int := 35
  const DEFAULT_DAY: int := 40
  const DEFAULT_NIGHT: int := 25

  class Settings {
    var manual: int
    var day: int
    var night: int
    var dayStart: string
    var nightStart: string
    var autoEnabled: bool

    /** What `_load_settings` and `_on_edit_schedule` guarantee about every stored value. */
    ghost predicate Valid()
      reads this
    {
      0 <= manual <= 100 && 0 <= day <= 100 && 0 <= night <= 100
      && ValidHhmm(dayStart) && ValidHhmm(nightStart)
    }

    /** `_load_settings`: defaults for missing keys, percentages clamped, invalid times reset. */
    constructor Load(cfg: Config)
      ensures Valid()
      ensures manual == Clamp(cfg.manual.GetOr(DEFAULT_MANUAL), 0, 100)
      ensures day == Clamp(cfg.day.GetOr(DEFAULT_DAY), 0, 100)
      ensures night == Clamp(cfg.night.GetOr(DEFAULT_NIGHT), 0, 100)
      ensures dayStart == TimeOrDefault(cfg.dayStart.GetOr(DEFAULT_DAY_START), DEFAULT_DAY_START)
      ensures nightStart == TimeOrDefault(cfg.nightStart.GetOr(DEFAULT_NIGHT_START), DEFAULT_NIGHT_START)
      ensures autoEnabled == (cfg.enabled.GetOr(1) == 1)
    {
      manual := Clamp(cfg.manual.GetOr(DEFAULT_MANUAL), 0, 100);
      day := Clamp(cfg.day.GetOr(DEFAULT_DAY), 0, 100);
      night := Clamp(cfg.night.GetOr(DEFAULT_NIGHT), 0, 100);
      var ds := cfg.dayStart.GetOr(DEFAULT_DAY_START);
      var ns := cfg.nightStart.GetOr(DEFAULT_NIGHT_START);
      autoEnabled := cfg.enabled.GetOr(1) == 1;
      LoadedTimesValid(ds, ns);
      dayStart := TimeOrDefault(ds, DEFAULT_DAY_START);
      nightStart := TimeOrDefault(ns, DEFAULT_NIGHT_START);
    }

    /** Store an accepted schedule edit; the manual value and the auto flag stay. */
    method SetSchedule(edit: ScheduleEdit)
      requires Valid()
      requires ValidHhmm(edit.dayStart) && ValidHhmm(edit.nightStart)
      requires 0 <= edit.day <= 100 && 0 <= edit.night <= 100
      modifies this
      ensures Valid()
      ensures dayStart == edit.dayStart && nightStart == edit.nightStart
      ensures day == edit.day && night == edit.night
      ensures manual == old(manual) && autoEnabled == old(autoEnabled)
    {
      dayStart := edit.dayStart;
      nightStart := edit.nightStart;
      day := edit.day;
      night := edit.night;
    }
  }

  class TrayApp {
    var settings: Settings
    /** `last_applied_percent`. */
    var lastAppliedPercent: Option<int>

    ghost predicate Valid()
      reads this, settings
    {
      settings.Valid() && (lastAppliedPercent.Some? ==> 0 <= lastAppliedPercent.value <= 100)
    }

    constructor (cfg: Config)
      ensures Valid() && fresh(settings) && lastAppliedPercent == None
      ensures settings.manual == Clamp(cfg.manual.GetOr(DEFAULT_MANUAL), 0, 100)
      ensures settings.day == Clamp(cfg.day.GetOr(DEFAULT_DAY), 0, 100)
      ensures settings.night == Clamp(cfg.night.GetOr(DEFAULT_NIGHT), 0, 100)
      ensures settings.dayStart == TimeOrDefault(cfg.dayStart.GetOr(DEFAULT_DAY_START), DEFAULT_DAY_START)
      ensures settings.nightStart == TimeOrDefault(cfg.nightStart.GetOr(DEFAULT_NIGHT_START), DEFAULT_NIGHT_START)
      ensures settings.autoEnabled == (cfg.enabled.GetOr(1) == 1)
    {
      settings := new Settings.Load(cfg);
      lastAppliedPercent := None;
    }

    /**
     * `_apply_percent`: run the helper with 80 + 4 * clamp(percent) nits and
     * remember the clamped percentage when it succeeds. `command` is the nits
     * argument passed, `None` when there was no helper to run.
     */
    method ApplyPercent(percent: int, helper: Helper) returns (ok: bool, command: Option<int>)
      modifies this`lastAppliedPercent
      ensures ok == (helper.found && helper.succeeds)
      ensures command == if helper.found then Some(Nits(percent)) else None
      ensures lastAppliedPercent == if ok then Some(Clamp(percent, 0, 100)) else old(lastAppliedPercent)
      ensures command.Some? ==> 80 <= command.value <= 480
    {
      if !helper.found {
        return false, None;
      }
      var p := Clamp(percent, 0, 100);
      var nits := 80 + p * 4;
      command := Some(nits);
      if helper.succeeds {
        lastAppliedPercent := Some(p);
        ok := true;
      } else {
        ok := false;
      }
    }

    /**
     * `_on_tray_wheel`: move the manual percentage by 2 per notch, clamped;
     * an actual change also switches the schedule off and applies the new value.
     * (Notches is never 0, so the source's zero-notch early return cannot fire.)
     */
    method OnTrayWheel(delta: int, helper: Helper)
      requires Valid()
      modifies settings, this`lastAppliedPercent
      ensures Valid()
      ensures var target := WheelTarget(old(settings.manual), delta);
        if target == old(settings.manual) then
          unchanged(settings) && lastAppliedPercent == old(lastAppliedPercent)
        else
          settings.manual == target && !settings.autoEnabled
          && settings.day == old(settings.day) && settings.night == old(settings.night)
          && settings.dayStart == old(settings.dayStart) && settings.nightStart == old(settings.nightStart)
          && lastAppliedPercent == (if helper.found && helper.succeeds then Some(target) else old(lastAppliedPercent))
    {
      var current := settings.manual;
      var notches := Notches(delta);
      var step := 2 * notches;
      var target := Clamp(current + step, 0, 100);
      if target == current {
        return;
      }
      settings.manual := target;
      if settings.autoEnabled {
        settings.autoEnabled := false;
      }
      var ok, command := ApplyPercent(target, helper);
    }

    /**
     * `_apply_schedule_now`: with the schedule on, pick day or night for the
     * current minute and apply it unless it is already the last applied value.
     */
    method ApplyScheduleNow(nowMinutes: int, helper: Helper)
      requires Valid()
      modifies this`lastAppliedPercent
      ensures Valid()
      ensures !settings.autoEnabled ==> lastAppliedPercent == old(lastAppliedPercent)
      ensures settings.autoEnabled ==>
        var target := ScheduleTarget(nowMinutes, settings.dayStart, settings.nightStart, settings.day, settings.night);
        lastAppliedPercent ==
          if old(lastAppliedPercent) != Some(target) && helper.found && helper.succeeds then Some(target)
          else old(lastAppliedPercent)
    {
      if !settings.autoEnabled {
        return;
      }
      var dayM := HhmmToMinutes(settings.dayStart);
      var nightM := HhmmToMinutes(settings.nightStart);
      var useDay := InClockRange(nowMinutes, dayM, nightM);
      var target := if useDay then settings.day else settings.night;
      if lastAppliedPercent != Some(target) {
        var ok, command := ApplyPercent(target, helper);
      }
    }

    /** `_initial_apply`: the schedule when it is on, the manual value otherwise. */
    method InitialApply(nowMinutes: int, helper: Helper)
      requires Valid()
      modifies this`lastAppliedPercent
      ensures Valid()
      ensures settings.autoEnabled ==>
        var target := ScheduleTarget(nowMinutes, settings.dayStart, settings.nightStart, settings.day, settings.night);
        lastAppliedPercent ==
          if old(lastAppliedPercent) != Some(target) && helper.found && helper.succeeds then Some(target)
          else old(lastAppliedPercent)
      ensures !settings.autoEnabled ==>
        lastAppliedPercent == if helper.found && helper.succeeds then Some(settings.manual) else old(lastAppliedPercent)
    {
      if settings.autoEnabled {
        ApplyScheduleNow(nowMinutes, helper);
      } else {
        var ok, command := ApplyPercent(settings.manual, helper);
      }
    }

    /**
     * The accepting end of `_on_edit_schedule`: store the four values, then
     * re-apply the schedule.
     */
    method AcceptScheduleEdit(edit: ScheduleEdit, nowMinutes: int, helper: Helper)
      requires Valid()
      requires ValidHhmm(edit.dayStart) && ValidHhmm(edit.nightStart)
      requires 0 <= edit.day <= 100 && 0 <= edit.night <= 100
      modifies settings, this`lastAppliedPercent
      ensures Valid()
      ensures settings.dayStart == edit.dayStart && settings.nightStart == edit.nightStart
      ensures settings.day == edit.day && settings.night == edit.night
      ensures settings.manual == old(settings.manual) && settings.autoEnabled == old(settings.autoEnabled)
      ensures var target := ScheduleTarget(nowMinutes, edit.dayStart, edit.nightStart, edit.day, edit.night);
        lastAppliedPercent ==
          if settings.autoEnabled && old(lastAppliedPercent) != Some(target) && helper.found && helper.succeeds
          then Some(target)
          else old(lastAppliedPercent)
    {
      settings.SetSchedule(edit);
      ApplyScheduleNow(nowMinutes, helper);
    }

    /**
     * `_on_edit_schedule` after the dialog: a rejected or cancelled text
     * changes nothing; an accepted one replaces the four schedule values and
     * re-applies the schedule.
     */
    method EditSchedule(text: Option<string>, nowMinutes: int, helper: Helper)
      returns (r: Result<ScheduleEdit, EditError>)
      requires Valid()
      modifies settings, this`lastAppliedPercent
      ensures Valid()
      ensures r == ParseScheduleEdit(text.GetOr([]))
      ensures r.Err? ==> unchanged(settings) && lastAppliedPercent == old(lastAppliedPercent)
      ensures r.Ok? ==>
        settings.dayStart == r.value.dayStart && settings.nightStart == r.value.nightStart
        && settings.day == r.value.day && settings.night == r.value.night
        && settings.manual == old(settings.manual) && settings.autoEnabled == old(settings.autoEnabled)
    ensures r.Ok? ==>
      var target := ScheduleTarget(nowMinutes, r.value.dayStart, r.value.nightStart, r.value.day, r.value.night);
      lastAppliedPercent ==
        if settings.autoEnabled && old(lastAppliedPercent) != Some(target) && helper.found && helper.succeeds
        then Some(target)
        else old(lastAppliedPercent)
    {
      r := ParseScheduleEdit(text.GetOr([]));
      if r.Ok? {
        AcceptScheduleEdit(r.value, nowMinutes, helper);
      }
    }
  }
}
