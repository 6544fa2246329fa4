# HDR SDR brightness tray — a Dafny model of its wheel and schedule logic

`hdr_sdr_tray.py` is a Windows tray application. It sets the SDR white level
(the brightness of SDR content on an HDR display) by running the external
helper `set_sdrwhite.exe`. It does this in three cases:
- when the mouse wheel is turned over its tray icon;
- when the user drags a slider;
- on a day/night clock schedule.

This project models the integer and state logic behind the Win32 and Tk
calls:

- the three wheel-payload decoders (`Decoders`, on top of the word arithmetic in `Words`);
- the tray-notify dispatch decision, the low-level hook callback and the raw-input callback (`Adapters`);
- the hover tracker, with its grace deadline and anchor (`Hover`);
- the UID preference, first-occurrence de-duplication, 350 ms rectangle cache and inclusive hit-test (`Geometry`, `Distinct`);
- the delta coalescer shared by all three event sources (`Coalescer`);
- the wheel-to-percent step, the clamp and the percent-to-nits mapping (`Brightness`);
- `HH:MM` validation, the wrap-around clock range and the day/night target (`Schedule`, over string helpers in `Text`);
- settings loading, applying a percentage, the schedule tick and the schedule editor (`App`).

Time is an integer supplied by the caller. Hover and cache time is in
milliseconds: the 1.8 s grace is 1800 and the 0.35 s TTL is 350. Schedule
time is in minutes of the day.

Operating-system calls become parameters or values:
- `ShellEnv.getRect` stands for `Shell_NotifyIconGetRect`, as a function from UID to an optional rectangle;
- `ShellEnv.hasWindow` and `ShellEnv.hasGetRect` stand for the icon window and the API being available;
- `Option<Point>` stands for `GetCursorPos`;
- `Option<RawInputRecord>` stands for the outcome of `GetRawInputData`;
- `Helper(found, succeeds)` stands for locating and running `set_sdrwhite.exe`.

Objects whose fields the program updates in place are classes (`HoverTracker`, `TrayGeometry`,
`WheelCoalescer`, `Settings`, `TrayApp`). Their methods are proved against
value-level specification functions: `AnchorAfter`, `CachedLookup`/`Resolve`,
`EnqueueStep`/`FlushStep`, `WheelTarget` and `ScheduleTarget`. The properties
of those functions are proved as lemmas.

Two properties follow from the other proofs:
- `_extract_notify_event_code` is given the raw lParam as its "full" value, so it always returns the low word (`EventCodeIsLowWord`). A value in 0x200..0x20E already fits in 16 bits.
- The `notches == 0` early return in `_on_tray_wheel` can never fire, because the notch computation is never 0 (`Notches`). The model has no such branch.

## Model

| member | source | states |
|---|---|---|
| Words.U32 | hdr_sdr_tray.py:472-473 | `& 0xFFFFFFFF` gives a value in [0, 2^32) congruent to the input, and leaves 32-bit values unchanged |
| Words.LowWord | hdr_sdr_tray.py:475 | `& 0xFFFF` gives a value in [0, 2^16) congruent to the input modulo 2^16 |
| Words.HighWord | hdr_sdr_tray.py:476 | `(v >> 16) & 0xFFFF` lies in [0, 2^16) |
| Words.Signed16 | hdr_sdr_tray.py:780-782 | `_signed_word` lies in [-32768, 32767] and agrees with its input modulo 2^16 |
| Words.Signed16OfLowWord | hdr_sdr_tray.py:780-782 | a short packed into 16 bits and read back by `_signed_word` is unchanged |
| Words.WordsReassemble | hdr_sdr_tray.py:472-476 | the high and low words of a 32-bit value reassemble it |
| Decoders.NotifyEventCode | hdr_sdr_tray.py:512-517 | returns the full value when it is in WM_MOUSEFIRST..WM_MOUSELAST, else the low word |
| Decoders.EventCodeIsLowWord | hdr_sdr_tray.py:472-475 | with the raw 32-bit lParam as the full value, the chosen code is always its low word |
| Decoders.NotifyWheelDelta | hdr_sdr_tray.py:519-530 | signed high word of wParam if it is a nonzero multiple of 120, else the same test on lParam's high word, else 0; zero exactly when both fail |
| Decoders.NotifyWheelDeltaRange | hdr_sdr_tray.py:519-530 | every notify delta is a multiple of 120 in [-32760, 32760] |
| Decoders.NotchMultipleOfShort | hdr_sdr_tray.py:523-529 | a nonzero short that is a multiple of 120 lies in [-32760, 32760] |
| Decoders.HookWheelDelta | hdr_sdr_tray.py:611-613 | only an HC_ACTION WM_MOUSEWHEEL callback yields a delta, the signed high word of mouseData, in [-32768, 32767] |
| Decoders.RawInputWheelDelta | hdr_sdr_tray.py:747-778 | a nonzero delta needs a record that was fetched, is a mouse record and carries RI_MOUSE_WHEEL; the delta is then usButtonData read as a short |
| Hover.AnchorAfter | hdr_sdr_tray.py:541-551 | the placeholder (0,0) leaves the anchor exactly as it was; any other point becomes the anchor |
| Hover.HoverTracker.constructor | hdr_sdr_tray.py:103-104 | the tracker starts with deadline 0 and no anchor |
| Hover.HoverTracker.IsRecent | hdr_sdr_tray.py:553-559 | defines `_is_tray_hover_recent`: not past the deadline and, when an anchor is known, within 72 px of it on both axes; its meaning after a refresh is stated by `Refresh` |
| Hover.HoverTracker.Refresh | hdr_sdr_tray.py:541-551 | deadline := now + 1800 ms; anchor := (x,y) unless (x,y) = (0,0); afterwards a point is recent at t iff t <= now + 1800 and it lies within 72 px of the anchor on both axes (any point when there is no anchor), and for (x,y) ≠ (0,0) the refreshed point itself is recent exactly up to the deadline |
| Distinct.DedupKeepFirst | hdr_sdr_tray.py:148-155 | the seen-set loop computes `Dedup`, the first-occurrence de-duplication |
| Distinct.DedupSameElements | hdr_sdr_tray.py:815-822 | de-duplication keeps exactly the elements of its input |
| Distinct.DedupNoDup | hdr_sdr_tray.py:815-822 | de-duplication leaves no element twice |
| Distinct.DedupHead | hdr_sdr_tray.py:815-822 | the first element survives de-duplication in first place |
| Distinct.DedupKeepsFirstOccurrenceOrder | hdr_sdr_tray.py:815-822 | kept elements are in the order of their first occurrences in the input |
| Distinct.IndexOf | hdr_sdr_tray.py:817-819 | returns the first position of an element that is present |
| Distinct.IndexOfPrefix | hdr_sdr_tray.py:817-819 | appending an element does not move the first occurrence of one already present |
| Geometry.U32All | hdr_sdr_tray.py:816 | every UID is masked to an unsigned 32-bit value, position by position |
| Geometry.UidOrder | hdr_sdr_tray.py:807-822 | the try order (preferred UID first, then the candidates, each as an unsigned 32-bit value) has no duplicates and holds only 32-bit values |
| Geometry.PreferredTriedFirst | hdr_sdr_tray.py:807-822 | a preferred UID is always the first one tried |
| Geometry.UidOrderCoversAll | hdr_sdr_tray.py:807-822 | the try order has no duplicates, contains the preferred UID and every candidate, contains nothing else, and holds only 32-bit values |
| Geometry.FirstHitIndex | hdr_sdr_tray.py:824-832 | the position of the first UID the shell answers for: every earlier one failed |
| Geometry.Resolve | hdr_sdr_tray.py:784-842 | a failed query keeps the preferred UID; a successful one needs the window and the API, and the rectangle comes from the new preferred UID, which is one of the UIDs tried |
| Geometry.ResolveOutcome | hdr_sdr_tray.py:784-842 | a query succeeds iff the window and API exist and some tried UID answers; the first one that answers supplies the rectangle and becomes preferred; a failed query keeps the preference |
| Geometry.PreferredIsSticky | hdr_sdr_tray.py:807-832 | a preferred UID that still answers is used and stays preferred, whatever the candidates |
| Geometry.InitUidCandidates | hdr_sdr_tray.py:141-155 | the candidates are 0 and the icon id as `c_uint`, de-duplicated: they start with 0, have no duplicates and contain exactly those two values |
| Geometry.TrayGeometry.constructor | hdr_sdr_tray.py:141-155 | the object starts with the de-duplicated candidates, no preferred UID and no cache |
| Geometry.TrayGeometry.GetTrayIconRect | hdr_sdr_tray.py:784-842 | the loop returns the rectangle `Resolve` specifies and updates the preferred UID as `Resolve` says |
| Geometry.CachedLookup | hdr_sdr_tray.py:844-853 | a miss changes neither the cache nor the preference; a returned rectangle is the one the cache then holds; the cache only changes to the new rectangle stamped now |
| Geometry.FreshCacheIgnoresShell | hdr_sdr_tray.py:844-848 | a cache entry at most 350 ms old is returned without a query, whatever the shell would answer, and nothing changes |
| Geometry.QueriedRectServedForTtl | hdr_sdr_tray.py:844-853 | a rectangle queried at t is served unchanged for every lookup up to t + 350 ms; after that the shell is asked again |
| Geometry.FailedQueryKeepsCache | hdr_sdr_tray.py:850-853 | a failed query returns nothing and keeps the old cache and preference |
| Geometry.ClearedCacheQueries | hdr_sdr_tray.py:561-563 | after the cache is dropped the next lookup always asks the shell |
| Geometry.TrayGeometry.GetTrayIconRectCached | hdr_sdr_tray.py:844-853 | the returned rectangle and the new cache and preference are those of `CachedLookup` |
| Geometry.TrayGeometry.IsPointOnOurTrayIcon | hdr_sdr_tray.py:855-860 | hit iff the looked-up rectangle exists and contains the point, all four edges inclusive |
| Geometry.TrayGeometry.InvalidateCache | hdr_sdr_tray.py:563 | the taskbar-recreated handler empties the rectangle cache |
| Coalescer.EnqueueStep | hdr_sdr_tray.py:868-894 | a zero delta changes nothing; a nonzero delta is added to pending, counted in enqueued and sets scheduled, and a flush is requested iff none was scheduled |
| Coalescer.FlushStep | hdr_sdr_tray.py:896-901 | a flush yields the pending sum and resets the accumulator: pending 0, flushed = enqueued, not scheduled |
| Coalescer.SumCons | hdr_sdr_tray.py:874 | the running sum of a burst splits at its first delta |
| Coalescer.BurstConservesSum | hdr_sdr_tray.py:868-894 | over any burst, pending gains exactly the burst's sum and enqueued its nonzero count; flushed is kept; at most one flush is requested, exactly when none was scheduled and some delta was nonzero |
| Coalescer.FlushDeliversBurst | hdr_sdr_tray.py:868-903 | from idle, a burst followed by its flush delivers exactly the burst's sum and leaves flushed = enqueued |
| Coalescer.WheelCoalescer.constructor | hdr_sdr_tray.py:115-118 | the accumulator starts idle and valid |
| Coalescer.WheelCoalescer.Enqueue | hdr_sdr_tray.py:868-894 | performs `EnqueueStep`, keeps flushed <= enqueued and pending = the sum of the deltas accepted since the last flush |
| Coalescer.WheelCoalescer.Flush | hdr_sdr_tray.py:896-901 | returns exactly the sum of the deltas since the last flush and performs `FlushStep` |
| Brightness.Clamp | hdr_sdr_tray.py:1507-1509 | `max(low, min(high, v))` lies in [low, high], is v inside it and the nearer bound outside it |
| Brightness.TruncDiv | hdr_sdr_tray.py:939 | `int(a / b)` truncates toward zero: its magnitude is the floor of \|a\|/b and its sign is a's |
| Brightness.Notches | hdr_sdr_tray.py:939-941 | notches are never 0, carry the delta's sign, are the truncated quotient by 120 from one notch up, and ±1 below (-1 for a zero delta) |
| Brightness.WheelTarget | hdr_sdr_tray.py:942-943 | the target percentage lies in 0..100 |
| Brightness.WheelTargetDirection | hdr_sdr_tray.py:937-946 | up never lowers and down never raises; the target equals the old value iff it is pinned at a bound; off the bounds it moves 2 per notch |
| Brightness.CoalescedNotchesAgree | hdr_sdr_tray.py:896-903 | for whole notches in one direction, one coalesced flush lands where two separate flushes would |
| Brightness.NotchesOfExactMultiple | hdr_sdr_tray.py:939 | a delta of k·120 gives k notches |
| Brightness.Nits | hdr_sdr_tray.py:1131-1132 | nits lie in [80, 480], step by 4, and (nits - 80) / 4 is the percentage clamped to 0..100 for every input |
| Brightness.NitsStrictlyIncreasing | hdr_sdr_tray.py:1131-1132 | a higher in-range percentage gives more nits |
| Text.DigitChar | hdr_sdr_tray.py:1454 | a digit value prints as the digit character with that value |
| Text.NatToString | hdr_sdr_tray.py:1454 | `str(n)` is made of digits whose value is n, with no leading zero unless it is the single digit 0 |
| Text.IndexOfChar | hdr_sdr_tray.py:1515 | the first position of a separator, or the length when it is absent |
| Text.IndexOfCharFirst | hdr_sdr_tray.py:1515 | a position holding the separator, with none before it, is the one found |
| Text.SplitOn | hdr_sdr_tray.py:1464 | `str.split` always yields at least one part |
| Text.SplitJoin | hdr_sdr_tray.py:1464 | splitting joined separator-free fields gives back the fields |
| Text.TrimStart | hdr_sdr_tray.py:1464 | drops a prefix made only of whitespace, leaving no leading whitespace |
| Text.TrimEnd | hdr_sdr_tray.py:1464 | drops a suffix made only of whitespace, leaving no trailing whitespace |
| Text.Strip | hdr_sdr_tray.py:1464 | `str.strip` returns a slice of the text with only whitespace outside it and no whitespace at either of its ends |
| Text.StripNoSpace | hdr_sdr_tray.py:1464 | stripping text without whitespace leaves it unchanged |
| Text.ParseInt | hdr_sdr_tray.py:1475-1476 | digits give their decimal value, `+` digits the same, `-` digits its negation; every other text is rejected |
| Text.ParseIntNatToString | hdr_sdr_tray.py:1475-1476 | `int(str(n)) == n` |
| Text.ParseIntSigned | hdr_sdr_tray.py:1475-1476 | `int("-" + str(n)) == -n` and `int("+" + str(n)) == n` |
| Schedule.ValidHhmm | hdr_sdr_tray.py:1511-1520 | defines `_valid_hhmm` (length 5, ':' at index 2, digit halves of the first-colon split in 0..23 and 0..59); `ValidHhmmIffShape` states what it accepts |
| Schedule.ValidHhmmIffShape | hdr_sdr_tray.py:1511-1520 | `_valid_hhmm` accepts exactly two digits, ':' and two digits with hours 0..23 and minutes 0..59 |
| Schedule.TwoDigits | hdr_sdr_tray.py:1517-1518 | the value of a two-digit string is 10·first + second |
| Schedule.HhmmToMinutes | hdr_sdr_tray.py:1522-1525 | a valid time converts to 60·HH + MM, a minute of the day in [0, 1439] |
| Schedule.DefaultTimes | hdr_sdr_tray.py:26-34 | the defaults 08:00 and 20:00 are valid and are minutes 480 and 1200 |
| Schedule.LoadedTimesValid | hdr_sdr_tray.py:977-986 | whatever the file holds, the loaded day and night starts are valid, because an invalid one is replaced by a valid default |
| Schedule.TimeOrDefault | hdr_sdr_tray.py:983-986 | a configured time is kept exactly when it is valid, otherwise the (valid) default replaces it, so the result is always valid |
| Schedule.InClockRange | hdr_sdr_tray.py:1527-1533 | defines `_in_clock_range` as the half-open range [start, end), all of the day when start = end, wrapping past midnight when start > end; `InClockRangeIsForwardDistance` and `DayAndNightPartition` state its meaning |
| Schedule.InClockRangeIsForwardDistance | hdr_sdr_tray.py:1527-1533 | for distinct times of day, `_in_clock_range` is true iff cur is fewer minutes past start than end is, counting forward around midnight |
| Schedule.DayAndNightPartition | hdr_sdr_tray.py:1527-1533 | with distinct starts, every minute is in exactly one of [day, night) and [night, day) |
| Schedule.ScheduleTarget | hdr_sdr_tray.py:1198-1207 | the target is the day or the night value, and the day value when both starts are equal |
| Schedule.ScheduleTargetByDistance | hdr_sdr_tray.py:1198-1207 | day is chosen exactly when fewer minutes have passed since day start than separate night start from it |
| Schedule.StripAll | hdr_sdr_tray.py:1464 | each field is stripped, position by position |
| Schedule.ParseFields | hdr_sdr_tray.py:1465-1479 | fields are accepted iff there are four, the first two are valid times and the last two integers; then the times are the fields themselves and the percentages the integers clamped to 0..100; a count other than four is exactly the count error, a bad time exactly the time error, and a bad integer after valid times exactly the value error; cancelling never comes from here |
| Schedule.ParseScheduleEdit | hdr_sdr_tray.py:1461-1479 | empty text (or a cancelled dialog) and only that cancels; accepted values are two valid times and two percentages in 0..100 |
| Schedule.ParseScheduleEditErrors | hdr_sdr_tray.py:1464-1472 | nonempty text is a count error exactly when it does not split into four fields; four fields with a bad time are a time error |
| Schedule.ParseScheduleEditAccepts | hdr_sdr_tray.py:1461-1479 | nonempty text is accepted iff its stripped comma-separated fields are four with two valid times and two integers; the result holds those times and the clamped integers; a bad integer after valid times is exactly the value error |
| Schedule.HhmmHasNoCommaOrSpace | hdr_sdr_tray.py:1511-1520 | a valid time contains neither a comma nor whitespace |
| Schedule.FormatIsJoin | hdr_sdr_tray.py:1454 | the editor's initial text is the four fields joined by commas |
| Schedule.FormatSchedule | hdr_sdr_tray.py:1454 | the editor's initial text is `",".join` of the two times and the two printed percentages |
| Schedule.StripAllNoSpace | hdr_sdr_tray.py:1464 | stripping fields without whitespace changes none of them |
| Schedule.FieldsClean | hdr_sdr_tray.py:1454 | the fields of a valid schedule contain no comma and no whitespace |
| Schedule.ParseOfCleanFields | hdr_sdr_tray.py:1465-1479 | two valid times and two printed in-range percentages pass every field check and come back unchanged |
| Schedule.ParseOfFields | hdr_sdr_tray.py:1461-1464 | nonempty text parses to whatever its stripped fields parse to |
| Schedule.FormatFields | hdr_sdr_tray.py:1454-1464 | the editor's initial text is nonempty and splits and strips back into its four fields |
| Schedule.EditRoundTrip | hdr_sdr_tray.py:1454-1484 | accepting the editor's initial text unchanged reproduces the current schedule |
| App.Settings.Load | hdr_sdr_tray.py:964-989 | `_load_settings`: defaults for missing keys, percentages clamped to 0..100, invalid times reset to 08:00 and 20:00, schedule enabled iff the key is 1 |
| App.Settings.SetSchedule | hdr_sdr_tray.py:1481-1484 | stores the four accepted values and leaves the manual value and the schedule flag |
| App.TrayApp.constructor | hdr_sdr_tray.py:75-76 | the application starts with freshly loaded settings (the values `_load_settings` gives) and no last-applied percentage |
| App.TrayApp.ApplyPercent | hdr_sdr_tray.py:1117-1142 | succeeds iff the helper is found and runs; the helper is given `Nits` of the percent; success records the clamped percentage as last applied |
| App.TrayApp.OnTrayWheel | hdr_sdr_tray.py:937-962 | target = WheelTarget(old, delta); no change leaves settings and last-applied alone; otherwise manual := target, the schedule is switched off, the other settings stay, and the target is applied |
| App.TrayApp.ApplyScheduleNow | hdr_sdr_tray.py:1198-1210 | nothing happens with the schedule off; otherwise ScheduleTarget is applied only when it differs from the last applied percentage |
| App.TrayApp.InitialApply | hdr_sdr_tray.py:1188-1192 | applies the schedule when it is on, the manual value otherwise |
| App.TrayApp.AcceptScheduleEdit | hdr_sdr_tray.py:1481-1486 | stores the accepted values, keeps manual and the flag, and re-applies the new schedule's target when the schedule is on and it differs from the last applied |
| App.TrayApp.EditSchedule | hdr_sdr_tray.py:1452-1488 | the outcome is the parse of the dialog text (no text parses as empty); a cancelled or rejected text changes nothing; accepted values replace the four schedule settings and keep manual and the flag; with the schedule on, the new schedule's target for the current minute is applied unless it was the last applied value, and it is recorded only when the helper runs |
| Adapters.HoverPoint | hdr_sdr_tray.py:532-539 | the hover position is the cursor when it can be read, else wParam's two words read as shorts |
| Adapters.ClassifyNotify | hdr_sdr_tray.py:489-510 | mouse-range codes mark hover; the wheel code carries the notify delta and answers 0; any other code carries no delta and chains iff an original handler exists |
| Adapters.WheelNotifyNeverChains | hdr_sdr_tray.py:489-508 | a WM_MOUSEWHEEL callback marks hover, returns 0 without chaining, and enqueues 0 or a whole number of notches in [-32760, 32760] |
| Adapters.OnTrayNotify | hdr_sdr_tray.py:471-510 | performs ClassifyNotify: refreshes hover for mouse codes, enqueues the delta (a zero delta changes nothing) and returns the reply |
| Adapters.HookProc | hdr_sdr_tray.py:609-652 | a nonzero hook delta is accepted iff the point hits the cached icon rectangle or, failing that, the hover was recent; acceptance refreshes hover at the point and enqueues the delta; a miss changes neither |
| Adapters.OnTrayRawInput | hdr_sdr_tray.py:723-745 | unregistered or cursorless input does nothing; otherwise the icon is hit-tested first and only a hit with a nonzero decoded delta refreshes hover at the cursor and enqueues |
| Adapters.FlushWheelDelta | hdr_sdr_tray.py:896-903 | drains exactly the sum since the last flush; a zero sum, or a wheel target equal to the current manual value, changes no setting and applies nothing; otherwise manual becomes the target, the schedule is switched off, day, night and both times are kept, and the target is recorded as applied iff the helper runs |
| Adapters.OnTaskbarCreated | hdr_sdr_tray.py:561-568 | the cache is emptied and the original handler is called iff one exists |

## Left out

- Logging, its rate-limit timestamps, the miss and event counters (`_notify_event_count`, `_wheel_hook_events`, `_wheel_hook_miss_count`), and the backlog diagnostic with `_get_private_mem_mb`. These are diagnostics and decide nothing.
- Threads and locks: the hotkey loop, the hook's message pump, hook installation and `_stop_wheel_hook_support`. The coalescer's lock is modelled by running each critical section as one atomic method.
- Where a flush is scheduled with `root.after(0, ...)`, the adapters return a `scheduleFlush` flag; the Tk event loop that later runs `FlushWheelDelta` is not modelled.
- The re-arm timers of the taskbar-recreated handler (`root.after(1200/1500, ...)`) and the handler's fixed return value 0.
- Win32 calls (`GetCursorPos`, `Shell_NotifyIconGetRect`, `GetRawInputData`'s two-call buffer fetch, `RegisterRawInputDevices`, `CallNextHookEx`). They are oracle parameters. Every failed raw-input fetch is the single value `None`, and a missing identifier struct type counts as `hasGetRect = false`.
- The Tk UI: the slider window and its redraw, theming, window positioning, message boxes and `update_menu`. `_value_to_x` and `_x_to_value` use floats and are not modelled.
- `_save_settings` and the configparser file I/O; the model starts from the values read (`Config`). The theme setting is not modelled.
- Helper resolution, the GitHub download and the subprocess call are folded into `Helper(found, succeeds)`. Message boxes shown on failure are not modelled.
- App.Settings.Load: `configparser.getint` raising on a non-integer value is not modelled; a key is either an integer or missing.
- Text.ParseInt: models `int()` as an optional sign followed by ASCII digits; the underscores and Unicode digits Python also accepts are not modelled, and `isdigit` is ASCII `'0'..'9'` throughout.
- Text.Strip: `IsSpace` is the ASCII whitespace `str.strip` removes (space, tab, line feed, vertical tab, form feed, carriage return and U+001C..U+001F); non-ASCII whitespace such as U+0085 and U+00A0 is not stripped.
- Brightness.TruncDiv: `int(delta / 120)` goes through a float; the model uses exact truncating division, which can differ only for sums so large (around 2^50) that float rounding crosses a multiple of 120.
- Schedule.HhmmToMinutes: requires a valid time, since it is only applied to validated settings; the source would raise on malformed text.
- Wall-clock time (`time.time()`, `datetime.now()`) is a parameter: integer milliseconds for hover and cache, minutes of the day for the schedule, not float seconds.
- Tray icon creation, the PIL icon image, the startup shortcut and the menu are outside the modelled core.
