/**
 * The three wheel-payload decoders (shell notify, low-level hook, raw input)
 * and the notify event-code selection of hdr_sdr_tray.py.
 */
module Decoders {
  import opened Wrappers
  import opened Words

  const WM_MOUSEFIRST: int := 0x0200
  const WM_MOUSELAST: int := 0x020E
  const WM_MOUSEWHEEL: int := 0x020A
  const HC_ACTION: int := 0
  const RIM_TYPEMOUSE: int := 0
  const RI_MOUSE_WHEEL: int := 0x0400
  /** One wheel notch, in the units every Windows wheel API reports. */
  const WHEEL_DELTA: int := 120

  predicate IsMouseMessage(code: int) {
    WM_MOUSEFIRST <= code <= WM_MOUSELAST
  }

  /** The code a tray callback reports: the whole lParam when it is a mouse message, else its low word. */
  function NotifyEventCode(eventFull: int, eventLow: int): (r: int)
    ensures IsMouseMessage(eventFull) ==> r == eventFull
    ensures !IsMouseMessage(eventFull) ==> r == eventLow
  {
    if IsMouseMessage(eventFull) then eventFull
    else if IsMouseMessage(eventLow) then eventLow
    else eventLow
  }

  /** With the full value being the raw 32-bit lParam, the chosen code is always its low word. */
  lemma EventCodeIsLowWord(rawL: int)
    requires 0 <= rawL < DWORD
    ensures NotifyEventCode(rawL, LowWord(rawL)) == LowWord(rawL)
  {
  }

  /** A candidate delta counts only as a nonzero exact multiple of one notch. */
  predicate IsNotchMultiple(d: int) {
    d != 0 && Abs(d) % WHEEL_DELTA == 0
  }

  /**
   * The shell-notify decoder: the signed high word of wParam if it is a
   * nonzero multiple of 120, else the signed high word of lParam under the
   * same test, else 0 (the payload held anchor coordinates, not a delta).
   */
  function NotifyWheelDelta(rawW: int, rawL: int): (r: int)
    ensures r == 0 || IsNotchMultiple(r)
    ensures IsNotchMultiple(Signed16(HighWord(rawW))) ==> r == Signed16(HighWord(rawW))
    ensures (!IsNotchMultiple(Signed16(HighWord(rawW))) && IsNotchMultiple(Signed16(HighWord(rawL))))
      ==> r == Signed16(HighWord(rawL))
    ensures r == 0 <==> !IsNotchMultiple(Signed16(HighWord(rawW))) && !IsNotchMultiple(Signed16(HighWord(rawL)))
  {
    var candW := Signed16(HighWord(rawW));
    var candL := Signed16(HighWord(rawL));
    if candW != 0 && Abs(candW) % WHEEL_DELTA == 0 then candW
    else if candL != 0 && Abs(candL) % WHEEL_DELTA == 0 then candL
    else 0
  }

  /** Every delta the notify decoder can yield is a whole number of notches within a short. */
  lemma {:induction false} NotifyWheelDeltaRange(rawW: int, rawL: int)
    ensures var r := NotifyWheelDelta(rawW, rawL);
      -32760 <= r <= 32760 && r % WHEEL_DELTA == 0
  {
    var r := NotifyWheelDelta(rawW, rawL);
    if r != 0 {
      NotchMultipleOfShort(r);
    }
  }

  lemma NotchMultipleOfShort(d: int)
    requires -0x8000 <= d < 0x8000 && IsNotchMultiple(d)
    ensures -32760 <= d <= 32760 && d % WHEEL_DELTA == 0
  {
    var k := Abs(d) / WHEEL_DELTA;
    assert Abs(d) == WHEEL_DELTA * k;
    assert k <= 273;
  }

  /** The payload of a low-level mouse hook callback (MSLLHOOKSTRUCT), mouseData as a DWORD. */
  datatype HookRecord = HookRecord(x: int, y: int, mouseData: int)

  /**
   * The hook decoder: only an HC_ACTION WM_MOUSEWHEEL callback carries a
   * delta, the signed high word of mouseData, taken as it is.
   */
  function HookWheelDelta(nCode: int, wParam: int, rec: HookRecord): (r: int)
    ensures -0x8000 <= r < 0x8000
    ensures r != 0 ==> nCode == HC_ACTION && wParam == WM_MOUSEWHEEL
    ensures nCode == HC_ACTION && wParam == WM_MOUSEWHEEL ==> (r - HighWord(rec.mouseData)) % WORD == 0
  {
    if nCode == HC_ACTION && wParam == WM_MOUSEWHEEL then Signed16(HighWord(rec.mouseData)) else 0
  }

  /** The parts of a RAWINPUT record the raw-input decoder reads. */
  datatype RawInputRecord = RawInputRecord(dwType: int, usButtonFlags: int, usButtonData: int)

  predicate HasWheelFlag(flags: int) {
    (flags / RI_MOUSE_WHEEL) % 2 == 1
  }

  /**
   * The raw-input decoder. `None` stands for every failed fetch (struct types
   * missing, either GetRawInputData call failing, an empty record).
   */
  function RawInputWheelDelta(rec: Option<RawInputRecord>): (r: int)
    ensures -0x8000 <= r < 0x8000
    ensures r != 0 ==> rec.Some? && rec.value.dwType == RIM_TYPEMOUSE && HasWheelFlag(rec.value.usButtonFlags)
    ensures (rec.Some? && rec.value.dwType == RIM_TYPEMOUSE && HasWheelFlag(rec.value.usButtonFlags))
      ==> (r - rec.value.usButtonData) % WORD == 0
  {
    match rec
    case None => 0
    case Some(raw) =>
      if raw.dwType != RIM_TYPEMOUSE then 0
      else if HasWheelFlag(raw.usButtonFlags) then Signed16(raw.usButtonData)
      else 0
  }
}
