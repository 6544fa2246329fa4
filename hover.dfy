/**
 * The hover tracker: the last plausible cursor anchor near the tray icon and
 * the deadline until which off-icon wheel events still count. Time is an
 * integer number of milliseconds supplied by the caller.
 */
module Hover {
  import opened Wrappers
  import opened Words

  /** TRAY_HOVER_GRACE_SECONDS = 1.8 s. */
  const GRACE_MS: int := 1800
  /** TRAY_HOVER_RADIUS_PX. */
  const RADIUS_PX: int := 72

  datatype Point = Point(x: int, y: int)

  predicate Near(a: Point, x: int, y: int) {
    Abs(x - a.x) <= RADIUS_PX && Abs(y - a.y) <= RADIUS_PX
  }

  /** The anchor after a refresh at (x, y): the placeholder (0, 0) never becomes the anchor. */
  function AnchorAfter(anchor: Option<Point>, x: int, y: int): (a: Option<Point>)
    ensures a.Some? ==> a.value != Point(0, 0) || anchor == a
    ensures x == 0 && y == 0 ==> a == anchor
    ensures (x, y) != (0, 0) ==> a == Some(Point(x, y))
  {
    if x == 0 && y == 0 then anchor else Some(Point(x, y))
  }

  class HoverTracker {
    /** `_tray_hover_until`, in milliseconds. */
    var hoverUntil: int
    /** `_tray_last_anchor`. */
    var anchor: Option<Point>

    constructor ()
      ensures hoverUntil == 0 && anchor == None
    {
      hoverUntil := 0;
      anchor := None;
    }

    /** `_is_tray_hover_recent`: inside the grace window and, if an anchor is known, near it. */
    predicate IsRecent(x: int, y: int, now: int)
      reads this
    {
      if now > hoverUntil then false
      else if anchor.None? then true
      else Near(anchor.value, x, y)
    }

    /**
     * `_refresh_tray_hover`: the deadline always moves to now + grace; the
     * placeholder position (0,0) leaves the anchor as it was.
     */
    method Refresh(x: int, y: int, now: int)
      modifies this
      ensures hoverUntil == now + GRACE_MS
      ensures anchor == AnchorAfter(old(anchor), x, y)
      ensures (x, y) != (0, 0) ==> forall t :: IsRecent(x, y, t) <==> t <= now + GRACE_MS
      ensures forall t, px, py :: IsRecent(px, py, t) <==>
        t <= now + GRACE_MS && (anchor.None? || Near(anchor.value, px, py))
    {
      if x == 0 && y == 0 {
        hoverUntil := now + GRACE_MS;
        return;
      }
      anchor := Some(Point(x, y));
      hoverUntil := now + GRACE_MS;
    }
  }
}
