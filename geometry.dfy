/**
 * The geometry resolver: which UIDs are tried when asking the shell for the
 * tray icon's rectangle, the preferred UID it learns, the 350 ms cache in
 * front of it, and the inclusive hit-test. The shell query
 * (Shell_NotifyIconGetRect) is an oracle from UID to an optional rectangle.
 */
module Geometry {
  import opened Wrappers
  import opened Words
  import opened Distinct

  /** The cache is served while it is at most this old (0.35 s). */
  const RECT_TTL_MS: int := 350

  datatype Rect = Rect(left: int, top: int, right: int, bottom: int)

  /** `_tray_icon_rect_cache`: a rectangle and the time it was sampled. */
  datatype CachedRect = CachedRect(rect: Rect, sampledAt: int)

  /**
   * What the shell offers at the moment of a query: whether the tray icon's
   * window exists, whether the rectangle API (and its struct type) is
   * available, and the answer for each UID.
   */
  datatype ShellEnv = ShellEnv(hasWindow: bool, hasGetRect: bool, getRect: int -> Option<Rect>)

  /** The hit-test, inclusive on all four edges. */
  predicate Contains(r: Rect, x: int, y: int) {
    r.left <= x <= r.right && r.top <= y <= r.bottom
  }

  /** `ctypes.c_uint` applied to each value. */
  function U32All(s: seq<int>): (r: seq<int>)
    ensures |r| == |s|
    ensures forall k :: 0 <= k < |s| ==> r[k] == U32(s[k])
  {
    seq(|s|, k requires 0 <= k < |s| => U32(s[k]))
  }

  /** The UIDs a query tries, in order: the preferred one first, then the candidates, duplicates dropped. */
  function UidOrder(preferred: Option<int>, candidates: seq<int>): (order: seq<int>)
    ensures NoDup(order)
    ensures forall k :: 0 <= k < |order| ==> 0 <= order[k] < DWORD
  {
    var all := U32All((if preferred.Some? then [preferred.value] else []) + candidates);
    DedupNoDup(all);
    DedupSameElements(all);
    var order := Dedup(all);
    assert forall u :: u in all ==> 0 <= u < DWORD;
    assert forall k :: 0 <= k < |order| ==> order[k] in order;
    order
  }

  /** The preferred UID, when there is one, is always the first one tried. */
  lemma {:induction false} PreferredTriedFirst(p: int, candidates: seq<int>)
    ensures UidOrder(Some(p), candidates) != []
    ensures UidOrder(Some(p), candidates)[0] == U32(p)
  {
    DedupHead(U32All([p] + candidates));
  }

  /** The order tries every candidate and the preferred UID, and none twice. */
  lemma {:induction false} UidOrderCoversAll(preferred: Option<int>, candidates: seq<int>)
    ensures NoDup(UidOrder(preferred, candidates))
    ensures forall c :: c in candidates ==> U32(c) in UidOrder(preferred, candidates)
    ensures preferred.Some? ==> U32(preferred.value) in UidOrder(preferred, candidates)
    ensures forall u :: u in UidOrder(preferred, candidates) ==> 0 <= u < DWORD
    ensures forall u :: u in UidOrder(preferred, candidates) ==>
      (preferred.Some? && u == U32(preferred.value)) || exists k :: 0 <= k < |candidates| && u == U32(candidates[k])
  {
    var all := U32All((if preferred.Some? then [preferred.value] else []) + candidates);
    DedupNoDup(all);
    DedupSameElements(all);
    var off := if preferred.Some? then 1 else 0;
    forall c | c in candidates ensures U32(c) in all {
      var k :| 0 <= k < |candidates| && candidates[k] == c;
      assert all[off + k] == U32(c);
    }
    if preferred.Some? {
      assert all[0] == U32(preferred.value);
    }
  }

  /** Position of the first UID the shell answers for, or |uids| when none does. */
  function FirstHitIndex(uids: seq<int>, getRect: int -> Option<Rect>): (i: nat)
    ensures i <= |uids|
    ensures forall j :: 0 <= j < i ==> getRect(uids[j]).None?
    ensures i < |uids| ==> getRect(uids[i]).Some?
    decreases |uids|
  {
    if uids == [] then 0
    else if getRect(uids[0]).Some? then 0
    else 1 + FirstHitIndex(uids[1..], getRect)
  }

  /** The outcome of one uncached query: the rectangle (if any) and the preferred UID afterwards. */
  datatype Resolution = Resolution(rect: Option<Rect>, preferred: Option<int>)

  /** `_get_tray_icon_rect` as a value. */
  function Resolve(env: ShellEnv, preferred: Option<int>, candidates: seq<int>): (r: Resolution)
    ensures r.rect.None? ==> r.preferred == preferred
    ensures r.rect.Some? ==>
      (env.hasWindow && env.hasGetRect && r.preferred.Some?
       && r.preferred.value in UidOrder(preferred, candidates) && env.getRect(r.preferred.value) == r.rect)
  {
    if !env.hasWindow || !env.hasGetRect then Resolution(None, preferred)
    else
      var order := UidOrder(preferred, candidates);
      var i := FirstHitIndex(order, env.getRect);
      if i < |order| then Resolution(env.getRect(order[i]), Some(order[i]))
      else Resolution(None, preferred)
  }

  /**
   * A query succeeds exactly when some tried UID answers; the first one that
   * answers supplies the rectangle and becomes preferred; a failed query
   * leaves the preference alone.
   */
  lemma {:induction false} ResolveOutcome(env: ShellEnv, preferred: Option<int>, candidates: seq<int>)
    ensures var res := Resolve(env, preferred, candidates);
      var order := UidOrder(preferred, candidates);
      (res.rect.Some? <==> env.hasWindow && env.hasGetRect && exists u :: u in order && env.getRect(u).Some?)
      && (res.rect.None? ==> res.preferred == preferred)
      && (res.rect.Some? ==>
            exists i :: 0 <= i < |order| && order[i] == res.preferred.value
              && env.getRect(order[i]) == res.rect
              && forall j :: 0 <= j < i ==> env.getRect(order[j]).None?)
  {
    var order := UidOrder(preferred, candidates);
    var i := FirstHitIndex(order, env.getRect);
    if env.hasWindow && env.hasGetRect {
      if i == |order| {
        forall u | u in order ensures env.getRect(u).None? {
          var j :| 0 <= j < |order| && order[j] == u;
        }
      } else {
        var res := Resolve(env, preferred, candidates);
        assert res == Resolution(env.getRect(order[i]), Some(order[i]));
        assert order[i] in order && env.getRect(order[i]).Some?;
        assert 0 <= i < |order| && order[i] == res.preferred.value
          && env.getRect(order[i]) == res.rect
          && forall j :: 0 <= j < i ==> env.getRect(order[j]).None?;
      }
    }
  }

  /** Once a UID is preferred and still answers, it is the one used, and the preference sticks. */
  lemma {:induction false} PreferredIsSticky(env: ShellEnv, p: int, candidates: seq<int>)
    requires 0 <= p < DWORD
    requires env.hasWindow && env.hasGetRect && env.getRect(p).Some?
    ensures Resolve(env, Some(p), candidates) == Resolution(env.getRect(p), Some(p))
  {
    PreferredTriedFirst(p, candidates);
  }

  /** `_init_tray_uid_candidates`: 0 and the icon's identity as an unsigned int, duplicates dropped. */
  method InitUidCandidates(iconId: int) returns (cands: seq<int>)
    ensures cands == Dedup([0, U32(iconId)])
    ensures cands != [] && cands[0] == 0 && NoDup(cands)
    ensures forall u :: u in cands <==> u == 0 || u == U32(iconId)
  {
    cands := DedupKeepFirst([0, U32(iconId)]);
    DedupHead([0, U32(iconId)]);
    DedupNoDup([0, U32(iconId)]);
    DedupSameElements([0, U32(iconId)]);
  }

  /** A cache entry is served while it is at most 350 ms old. */
  predicate CacheFresh(cache: Option<CachedRect>, now: int) {
    cache.Some? && now - cache.value.sampledAt <= RECT_TTL_MS
  }

  /** The outcome of one cached lookup: the rectangle, and the cache and preference afterwards. */
  datatype Lookup = Lookup(rect: Option<Rect>, cache: Option<CachedRect>, preferred: Option<int>)

  /** `_get_tray_icon_rect_cached` as a value. */
  function CachedLookup(cache: Option<CachedRect>, preferred: Option<int>, candidates: seq<int>,
                        env: ShellEnv, now: int): (r: Lookup)
    ensures r.rect.None? ==> r.cache == cache && r.preferred == preferred
    ensures r.rect.Some? ==> r.cache.Some? && r.cache.value.rect == r.rect.value
    ensures r.cache != cache ==> r.cache == Some(CachedRect(r.rect.value, now))
  {
    if CacheFresh(cache, now) then Lookup(Some(cache.value.rect), cache, preferred)
    else
      var res := Resolve(env, preferred, candidates);
      Lookup(res.rect, if res.rect.Some? then Some(CachedRect(res.rect.value, now)) else cache, res.preferred)
  }

  /**
   * A fresh cache answers without asking the shell: the outcome is the same
   * whatever the shell would say, and nothing changes.
   */
  lemma FreshCacheIgnoresShell(cache: Option<CachedRect>, preferred: Option<int>, candidates: seq<int>,
                               env1: ShellEnv, env2: ShellEnv, now: int)
    requires CacheFresh(cache, now)
    ensures CachedLookup(cache, preferred, candidates, env1, now) == CachedLookup(cache, preferred, candidates, env2, now)
    ensures CachedLookup(cache, preferred, candidates, env1, now) == Lookup(Some(cache.value.rect), cache, preferred)
  {
  }

  /**
   * A rectangle obtained by a query at time t is served, unchanged and
   * without a query, for every lookup up to t + 350 ms; after that the shell
   * is asked again.
   */
  lemma {:induction false} QueriedRectServedForTtl(cache: Option<CachedRect>, preferred: Option<int>,
                                                   candidates: seq<int>, env: ShellEnv, t: int,
                                                   env2: ShellEnv, t2: int)
    requires !CacheFresh(cache, t)
    requires CachedLookup(cache, preferred, candidates, env, t).rect.Some?
    ensures var l := CachedLookup(cache, preferred, candidates, env, t);
      var l2 := CachedLookup(l.cache, l.preferred, candidates, env2, t2);
      (t <= t2 <= t + RECT_TTL_MS ==> l2 == Lookup(l.rect, l.cache, l.preferred))
      && (t2 > t + RECT_TTL_MS ==> l2.rect == Resolve(env2, l.preferred, candidates).rect)
  {
  }

  /** A failed query returns nothing and keeps the old cache entry and preference. */
  lemma FailedQueryKeepsCache(cache: Option<CachedRect>, preferred: Option<int>, candidates: seq<int>,
                              env: ShellEnv, now: int)
    requires !CacheFresh(cache, now)
    requires Resolve(env, preferred, candidates).rect.None?
    ensures CachedLookup(cache, preferred, candidates, env, now) == Lookup(None, cache, preferred)
  {
    ResolveOutcome(env, preferred, candidates);
  }

  /** After the taskbar is recreated (cache dropped) the next lookup always asks the shell. */
  lemma ClearedCacheQueries(preferred: Option<int>, candidates: seq<int>, env: ShellEnv, now: int)
    ensures CachedLookup(None, preferred, candidates, env, now).rect == Resolve(env, preferred, candidates).rect
  {
  }

  /** The hit-test against whatever rectangle the lookup produced. */
  predicate HitsIcon(l: Lookup, x: int, y: int) {
    l.rect.Some? && Contains(l.rect.value, x, y)
  }

  class TrayGeometry {
    /** `_tray_uid_candidates`. */
    var candidates: seq<int>
    /** `_tray_uid_preferred`. */
    var preferred: Option<int>
    /** `_tray_icon_rect_cache`. */
    var cache: Option<CachedRect>

    constructor (iconId: int)
      ensures candidates == Dedup([0, U32(iconId)])
      ensures preferred == None && cache == None
    {
      var cands := InitUidCandidates(iconId);
      candidates := cands;
      preferred := None;
      cache := None;
    }

    /** `_get_tray_icon_rect`: try the UIDs in order and keep the first that answers. */
    method GetTrayIconRect(env: ShellEnv) returns (r: Option<Rect>)
      modifies this`preferred
      ensures r == Resolve(env, old(preferred), candidates).rect
      ensures preferred == Resolve(env, old(preferred), candidates).preferred
    {
      if !env.hasWindow || !env.hasGetRect {
        return None;
      }
      var uidList := (if preferred.Some? then [preferred.value] else []) + candidates;
      var uidTry := DedupKeepFirst(U32All(uidList));
      ghost var hit := FirstHitIndex(uidTry, env.getRect);
      var i := 0;
      while i < |uidTry|
        invariant 0 <= i <= hit
        invariant preferred == old(preferred)
      {
        var uid := uidTry[i];
        var rect := env.getRect(uid);
        if rect.Some? {
          if preferred != Some(uid) {
            preferred := Some(uid);
          }
          return rect;
        }
        i := i + 1;
      }
      return None;
    }

    /** `_get_tray_icon_rect_cached`: serve a cache at most 350 ms old, else query and cache a success. */
    method GetTrayIconRectCached(env: ShellEnv, now: int) returns (r: Option<Rect>)
      modifies this`preferred, this`cache
      ensures Lookup(r, cache, preferred) == CachedLookup(old(cache), old(preferred), candidates, env, now)
    {
      if cache.Some? && now - cache.value.sampledAt <= RECT_TTL_MS {
        return Some(cache.value.rect);
      }
      r := GetTrayIconRect(env);
      if r.Some? {
        cache := Some(CachedRect(r.value, now));
      }
    }

    /** `_is_point_on_our_tray_icon`: the point lies in the (possibly cached) rectangle, edges included. */
    method IsPointOnOurTrayIcon(env: ShellEnv, x: int, y: int, now: int) returns (hit: bool)
      modifies this`preferred, this`cache
      ensures var l := CachedLookup(old(cache), old(preferred), candidates, env, now);
        hit == HitsIcon(l, x, y) && cache == l.cache && preferred == l.preferred
    {
      var rect := GetTrayIconRectCached(env, now);
      if rect.None? {
        return false;
      }
      var Rect(left, top, right, bottom) := rect.value;
      hit := left <= x <= right && top <= y <= bottom;
    }

    /** The taskbar-recreated handler drops the cache, so the next hit-test re-queries. */
    method InvalidateCache()
      modifies this`cache
      ensures cache == None
    {
      cache := None;
    }
  }
}
