/**
 * "Keep order, remove duplicates": the list clean-up both UID loops of
 * hdr_sdr_tray.py perform with a `seen` set.
 */
module Distinct {

  predicate NoDup(s: seq<int>) {
    forall i, j :: 0 <= i < j < |s| ==> s[i] != s[j]
  }

  /** The first-occurrence filter, defined on the last element so that a left-to-right loop can follow it. */
  function Dedup(s: seq<int>): (d: seq<int>)
    decreases |s|
  {
    if s == [] then []
    else
      var d := Dedup(s[..|s| - 1]);
      if s[|s| - 1] in d then d else d + [s[|s| - 1]]
  }

  /** Index of the first occurrence of x in s. */
  function IndexOf(s: seq<int>, x: int): (i: nat)
    requires x in s
    ensures i < |s| && s[i] == x && x !in s[..i]
  {
    if s[0] == x then 0 else 1 + IndexOf(s[1..], x)
  }

  /** Nothing is lost or invented: the result holds exactly the input's values. */
  lemma {:induction false} DedupSameElements(s: seq<int>)
    ensures forall x :: x in Dedup(s) <==> x in s
  {
    if s != [] {
      var p := s[..|s| - 1];
      DedupSameElements(p);
      assert s == p + [s[|s| - 1]];
    }
  }

  /** Every value appears once. */
  lemma {:induction false} DedupNoDup(s: seq<int>)
    ensures NoDup(Dedup(s))
  {
    if s != [] {
      DedupNoDup(s[..|s| - 1]);
    }
  }

  /** The first input value stays first. */
  lemma {:induction false} DedupHead(s: seq<int>)
    requires s != []
    ensures Dedup(s) != [] && Dedup(s)[0] == s[0]
  {
    if |s| > 1 {
      var p := s[..|s| - 1];
      DedupHead(p);
      assert p[0] == s[0];
    }
  }

  /** The kept values are in the order of their first occurrence in the input. */
  lemma {:induction false} DedupKeepsFirstOccurrenceOrder(s: seq<int>, j: nat, k: nat)
    requires j < k < |Dedup(s)|
    ensures Dedup(s)[j] in s && Dedup(s)[k] in s
    ensures IndexOf(s, Dedup(s)[j]) < IndexOf(s, Dedup(s)[k])
  {
    var p := s[..|s| - 1];
    var x := s[|s| - 1];
    var d := Dedup(p);
    assert s == p + [x];
    DedupSameElements(p);
    if k < |d| {
      DedupKeepsFirstOccurrenceOrder(p, j, k);
      IndexOfPrefix(p, x, d[j]);
      IndexOfPrefix(p, x, d[k]);
    } else {
      assert x !in p && Dedup(s)[k] == x;
      IndexOfPrefix(p, x, d[j]);
    }
  }

  lemma {:induction false} IndexOfPrefix(p: seq<int>, x: int, y: int)
    requires y in p
    ensures y in p + [x] && IndexOf(p + [x], y) == IndexOf(p, y)
  {
    if p[0] != y {
      assert (p + [x])[1..] == p[1..] + [x];
      IndexOfPrefix(p[1..], x, y);
    }
  }

  /** The loop with a `seen` set: equals the first-occurrence filter. */
  method DedupKeepFirst(s: seq<int>) returns (out: seq<int>)
    ensures out == Dedup(s)
  {
    var seen: set<int> := {};
    out := [];
    var i := 0;
    while i < |s|
      invariant 0 <= i <= |s|
      invariant out == Dedup(s[..i])
      invariant forall x :: x in seen <==> x in out
    {
      var u := s[i];
      assert s[..i + 1][..i] == s[..i];
      if u in seen {
        i := i + 1;
        continue;
      }
      seen := seen + {u};
      out := out + [u];
      i := i + 1;
    }
    assert s[..|s|] == s;
  }
}
