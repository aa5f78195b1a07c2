/** The pool check of the model validator: three local tests that together say that
    every used octet belongs to exactly one record. */
module PoolValidation {
  import opened Bytes
  import opened SlicePools

  predicate Covers(s: Slice, k: nat)
  {
    s.offset <= k < s.offset + s.length
  }

  ghost predicate Owned(slots: seq<Slice>, k: nat)
  {
    exists i :: 0 <= i < |slots| && Covers(slots[i], k)
  }

  /** Every octet below `used` has exactly one owner, no octet at or above it has
      any, and a record without octets points nowhere. */
  ghost predicate ExactCover(slots: seq<Slice>, used: nat, none: nat)
  {
    && (forall i :: 0 <= i < |slots| && slots[i].length == 0 ==> slots[i].offset == none)
    && (forall k: nat :: k < used ==> Owned(slots, k))
    && (forall i, k: nat :: 0 <= i < |slots| && Covers(slots[i], k) ==> k < used)
    && (forall i, j, k: nat :: 0 <= i < j < |slots| && Covers(slots[i], k) ==> !Covers(slots[j], k))
  }

  // ---- Counting ------------------------------------------------------------------

  ghost function Interval(lo: nat, n: nat): (s: set<nat>)
    ensures |s| == n
    ensures forall k :: k in s <==> lo <= k < lo + n
  {
    if n == 0 then {} else Interval(lo, n - 1) + {lo + n - 1}
  }

  ghost function CoveredBy(slots: seq<Slice>): set<nat>
  {
    if slots == [] then {} else Interval(slots[0].offset, slots[0].length) + CoveredBy(slots[1..])
  }

  lemma {:induction false} CoveredMember(slots: seq<Slice>, k: nat)
    ensures k in CoveredBy(slots) <==> Owned(slots, k)
  {
    if slots != [] {
      CoveredMember(slots[1..], k);
      if Owned(slots[1..], k) {
        var i :| 0 <= i < |slots[1..]| && Covers(slots[1..][i], k);
        assert Covers(slots[i + 1], k);
      }
      if Owned(slots, k) && !Covers(slots[0], k) {
        var i :| 0 <= i < |slots| && Covers(slots[i], k);
        assert Covers(slots[1..][i - 1], k);
      }
    }
  }

  /** Pairwise separate slices cover as many octets as their lengths add up to. */
  lemma {:induction false} CoveredCount(slots: seq<Slice>)
    requires forall i, j :: 0 <= i < j < |slots| ==> Apart(slots[i], slots[j])
    ensures |CoveredBy(slots)| == TotalLength(slots)
  {
    if slots != [] {
      CoveredCount(slots[1..]);
      var first, rest := Interval(slots[0].offset, slots[0].length), CoveredBy(slots[1..]);
      forall k | k in first
        ensures k !in rest
      {
        CoveredMember(slots[1..], k);
        assert forall i :: 0 <= i < |slots[1..]| ==> Apart(slots[0], slots[1..][i]);
      }
      assert first !! rest;
    }
  }

  lemma SameSizeSubset(a: set<nat>, b: set<nat>)
    requires a <= b && |a| == |b|
    ensures a == b
  {
    assert b == a + (b - a);
    assert |b| == |a| + |b - a|;
  }

  lemma SeparateMeansApart(a: Slice, b: Slice)
    requires forall k: nat :: Covers(a, k) ==> !Covers(b, k)
    ensures Apart(a, b)
  {
    if !Apart(a, b) {
      var k := if a.offset < b.offset then b.offset else a.offset;
      assert Covers(a, k) && Covers(b, k);
      assert false;
    }
  }

  lemma CoveredWithin(slots: seq<Slice>, used: nat, none: nat, k: nat)
    requires Tiled(slots, used, none) && k in CoveredBy(slots)
    ensures k in Interval(0, used)
  {
    hide CoveredBy, Interval, TotalLength;
    CoveredMember(slots, k);
    var i :| 0 <= i < |slots| && Covers(slots[i], k);
    assert InBounds(slots[i], used, none);
  }

  /** Slices that tile own every octet below `used`. */
  lemma TilingOwnsAll(slots: seq<Slice>, used: nat, none: nat, k: nat)
    requires Tiled(slots, used, none) && k < used
    ensures Owned(slots, k)
  {
    hide CoveredBy, Interval, Owned, TotalLength;
    CoveredCount(slots);
    forall j | j in CoveredBy(slots)
      ensures j in Interval(0, used)
    {
      CoveredWithin(slots, used, none, j);
    }
    SameSizeSubset(CoveredBy(slots), Interval(0, used));
    CoveredMember(slots, k);
  }

  lemma TilingCoversExactly(slots: seq<Slice>, used: nat, none: nat)
    requires Tiled(slots, used, none)
    ensures ExactCover(slots, used, none)
  {
    hide Owned, TotalLength;
    forall k: nat | k < used
      ensures Owned(slots, k)
    {
      TilingOwnsAll(slots, used, none, k);
    }
    forall i, j, k: nat | 0 <= i < j < |slots| && Covers(slots[i], k)
      ensures !Covers(slots[j], k)
    {
      assert Apart(slots[i], slots[j]);
    }
    assert forall i :: 0 <= i < |slots| ==> InBounds(slots[i], used, none);
  }

  lemma ExactCoverTiles(slots: seq<Slice>, used: nat, none: nat)
    requires ExactCover(slots, used, none)
    ensures Tiled(slots, used, none)
  {
    forall i | 0 <= i < |slots|
      ensures InBounds(slots[i], used, none)
    {
      if slots[i].length > 0 {
        assert Covers(slots[i], slots[i].offset + slots[i].length - 1);
      }
    }
    forall i, j | 0 <= i < j < |slots|
      ensures Apart(slots[i], slots[j])
    {
      SeparateMeansApart(slots[i], slots[j]);
    }
    CoveredCount(slots);
    forall k: nat
      ensures k in CoveredBy(slots) <==> k in Interval(0, used)
    {
      CoveredMember(slots, k);
    }
    assert CoveredBy(slots) == Interval(0, used);
  }

  /** In bounds, pairwise separate and adding up to `used` is the same as covering
      every octet below `used` exactly once. */
  lemma TilingIsExactCover(slots: seq<Slice>, used: nat, none: nat)
    ensures Tiled(slots, used, none) <==> ExactCover(slots, used, none)
  {
    if Tiled(slots, used, none) { TilingCoversExactly(slots, used, none); }
    if ExactCover(slots, used, none) { ExactCoverTiles(slots, used, none); }
  }

  // ---- The validator's loops -------------------------------------------------------

  predicate SliceIsValid(offset: nat, length: nat, used: nat, capacity: nat, none: nat)
  {
    if used > capacity then false
    else if length == 0 then offset == none
    else offset != none && offset <= used && length <= used - offset
  }

  predicate SlicesOverlap(a: Slice, b: Slice)
  {
    if a.length == 0 || b.length == 0 then false
    else a.offset < b.offset + b.length && b.offset < a.offset + a.length
  }

  /** Accepts a pool exactly when each used octet has one owner. */
  method PoolIsValid(slots: seq<Slice>, used: nat, capacity: nat, none: nat) returns (valid: bool)
    requires capacity < none
    ensures valid <==> used <= capacity && ExactCover(slots, used, none)
  {
    if used > capacity { return false; }
    TilingIsExactCover(slots, used, none);
    var total := 0;
    var i := 0;
    while i < |slots|
      invariant 0 <= i <= |slots|
      invariant total == TotalLength(slots[..i])
      invariant forall k :: 0 <= k < i ==> InBounds(slots[k], used, none)
      invariant forall j, k :: 0 <= j < k < i ==> Apart(slots[j], slots[k])
    {
      if !SliceIsValid(slots[i].offset, slots[i].length, used, capacity, none) {
        assert !InBounds(slots[i], used, none);
        return false;
      }
      total := total + slots[i].length;
      TotalAppend(slots[..i], [slots[i]]);
      assert slots[..i + 1] == slots[..i] + [slots[i]];
      var j := 0;
      while j < i
        invariant 0 <= j <= i
        invariant forall k :: 0 <= k < j ==> Apart(slots[k], slots[i])
      {
        if SlicesOverlap(slots[j], slots[i]) {
          assert !Apart(slots[j], slots[i]);
          return false;
        }
        j := j + 1;
      }
      i := i + 1;
    }
    assert slots[..|slots|] == slots;
    return total == used;
  }
}
