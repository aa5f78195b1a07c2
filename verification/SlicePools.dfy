/** A compacting pool: records own slices of one shared octet array, and releasing a
    slice slides everything behind it down. The file, key and key-set metadata pools
    of a credential are three instances of it. */
module SlicePools {
  import opened Bytes

  /** The slice a record owns; a record without storage has length zero and the
      pool's `none` offset. */
  datatype Slice = Slice(offset: nat, length: nat)

  function TotalLength(slots: seq<Slice>): nat
  {
    if slots == [] then 0 else slots[0].length + TotalLength(slots[1..])
  }

  predicate InBounds(s: Slice, used: nat, none: nat)
  {
    if s.length == 0 then s.offset == none else s.offset + s.length <= used
  }

  predicate Apart(a: Slice, b: Slice)
  {
    a.length == 0 || b.length == 0 || a.offset + a.length <= b.offset || b.offset + b.length <= a.offset
  }

  predicate Tiled(slots: seq<Slice>, used: nat, none: nat)
  {
    && (forall i :: 0 <= i < |slots| ==> InBounds(slots[i], used, none))
    && (forall i, j :: 0 <= i < j < |slots| ==> Apart(slots[i], slots[j]))
    && TotalLength(slots) == used
  }

  /** The octets of a slice; none when it is empty or out of range. */
  function Content(bytes: seq<byte>, s: Slice): seq<byte>
  {
    if s.length == 0 || s.offset + s.length > |bytes| then [] else bytes[s.offset..s.offset + s.length]
  }

  function ContentsOf(bytes: seq<byte>, slots: seq<Slice>): (c: seq<seq<byte>>)
    ensures |c| == |slots|
  {
    seq(|slots|, i requires 0 <= i < |slots| => Content(bytes, slots[i]))
  }

  // ---- Totals -------------------------------------------------------------------

  lemma {:induction false} TotalUpdate(slots: seq<Slice>, i: nat, s: Slice)
    requires i < |slots|
    ensures TotalLength(slots[i := s]) == TotalLength(slots) - slots[i].length + s.length
    ensures slots[i].length <= TotalLength(slots)
  {
    if i == 0 {
      assert slots[i := s][1..] == slots[1..];
    } else {
      assert slots[i := s][1..] == slots[1..][i - 1 := s];
      TotalUpdate(slots[1..], i - 1, s);
    }
  }

  lemma {:induction false} TotalAppend(a: seq<Slice>, b: seq<Slice>)
    ensures TotalLength(a + b) == TotalLength(a) + TotalLength(b)
  {
    if a == [] {
      assert a + b == b;
    } else {
      assert (a + b)[1..] == a[1..] + b;
      TotalAppend(a[1..], b);
    }
  }

  lemma {:induction false} TotalSameLengths(a: seq<Slice>, b: seq<Slice>)
    requires |a| == |b| && forall i :: 0 <= i < |a| ==> a[i].length == b[i].length
    ensures TotalLength(a) == TotalLength(b)
  {
    if a != [] { TotalSameLengths(a[1..], b[1..]); }
  }

  // ---- Compaction ---------------------------------------------------------------

  /** The octets once the hole [off, off + len) is closed and the freed end wiped. */
  function Closed(bytes: seq<byte>, used: nat, off: nat, len: nat): (c: seq<byte>)
    requires off + len <= used <= |bytes|
    ensures |c| == |bytes|
    ensures forall k :: 0 <= k < off ==> c[k] == bytes[k]
    ensures forall k :: off <= k < used - len ==> c[k] == bytes[k + len]
    ensures forall k :: used - len <= k < used ==> c[k] == 0
    ensures forall k :: used <= k < |bytes| ==> c[k] == bytes[k]
  {
    bytes[..off] + bytes[off + len..used] + Zeros(len) + bytes[used..]
  }

  predicate Movable(s: Slice, off: nat, len: nat, none: nat)
  {
    s.offset != none && s.offset > off ==> s.offset >= len
  }

  function Moved(s: Slice, off: nat, len: nat, none: nat): Slice
    requires Movable(s, off, len, none)
  {
    if s.offset != none && s.offset > off then Slice(s.offset - len, s.length) else s
  }

  /** A slice apart from the released one moves with its octets. */
  lemma MovedSlice(bytes: seq<byte>, used: nat, none: nat, freed: Slice, s: Slice)
    requires used <= |bytes| < none && freed.length > 0
    requires InBounds(freed, used, none) && InBounds(s, used, none) && Apart(s, freed)
    ensures Movable(s, freed.offset, freed.length, none)
    ensures var m := Moved(s, freed.offset, freed.length, none);
            && m.length == s.length
            && InBounds(m, used - freed.length, none)
            && Content(Closed(bytes, used, freed.offset, freed.length), m) == Content(bytes, s)
  {
    hide Closed;
    if s.length > 0 {
      if s.offset > freed.offset {
        ClosedBehind(bytes, used, freed.offset, freed.length, s.offset, s.offset + s.length);
      } else {
        ClosedBefore(bytes, used, freed.offset, freed.length, s.offset, s.offset + s.length);
      }
    }
  }

  lemma ClosedBefore(bytes: seq<byte>, used: nat, off: nat, len: nat, lo: nat, hi: nat)
    requires off + len <= used <= |bytes| && lo <= hi <= off
    ensures Closed(bytes, used, off, len)[lo..hi] == bytes[lo..hi]
  {
    hide Closed;
  }

  lemma ClosedBehind(bytes: seq<byte>, used: nat, off: nat, len: nat, lo: nat, hi: nat)
    requires off + len <= used <= |bytes| && off + len <= lo <= hi <= used
    ensures Closed(bytes, used, off, len)[lo - len..hi - len] == bytes[lo..hi]
  {
    hide Closed;
    var c := Closed(bytes, used, off, len);
    assert forall k :: lo - len <= k < hi - len ==> c[k] == bytes[k + len];
  }

  lemma MovedApart(used: nat, none: nat, freed: Slice, s: Slice, t: Slice)
    requires used < none && freed.length > 0
    requires InBounds(freed, used, none) && InBounds(s, used, none) && InBounds(t, used, none)
    requires Apart(s, freed) && Apart(t, freed) && Apart(s, t)
    ensures Movable(s, freed.offset, freed.length, none) && Movable(t, freed.offset, freed.length, none)
    ensures Apart(Moved(s, freed.offset, freed.length, none), Moved(t, freed.offset, freed.length, none))
  {
  }

  /** Closing the hole a released slice leaves keeps every other record's octets and
      leaves the remaining slices tiling the shorter pool. */
  lemma CompactionKeepsContents(bytes: seq<byte>, slots: seq<Slice>, moved: seq<Slice>, used: nat, none: nat, i: nat)
    requires used <= |bytes| < none && Tiled(slots, used, none)
    requires i < |slots| == |moved| && slots[i].length > 0 && slots[i].offset + slots[i].length <= used
    requires moved[i] == Slice(none, 0)
    requires forall j :: 0 <= j < |slots| && j != i ==>
      && Movable(slots[j], slots[i].offset, slots[i].length, none)
      && moved[j] == Moved(slots[j], slots[i].offset, slots[i].length, none)
    ensures Tiled(moved, used - slots[i].length, none)
    ensures ContentsOf(Closed(bytes, used, slots[i].offset, slots[i].length), moved) == ContentsOf(bytes, slots)[i := []]
  {
    var len := slots[i].length;
    forall j | 0 <= j < |slots| && j != i
      ensures InBounds(moved[j], used - len, none)
      ensures moved[j].length == slots[j].length
      ensures Content(Closed(bytes, used, slots[i].offset, len), moved[j]) == Content(bytes, slots[j])
    {
      assert if j < i then Apart(slots[j], slots[i]) else Apart(slots[i], slots[j]);
      MovedSlice(bytes, used, none, slots[i], slots[j]);
    }
    forall j, k | 0 <= j < k < |slots|
      ensures Apart(moved[j], moved[k])
    {
      if j != i && k != i {
        assert if j < i then Apart(slots[j], slots[i]) else Apart(slots[i], slots[j]);
        assert if k < i then Apart(slots[k], slots[i]) else Apart(slots[i], slots[k]);
        MovedApart(used, none, slots[i], slots[j], slots[k]);
      }
    }
    TotalUpdate(slots, i, Slice(none, 0));
    TotalSameLengths(slots[i := Slice(none, 0)], moved);
  }

  lemma ReleaseMovable(slots: seq<Slice>, used: nat, none: nat, i: nat)
    requires used < none && Tiled(slots, used, none)
    requires i < |slots| && slots[i].length > 0
    ensures slots[i].offset + slots[i].length <= used
    ensures forall j :: 0 <= j < |slots| && j != i ==> Movable(slots[j], slots[i].offset, slots[i].length, none)
  {
    assert InBounds(slots[i], used, none);
    forall j | 0 <= j < |slots| && j != i
      ensures Movable(slots[j], slots[i].offset, slots[i].length, none)
    {
      assert InBounds(slots[j], used, none);
      assert if j < i then Apart(slots[j], slots[i]) else Apart(slots[i], slots[j]);
    }
  }

  class SlicePool {
    const bytes: array<byte>
    const none: nat
    var used: nat
    var slots: seq<Slice>

    /** The slices tile the used part, and nothing is left behind above it. */
    ghost predicate Valid()
      reads this, bytes
    {
      && used <= bytes.Length < none
      && Tiled(slots, used, none)
      && forall k :: used <= k < bytes.Length ==> bytes[k] == 0
    }

    /** What each record's slice holds. */
    ghost function Contents(): (c: seq<seq<byte>>)
      reads this, bytes
      requires Valid()
      ensures |c| == |slots|
      ensures forall i :: 0 <= i < |slots| ==> |c[i]| == slots[i].length
    {
      assert forall i :: 0 <= i < |slots| ==> InBounds(slots[i], used, none);
      ContentsOf(bytes[..], slots)
    }

    constructor (capacity: nat, none: nat, records: nat)
      requires capacity < none
      ensures Valid() && fresh(bytes)
      ensures bytes.Length == capacity && this.none == none && used == 0
      ensures Contents() == seq(records, i => [])
    {
      bytes := new byte[capacity](i => 0);
      this.none := none;
      used := 0;
      slots := seq(records, i => Slice(none, 0));
      new;
      TotalOfEmpty(slots);
      assert Contents() == seq(records, i => []);
    }

    method CompactAfterRelease(off: nat, len: nat)
      requires off + len <= used <= bytes.Length < none
      requires forall j :: 0 <= j < |slots| ==> Movable(slots[j], off, len, none)
      modifies this, bytes
      ensures used == old(used) - len
      ensures bytes[..] == Closed(old(bytes[..]), old(used), off, len)
      ensures |slots| == old(|slots|)
      ensures len > 0 ==> forall j :: 0 <= j < |slots| ==> slots[j] == Moved(old(slots)[j], off, len, none)
    {
      if len == 0 || off == none {
        assert bytes[..] == Closed(bytes[..], used, off, len);
        return;
      }
      SlideTail(off, len);
      MoveOffsets(off, len);
    }

    /** Moves what lies behind the hole down and wipes the end. */
    method SlideTail(off: nat, len: nat)
      requires off + len <= used <= bytes.Length
      modifies this`used, bytes
      ensures used == old(used) - len
      ensures bytes[..] == Closed(old(bytes[..]), old(used), off, len)
    {
      hide Closed;
      var tail := used - (off + len);
      forall k | off <= k < off + tail {
        bytes[k] := bytes[k + len];
      }
      used := used - len;
      forall k | used <= k < used + len {
        bytes[k] := 0;
      }
    }

    /** Lowers the offset of every slice behind the hole. */
    method MoveOffsets(off: nat, len: nat)
      requires forall j :: 0 <= j < |slots| ==> Movable(slots[j], off, len, none)
      modifies this`slots
      ensures |slots| == old(|slots|)
      ensures forall j :: 0 <= j < |slots| ==> slots[j] == Moved(old(slots)[j], off, len, none)
    {
      var j := 0;
      while j < |slots|
        invariant 0 <= j <= |slots| == old(|slots|)
        invariant forall k :: 0 <= k < j ==> slots[k] == Moved(old(slots)[k], off, len, none)
        invariant forall k :: j <= k < |slots| ==> slots[k] == old(slots)[k]
      {
        if slots[j].offset != none && slots[j].offset > off {
          slots := slots[j := Slice(slots[j].offset - len, slots[j].length)];
        }
        j := j + 1;
      }
    }

    /** Gives up record `i`'s slice; every other record keeps its octets. */
    method Release(i: nat)
      requires Valid() && i < |slots|
      modifies this, bytes
      ensures Valid() && Contents() == old(Contents())[i := []]
      ensures used == old(used - slots[i].length) && slots[i].length == 0
    {
      ghost var before := slots;
      var off, len := slots[i].offset, slots[i].length;
      assert InBounds(slots[i], used, none);
      if len > 0 {
        ReleaseMovable(slots, used, none, i);
        slots := slots[i := Slice(none, 0)];
        CompactAfterRelease(off, len);
        CompactionKeepsContents(old(bytes[..]), before, slots, old(used), none, i);
      } else {
        assert slots[i := Slice(none, 0)] == slots;
        slots := slots[i := Slice(none, 0)];
        assert ContentsOf(bytes[..], slots) == ContentsOf(bytes[..], slots)[i := []];
      }
    }

    /** The octets record `i` owns. */
    function Octets(i: nat): (r: seq<byte>)
      reads this, bytes
      requires Valid() && i < |slots|
      ensures r == Contents()[i]
    {
      assert InBounds(slots[i], used, none);
      var s := slots[i];
      if s.length == 0 then [] else bytes[s.offset..s.offset + s.length]
    }

    lemma SliceWithinUsed(i: nat)
      requires Valid() && i < |slots|
      ensures slots[i].length <= used
    {
      TotalUpdate(slots, i, Slice(none, 0));
    }

    /** Whether record `i` could own `want` octets once its present slice is given up. */
    predicate CanResize(i: nat, want: nat)
      reads this, bytes
      requires Valid() && i < |slots|
    {
      want <= bytes.Length - (used - slots[i].length)
    }

    /** Hands record `i`, which owns nothing, `want` zero octets at the end. */
    method Allocate(i: nat, want: nat)
      requires Valid() && i < |slots| && slots[i].length == 0
      requires want <= bytes.Length - used
      modifies this, bytes
      ensures Valid() && Contents() == old(Contents())[i := Zeros(want)]
      ensures used == old(used) + want
    {
      assert InBounds(slots[i], used, none);
      if want == 0 {
        assert Contents() == Contents()[i := Zeros(0)];
        return;
      }
      ghost var before := slots;
      forall k | 0 <= k < want {
        bytes[used + k] := 0;
      }
      slots := slots[i := Slice(used, want)];
      used := used + want;
      assert bytes[..] == old(bytes[..]);
      assert bytes[old(used)..old(used) + want] == Zeros(want);
      AllocationTiles(before, old(used), none, i, want);
      forall j | 0 <= j < |slots|
        ensures Contents()[j] == old(Contents())[i := Zeros(want)][j]
      {
        assert j != i ==> slots[j] == before[j];
      }
    }

    /** Resizes record `i`'s slice: the same size keeps the octets, any other size
        gives zeros, and a refusal changes nothing. */
    method Resize(i: nat, want: nat) returns (ok: bool)
      requires Valid() && i < |slots|
      modifies this, bytes
      ensures Valid() && |slots| == old(|slots|)
      ensures ok == old(CanResize(i, want))
      ensures !ok ==> slots == old(slots) && used == old(used) && bytes[..] == old(bytes[..])
      ensures ok ==> used == old(used - slots[i].length) + want
      ensures Contents() == (if ok then Resized(old(Contents()), i, want) else old(Contents()))
      ensures ok ==> Contents()[i] == (if old(slots[i].length) == want then old(Contents())[i] else Zeros(want))
      ensures forall j :: 0 <= j < |slots| && j != i ==> Contents()[j] == old(Contents())[j]
    {
      TotalUpdate(slots, i, Slice(none, 0));
      assert InBounds(slots[i], used, none);
      if want > bytes.Length { return false; }
      if slots[i].offset != none && slots[i].length == want {
        assert Contents() == Contents()[i := Contents()[i]];
        return true;
      }
      if want > bytes.Length - (used - slots[i].length) { return false; }
      ghost var was := Contents();
      if slots[i].offset != none {
        Release(i);
      }
      assert Contents() == was[i := []];
      Allocate(i, want);
      return true;
    }

    /** Writes `data` into record `i`'s slice from `at`. */
    method Store(i: nat, at: nat, data: seq<byte>)
      requires Valid() && i < |slots| && at + |data| <= slots[i].length
      modifies bytes
      ensures Valid() && used == old(used)
      ensures Contents() == old(Contents())[i := Overwritten(old(Contents())[i], at, data)]
    {
      assert InBounds(slots[i], used, none);
      if |data| == 0 {
        assert Overwritten(Contents()[i], at, data) == Contents()[i];
        return;
      }
      hide Tiled;
      hide TotalLength;
      var off := slots[i].offset + at;
      forall k | 0 <= k < |data| {
        bytes[off + k] := data[k];
      }
      EditedSlice(old(bytes[..]), bytes[..], slots, used, none, i);
      StoredContent(old(bytes[..]), bytes[..], slots[i], at, data);
    }

    /** Copies record `i`'s octets to the head of `dst`. */
    method Read(i: nat, dst: array<byte>)
      requires Valid() && i < |slots| && slots[i].length <= dst.Length && dst != bytes
      modifies dst
      ensures dst[..slots[i].length] == Contents()[i]
    {
      assert InBounds(slots[i], used, none);
      var s := slots[i];
      forall k | 0 <= k < s.length {
        dst[k] := bytes[s.offset + k];
      }
      assert dst[..s.length] == Content(bytes[..], s);
    }

    /** Lengthens the last slice of the pool by zeros, without moving anything. */
    method GrowInPlace(i: nat, grow: nat)
      requires Valid() && i < |slots| && slots[i].length > 0
      requires slots[i].offset + slots[i].length == used && grow <= bytes.Length - used
      modifies this, bytes
      ensures Valid() && Contents() == old(Contents())[i := old(Contents())[i] + Zeros(grow)]
      ensures used == old(used) + grow
    {
      hide Tiled, ContentsOf, TotalLength;
      ghost var before := bytes[..];
      GrowthTiles(before, slots, used, none, i, grow);
      var s := slots[i];
      forall k | 0 <= k < grow {
        bytes[used + k] := 0;
      }
      assert bytes[..] == before;
      used := used + grow;
      slots := slots[i := Slice(s.offset, s.length + grow)];
    }

    /** Adds a record that owns nothing at position `i`. */
    method InsertRecord(i: nat)
      requires Valid() && i <= |slots|
      modifies this
      ensures Valid() && Contents() == old(Contents())[..i] + [[]] + old(Contents())[i..]
      ensures used == old(used)
    {
      InsertedTiles(slots, used, none, i);
      slots := slots[..i] + [Slice(none, 0)] + slots[i..];
    }

    /** Removes a record that owns nothing. */
    method RemoveRecord(i: nat)
      requires Valid() && i < |slots| && slots[i].length == 0
      modifies this
      ensures Valid() && Contents() == old(Contents())[..i] + old(Contents())[i + 1..]
      ensures used == old(used)
    {
      RemovedTiles(slots, used, none, i);
      slots := slots[..i] + slots[i + 1..];
    }

    /** Keeps only record `i`'s slice, moved to the head of the pool, and wipes the rest. */
    method KeepOnly(i: nat)
      requires Valid() && i < |slots|
      modifies this, bytes
      ensures Valid() && |slots| == old(|slots|)
      ensures Contents() == OnlyRecord(old(Contents()), i)
    {
      hide Tiled, TotalLength;
      ghost var was := Contents();
      assert InBounds(slots[i], used, none) by { SliceInBounds(slots, used, none, i); }
      var s := slots[i];
      if s.offset != none && s.length > 0 && s.offset <= used && s.length <= used - s.offset {
        KeepOctets(s.offset, s.length);
      } else {
        KeepOctets(0, 0);
      }
      slots := seq(|slots|, j => if j == i && s.length > 0 then Slice(0, s.length) else Slice(none, 0));
      SingleTiles(slots, used, none, i);
      assert Content(bytes[..], slots[i]) == was[i];
      assert Contents() == OnlyRecord(was, i);
    }

    /** Moves the octets [off, off + len) to the head and wipes the rest of the used part. */
    method KeepOctets(off: nat, len: nat)
      requires off + len <= used <= bytes.Length
      modifies this`used, bytes
      ensures used == len && bytes[..len] == old(bytes[off..off + len])
      ensures forall k :: len <= k < old(used) ==> bytes[k] == 0
      ensures forall k :: old(used) <= k < bytes.Length ==> bytes[k] == old(bytes[k])
    {
      if off > 0 {
        forall k | 0 <= k < len {
          bytes[k] := bytes[off + k];
        }
      }
      forall k | len <= k < used {
        bytes[k] := 0;
      }
      used := len;
    }

    /** Gives up every slice and wipes the used part. */
    method Wipe(records: nat)
      requires Valid()
      modifies this, bytes
      ensures Valid() && Contents() == seq(records, j => [])
    {
      forall k | 0 <= k < used {
        bytes[k] := 0;
      }
      used := 0;
      slots := seq(records, j => Slice(none, 0));
      TotalOfEmpty(slots);
      assert Contents() == seq(records, j => []);
    }
  }

  lemma SliceInBounds(slots: seq<Slice>, used: nat, none: nat, i: nat)
    requires Tiled(slots, used, none) && i < |slots|
    ensures InBounds(slots[i], used, none)
  {
  }

  /** Record `i` alone keeps what it holds. */
  function OnlyRecord(c: seq<seq<byte>>, i: nat): seq<seq<byte>>
    requires i < |c|
  {
    seq(|c|, j => if j == i then c[i] else [])
  }

  lemma StoredContent(before: seq<byte>, after: seq<byte>, s: Slice, at: nat, data: seq<byte>)
    requires s.offset + s.length <= |before| == |after| && at + |data| <= s.length && s.length > 0
    requires forall k :: 0 <= k < |data| ==> after[s.offset + at + k] == data[k]
    requires forall k :: 0 <= k < |before| && !(s.offset + at <= k < s.offset + at + |data|) ==> after[k] == before[k]
    ensures Content(after, s) == Overwritten(Content(before, s), at, data)
  {
    var now, was := Content(after, s), Content(before, s);
    forall k | 0 <= k < s.length
      ensures now[k] == Overwritten(was, at, data)[k]
    {
      assert now[k] == after[s.offset + k] && was[k] == before[s.offset + k];
      if at <= k < at + |data| { assert after[s.offset + at + (k - at)] == data[k - at]; }
    }
  }

  /** A change inside one slice is a change of that record alone. */
  lemma EditedSlice(before: seq<byte>, after: seq<byte>, slots: seq<Slice>, used: nat, none: nat, i: nat)
    requires used <= |before| == |after| && Tiled(slots, used, none) && i < |slots|
    requires forall k :: 0 <= k < |before| && !(slots[i].offset <= k < slots[i].offset + slots[i].length) ==> after[k] == before[k]
    ensures ContentsOf(after, slots) == ContentsOf(before, slots)[i := Content(after, slots[i])]
    ensures slots[i].length > 0 ==> forall k :: used <= k < |before| ==> after[k] == before[k]
  {
    assert InBounds(slots[i], used, none);
    forall j | 0 <= j < |slots| && j != i
      ensures Content(after, slots[j]) == Content(before, slots[j])
    {
      assert InBounds(slots[j], used, none);
      assert if j < i then Apart(slots[j], slots[i]) else Apart(slots[i], slots[j]);
    }
  }

  lemma GrowthTiles(bytes: seq<byte>, slots: seq<Slice>, used: nat, none: nat, i: nat, grow: nat)
    requires Tiled(slots, used, none) && i < |slots| && slots[i].length > 0
    requires slots[i].offset + slots[i].length == used && used + grow <= |bytes|
    requires forall k :: used <= k < |bytes| ==> bytes[k] == 0
    ensures var after := slots[i := Slice(slots[i].offset, slots[i].length + grow)];
            && Tiled(after, used + grow, none)
            && ContentsOf(bytes, after) == ContentsOf(bytes, slots)[i := ContentsOf(bytes, slots)[i] + Zeros(grow)]
  {
    var after := slots[i := Slice(slots[i].offset, slots[i].length + grow)];
    assert Content(bytes, after[i]) == Content(bytes, slots[i]) + Zeros(grow);
    hide Content;
    TotalUpdate(slots, i, after[i]);
    forall j | 0 <= j < |slots|
      ensures InBounds(after[j], used + grow, none)
    {
      assert InBounds(slots[j], used, none);
    }
    forall j, k | 0 <= j < k < |slots|
      ensures Apart(after[j], after[k])
    {
      assert Apart(slots[j], slots[k]) && InBounds(slots[j], used, none) && InBounds(slots[k], used, none);
    }
  }

  lemma InsertedTotal(slots: seq<Slice>, empty: Slice, i: nat)
    requires i <= |slots| && empty.length == 0
    ensures TotalLength(slots[..i] + [empty] + slots[i..]) == TotalLength(slots)
  {
    assert slots == slots[..i] + slots[i..];
    TotalAppend(slots[..i], slots[i..]);
    TotalAppend(slots[..i] + [empty], slots[i..]);
    TotalAppend(slots[..i], [empty]);
    TotalOfEmpty([empty]);
  }

  lemma InsertedTiles(slots: seq<Slice>, used: nat, none: nat, i: nat)
    requires Tiled(slots, used, none) && i <= |slots|
    ensures Tiled(slots[..i] + [Slice(none, 0)] + slots[i..], used, none)
  {
    InsertedTotal(slots, Slice(none, 0), i);
    hide TotalLength;
    var after := slots[..i] + [Slice(none, 0)] + slots[i..];
    forall j | 0 <= j < |after|
      ensures InBounds(after[j], used, none)
    {
      assert j < i ==> after[j] == slots[j];
      assert j > i ==> after[j] == slots[j - 1];
    }
    forall j, k | 0 <= j < k < |after|
      ensures Apart(after[j], after[k])
    {
      assert j < i ==> after[j] == slots[j];
      assert j > i ==> after[j] == slots[j - 1];
      assert k < i ==> after[k] == slots[k];
      assert k > i ==> after[k] == slots[k - 1];
    }
  }

  lemma RemovedTiles(slots: seq<Slice>, used: nat, none: nat, i: nat)
    requires Tiled(slots, used, none) && i < |slots| && slots[i].length == 0
    ensures Tiled(slots[..i] + slots[i + 1..], used, none)
  {
    var after := slots[..i] + slots[i + 1..];
    InsertedTotal(after, slots[i], i);
    assert after[..i] + [slots[i]] + after[i..] == slots;
    hide TotalLength;
    forall j | 0 <= j < |after|
      ensures InBounds(after[j], used, none)
    {
      assert after[j] == if j < i then slots[j] else slots[j + 1];
    }
    forall j, k | 0 <= j < k < |after|
      ensures Apart(after[j], after[k])
    {
      assert after[j] == if j < i then slots[j] else slots[j + 1];
      assert after[k] == if k < i then slots[k] else slots[k + 1];
    }
  }

  lemma SingleTiles(slots: seq<Slice>, used: nat, none: nat, i: nat)
    requires i < |slots| && slots[i] == (if used > 0 then Slice(0, used) else Slice(none, 0))
    requires forall j :: 0 <= j < |slots| && j != i ==> slots[j] == Slice(none, 0)
    ensures Tiled(slots, used, none)
  {
    var empty := slots[i := Slice(none, 0)];
    TotalOfEmpty(empty);
    TotalUpdate(empty, i, slots[i]);
    assert empty[i := slots[i]] == slots;
  }

  /** The effect of a resize on what the records hold. */
  function Resized(c: seq<seq<byte>>, i: nat, want: nat): seq<seq<byte>>
    requires i < |c|
  {
    if |c[i]| == want then c else c[i := Zeros(want)]
  }

  lemma AllocationTiles(slots: seq<Slice>, used: nat, none: nat, i: nat, want: nat)
    requires Tiled(slots, used, none) && i < |slots| && slots[i].length == 0 && want > 0
    ensures Tiled(slots[i := Slice(used, want)], used + want, none)
  {
    TotalUpdate(slots, i, Slice(used, want));
    var after := slots[i := Slice(used, want)];
    forall j | 0 <= j < |slots|
      ensures InBounds(after[j], used + want, none)
    {
      assert InBounds(slots[j], used, none);
    }
  }

  lemma {:induction false} TotalOfEmpty(slots: seq<Slice>)
    requires forall i :: 0 <= i < |slots| ==> slots[i].length == 0
    ensures TotalLength(slots) == 0
  {
    if slots != [] { TotalOfEmpty(slots[1..]); }
  }
}
